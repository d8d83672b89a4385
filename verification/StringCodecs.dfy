/** The codecs for string columns, and how much space they may take. */
module StringCodecs {
  import opened Wrappers
  import opened Sequences
  import opened Bytes
  import opened EncodingErrors
  import opened StringPlain
  import opened StringDictionary

  datatype StringCodec = Plain | Dictionary

  function StringTag(c: StringCodec): Byte {
    match c
    case Plain => 0
    case Dictionary => 1
  }

  function StringFromTag(tag: Byte): Result<StringCodec, EncodingError> {
    if tag == 0 then Ok(Plain)
    else if tag == 1 then Ok(Dictionary)
    else Err(BadHeader)
  }

  function EncodedAs(c: StringCodec, ss: seq<Str>): seq<Byte> {
    match c
    case Plain => Encoded(ss)
    case Dictionary => EncodedDictionary(ss)
  }

  ghost function DecodedAs(c: StringCodec, utf8: Str -> bool, src: seq<Byte>): Result<seq<Str>, EncodingError> {
    match c
    case Plain => Parsed(utf8, src)
    case Dictionary => ParsedDictionary(utf8, src)
  }

  method EncodeAs(c: StringCodec, src: seq<Str>, out0: seq<Byte>) returns (out: seq<Byte>)
    ensures out == out0 + EncodedAs(c, src)
  {
    match c
    case Plain => out := StringPlain.Encode(src, out0);
    case Dictionary => out := EncodeStrings(src, out0);
  }

  method DecodeAs(c: StringCodec, utf8: Str -> bool, src: seq<Byte>, out0: seq<Str>) returns (r: Result<seq<Str>, EncodingError>)
    ensures r == After(out0, DecodedAs(c, utf8, src))
  {
    match c
    case Plain => r := StringPlain.Decode(utf8, src, out0);
    case Dictionary => r := DecodeStrings(utf8, src, out0);
  }

  // ---- Sizes ----

  /** The running count of the writer: four bytes and the string, per string */
  function PlainSize(ss: seq<Str>): nat {
    if ss == [] then 0 else PlainSize(ss[..|ss| - 1]) + 4 + |ss[|ss| - 1]|
  }

  lemma {:induction false} PlainSizeIsSize(ss: seq<Str>)
    ensures PlainSize(ss) == |Encoded(ss)|
  {
    if ss != [] {
      PlainSizeIsSize(ss[..|ss| - 1]);
    }
  }

  lemma {:induction false} PlainSizeBounds(ss: seq<Str>)
    ensures 4 * |ss| <= PlainSize(ss)
    ensures forall i :: 0 <= i < |ss| ==> |ss[i]| <= PlainSize(ss)
    ensures PlainSize(FirstSeen(ss)) <= PlainSize(ss) && |FirstSeen(ss)| <= |ss|
  {
    if ss != [] {
      var front, last := ss[..|ss| - 1], ss[|ss| - 1];
      PlainSizeBounds(front);
      assert ss == front + [last];
      FirstSeenStep(front, last);
      assert (FirstSeen(front) + [last])[..|FirstSeen(front)|] == FirstSeen(front);
    }
  }

  /** What a block may hold if its compressed length is to fit its u32 field */
  const BLOCK_LIMIT: nat := 0x3FFF_0000

  /** Within the limit every codec gives back what it was given, in little more than
      twice the plain size. */
  lemma StringsRoundTrip(c: StringCodec, utf8: Str -> bool, ss: seq<Str>)
    requires AllUtf8(utf8, ss) && PlainSize(ss) <= BLOCK_LIMIT
    ensures DecodedAs(c, utf8, EncodedAs(c, ss)) == Ok(ss)
    ensures |EncodedAs(c, ss)| <= 4 + 2 * PlainSize(ss)
  {
    hide Parsed, ParsedDictionary, Encoded, IndexBytes, PlainSize, FirstSeen;
    PlainSizeBounds(ss);
    PlainSizeIsSize(ss);
    match c
    case Plain => ParsedOfEncoded(utf8, ss);
    case Dictionary =>
      DictionaryRoundTrip(utf8, ss);
      PlainSizeIsSize(FirstSeen(ss));
      IndexBytesSize(FirstSeen(ss), ss);
  }
}
