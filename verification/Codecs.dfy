/** Typed values as little-endian bytes, and the codecs for byte streams of
    fixed-width values. */
module Codecs {
  import opened Wrappers
  import opened Sequences
  import opened Bytes
  import opened EncodingErrors
  import Delta
  import Rle

  // ---- Primitive types ----

  /** An integer type of 1, 2, 4 or 8 bytes, or bool; a float is stored as the
      unsigned integer of its bits. A bool's values are 0 and 1. */
  datatype Primitive = Int(signed: bool, width: nat) | Bool {
    function Width(): nat {
      if Bool? then 1 else width
    }

    predicate Valid() {
      Int? ==> width == 1 || width == 2 || width == 4 || width == 8
    }

    predicate InRange(v: int) {
      if Bool? then v == 0 || v == 1
      else if signed then -(Pow256(width) / 2) <= v < Pow256(width) / 2
      else 0 <= v < Pow256(width)
    }
  }

  ghost predicate AllInRange(p: Primitive, values: seq<int>) {
    forall i :: 0 <= i < |values| ==> p.InRange(values[i])
  }

  /** Two's complement for a signed type */
  function EncodeLe(p: Primitive, v: int): (bytes: seq<Byte>)
    requires p.InRange(v)
    ensures |bytes| == p.Width()
  {
    ToLe(if v < 0 then v + Pow256(p.Width()) else v, p.Width())
  }

  function DecodeLe(p: Primitive, bytes: seq<Byte>): int {
    var n := FromLe(bytes);
    if p.Bool? then (if bytes != [] && bytes[0] != 0 then 1 else 0)
    else if p.signed && n >= Pow256(p.width) / 2 then n - Pow256(p.width)
    else n
  }

  lemma DecodeLeOfEncodeLe(p: Primitive, v: int)
    requires p.Valid() && p.InRange(v)
    ensures DecodeLe(p, EncodeLe(p, v)) == v
  {
    Pow256Values();
    FromLeOfToLe(if v < 0 then v + Pow256(p.Width()) else v, p.Width());
  }

  /** The bytes are the value itself, or for a negative one its two's complement. */
  lemma EncodeLeIsTwosComplement(p: Primitive, v: int)
    requires p.Valid() && p.InRange(v)
    ensures FromLe(EncodeLe(p, v)) == if v < 0 then v + Pow256(p.Width()) else v
  {
    Pow256Values();
    FromLeOfToLe(if v < 0 then v + Pow256(p.Width()) else v, p.Width());
  }

  function EncodedValues(p: Primitive, values: seq<int>): (chunks: seq<seq<Byte>>)
    requires AllInRange(p, values)
    ensures |chunks| == |values| && AllOfSize(chunks, p.Width())
    ensures forall i :: 0 <= i < |values| ==> chunks[i] == EncodeLe(p, values[i])
  {
    seq(|values|, i requires 0 <= i < |values| => EncodeLe(p, values[i]))
  }

  /** The values one after the other */
  ghost function RawBytes(p: Primitive, values: seq<int>): seq<Byte>
    requires AllInRange(p, values)
  {
    Concat(EncodedValues(p, values))
  }

  function DecodedValues(p: Primitive, chunks: seq<seq<Byte>>): (values: seq<int>)
    ensures |values| == |chunks| && forall i :: 0 <= i < |chunks| ==> values[i] == DecodeLe(p, chunks[i])
  {
    seq(|chunks|, i requires 0 <= i < |chunks| => DecodeLe(p, chunks[i]))
  }

  lemma RawBytesDecode(p: Primitive, values: seq<int>)
    requires p.Valid() && AllInRange(p, values)
    ensures DecodedValues(p, Chunks(RawBytes(p, values), p.Width())) == values
    ensures |RawBytes(p, values)| == |values| * p.Width()
  {
    ChunksOfJoin(EncodedValues(p, values), p.Width());
    forall i | 0 <= i < |values| ensures DecodeLe(p, EncodeLe(p, values[i])) == values[i] {
      DecodeLeOfEncodeLe(p, values[i]);
    }
  }

  lemma RawBytesOfConcat(p: Primitive, a: seq<int>, b: seq<int>)
    requires AllInRange(p, a) && AllInRange(p, b)
    ensures AllInRange(p, a + b) && RawBytes(p, a + b) == RawBytes(p, a) + RawBytes(p, b)
  {
    assert EncodedValues(p, a + b) == EncodedValues(p, a) + EncodedValues(p, b);
    ConcatOfConcat(EncodedValues(p, a), EncodedValues(p, b));
  }

  // ---- Codecs ----

  datatype Codec = Plain | Delta | RLE

  function Tag(c: Codec): Byte {
    match c
    case Plain => 0
    case Delta => 1
    case RLE => 2
  }

  function FromTag(tag: Byte): Result<Codec, EncodingError> {
    if tag == 0 then Ok(Plain)
    else if tag == 1 then Ok(Codec.Delta)
    else if tag == 2 then Ok(RLE)
    else Err(BadHeader)
  }

  ghost function Encoded(c: Codec, src: seq<Byte>, stride: nat): seq<Byte>
    requires stride > 0
  {
    match c
    case Plain => src
    case Delta => if Delta.Supported(stride) then Delta.Encoded(src, stride) else src
    case RLE => Rle.Encoded(src, stride)
  }

  ghost function Decoded(c: Codec, src: seq<Byte>, stride: nat): Result<seq<Byte>, EncodingError>
    requires stride > 0
  {
    match c
    case Plain => if |src| % stride != 0 then Err(Truncated) else Ok(src)
    case Delta =>
      if src == [] then Ok([])
      else if |src| % stride != 0 then Err(Truncated)
      else if !Delta.Supported(stride) then Err(UnsupportedStride(stride))
      else Ok(Delta.Decoded(src, stride))
    case RLE =>
      match Rle.Parsed(src, stride)
      case None => Err(Truncated)
      case Some(runs) => Ok(Concat(Rle.Expand(runs)))
  }

  /** Every codec gives back what it was given, in at most three times the space. */
  lemma CodecRoundTrip(c: Codec, src: seq<Byte>, stride: nat)
    requires Delta.Supported(stride) && |src| % stride == 0
    ensures Decoded(c, Encoded(c, src, stride), stride) == Ok(src)
    ensures |Encoded(c, src, stride)| <= 3 * |src|
  {
    hide Delta.Encoded, Delta.Decoded, Rle.Encoded, Rle.Parsed, Rle.Greedy, Rle.Expand, Concat, Chunks;
    match c
    case Plain =>
    case Delta => Delta.MutuallyInverse(src, stride);
    case RLE =>
      Rle.RoundTrip(src, stride);
      RleSize(src, stride);
  }

  lemma RleSize(src: seq<Byte>, stride: nat)
    requires stride > 0 && |src| % stride == 0
    ensures |Rle.Encoded(src, stride)| <= 3 * |src|
  {
    var vs := Chunks(src, stride);
    Rle.GreedyValuesOfSize(vs, stride);
    GreedyIsNoLonger(vs);
    PairsSize(Rle.Greedy(vs), stride);
    JoinOfChunks(src, stride);
    ChunksOfJoin(vs, stride);
    PairsBound(|Rle.Greedy(vs)|, |vs|, stride);
  }

  lemma PairsBound(runs: nat, values: nat, stride: nat)
    requires runs <= values && stride >= 1
    ensures runs * (2 + stride) <= 3 * (values * stride)
  {
    assert runs * (2 + stride) <= values * (2 + stride);
    assert values * (2 + stride) <= values * (3 * stride);
    assert values * (3 * stride) == 3 * (values * stride);
  }

  lemma {:induction false} GreedyIsNoLonger(vs: seq<seq<Byte>>)
    ensures |Rle.Greedy(vs)| <= |vs|
    decreases |vs|
  {
    if vs != [] {
      Rle.LeadingAtLeast(vs[0], vs, Rle.MAX_COUNT, 1);
      GreedyIsNoLonger(vs[Rle.Leading(vs[0], vs, Rle.MAX_COUNT)..]);
    }
  }

  lemma {:induction false} PairsSize(runs: seq<Rle.Run>, stride: nat)
    requires Rle.ValuesOfSize(runs, stride)
    ensures |Rle.PairsBytes(runs)| == |runs| * (2 + stride)
  {
    if runs != [] {
      PairsSize(runs[..|runs| - 1], stride);
      assert |runs| * (2 + stride) == (|runs| - 1) * (2 + stride) + (2 + stride);
    }
  }

  method Encode(c: Codec, src: seq<Byte>, stride: nat, out0: seq<Byte>) returns (out: seq<Byte>)
    requires stride > 0 && (src != [] ==> |src| >= stride)
    ensures out == out0 + Encoded(c, src, stride)
  {
    match c
    case Plain => out := out0 + src;
    case Delta => out := Delta.Encode(src, stride, out0);
    case RLE => out := Rle.Encode(src, stride, out0);
  }

  method Decode(c: Codec, src: seq<Byte>, stride: nat, out0: seq<Byte>) returns (r: Result<seq<Byte>, EncodingError>)
    requires stride > 0
    ensures r == match Decoded(c, src, stride)
                 case Err(e) => Err(e)
                 case Ok(bytes) => Ok(out0 + bytes)
  {
    match c
    case Plain =>
      if |src| % stride != 0 {
        return Err(Truncated);
      }
      return Ok(out0 + src);
    case Delta =>
      r := Delta.Decode(src, stride, out0);
      assert out0 + [] == out0;
    case RLE =>
      r := Rle.Decode(src, stride, out0);
  }
}
