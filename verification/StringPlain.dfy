/** Plain encoding of strings: [u32 LE byte length][bytes] each. A string is a byte
    string that `utf8` accepts. */
module StringPlain {
  import opened Wrappers
  import opened Sequences
  import opened Bytes
  import opened EncodingErrors

  type Str = seq<Byte>

  /** The length field holds the low 32 bits of the length. */
  function Field(s: Str): seq<Byte> {
    ToLe(|s|, 4) + s
  }

  function Encoded(ss: seq<Str>): seq<Byte> {
    if ss == [] then [] else Encoded(ss[..|ss| - 1]) + Field(ss[|ss| - 1])
  }

  /** Lengths that a u32 can hold */
  ghost predicate LengthsFit(ss: seq<Str>) {
    forall i :: 0 <= i < |ss| ==> |ss[i]| < 0x1_0000_0000
  }

  ghost predicate AllUtf8(utf8: Str -> bool, ss: seq<Str>) {
    forall i :: 0 <= i < |ss| ==> utf8(ss[i])
  }

  /** The first string of `src` and what follows it */
  function ParsedField(utf8: Str -> bool, src: seq<Byte>): (r: Result<(Str, seq<Byte>), EncodingError>)
    ensures r.Ok? ==> |r.value.1| < |src|
  {
    if |src| < 4 then Err(Truncated)
    else
      var len := FromLe(src[..4]);
      if |src| - 4 < len then Err(Truncated)
      else if !utf8(src[4..4 + len]) then Err(InvalidUtf8)
      else Ok((src[4..4 + len], src[4 + len..]))
  }

  ghost function Parsed(utf8: Str -> bool, src: seq<Byte>): Result<seq<Str>, EncodingError>
    decreases |src|
  {
    if src == [] then Ok([])
    else match ParsedField(utf8, src)
      case Err(e) => Err(e)
      case Ok((s, rest)) =>
        match Parsed(utf8, rest)
        case Err(e) => Err(e)
        case Ok(ss) => Ok([s] + ss)
  }

  lemma EncodedOfMore(ss: seq<Str>, s: Str)
    ensures Encoded(ss + [s]) == Encoded(ss) + Field(s)
  {
    hide Field;
    assert (ss + [s])[..|ss|] == ss;
  }

  lemma {:induction false} EncodedOfConcat(a: seq<Str>, b: seq<Str>)
    ensures Encoded(a + b) == Encoded(a) + Encoded(b)
  {
    if b == [] {
      assert a + b == a;
      assert Encoded(a) + [] == Encoded(a);
    } else {
      var front, last := b[..|b| - 1], b[|b| - 1];
      assert b == front + [last];
      hide *;
      EncodedOfConcat(a, front);
      EncodedOfMore(front, last);
      EncodedOfMore(a + front, last);
      assert a + b == (a + front) + [last];
      Associates(Encoded(a), Encoded(front), Field(last));
    }
  }

  lemma EncodedHead(ss: seq<Str>)
    requires ss != []
    ensures Encoded(ss) == Field(ss[0]) + Encoded(ss[1..])
  {
    assert ss == [ss[0]] + ss[1..];
    EncodedOfConcat([ss[0]], ss[1..]);
    var one: seq<Str> := [ss[0]];
    assert |one[..0]| == 0;
  }

  /** The k-th string follows its length, which follows the strings before it. */
  lemma FieldLayout(ss: seq<Str>, k: nat)
    requires k < |ss| && |ss[k]| < 0x1_0000_0000
    ensures var at, len := |Encoded(ss[..k])|, |ss[k]|;
            && at + 4 + len <= |Encoded(ss)|
            && FromLe(Encoded(ss)[at..at + 4]) == len && Encoded(ss)[at + 4..at + 4 + len] == ss[k]
            && |Encoded(ss[..k + 1])| == at + 4 + len
  {
    var front, field, back := Encoded(ss[..k]), Field(ss[k]), Encoded(ss[k + 1..]);
    Around(ss, k);
    EncodedOfConcat(ss[..k] + [ss[k]], ss[k + 1..]);
    EncodedOfMore(ss[..k], ss[k]);
    assert ss[..k + 1] == ss[..k] + [ss[k]];
    Pow256Values();
    FromLeOfToLe(|ss[k]|, 4);
    assert field == ToLe(|ss[k]|, 4) + ss[k];
    hide *;
    assert (front + field + back)[|front|..|front| + 4] == ToLe(|ss[k]|, 4);
    assert (front + field + back)[|front| + 4..|front| + 4 + |ss[k]|] == ss[k];
  }

  lemma FieldParses(utf8: Str -> bool, s: Str, rest: seq<Byte>)
    requires |s| < 0x1_0000_0000 && utf8(s)
    ensures ParsedField(utf8, Field(s) + rest) == Ok((s, rest))
  {
    var src := Field(s) + rest;
    assert src[..4] == ToLe(|s|, 4) && src[4..4 + |s|] == s && src[4 + |s|..] == rest;
    Pow256Values();
    FromLeOfToLe(|s|, 4);
  }

  /** Decoding undoes encoding. */
  lemma {:induction false} ParsedOfEncoded(utf8: Str -> bool, ss: seq<Str>)
    requires LengthsFit(ss) && AllUtf8(utf8, ss)
    ensures Parsed(utf8, Encoded(ss)) == Ok(ss)
    decreases |ss|
  {
    if ss != [] {
      EncodedHead(ss);
      FieldParses(utf8, ss[0], Encoded(ss[1..]));
      ParsedOfEncoded(utf8, ss[1..]);
      assert ss == [ss[0]] + ss[1..];
    }
  }

  /** Encoding undoes decoding: no other byte string decodes to the same strings. */
  lemma {:induction false} EncodedOfParsed(utf8: Str -> bool, src: seq<Byte>)
    requires Parsed(utf8, src).Ok?
    ensures Encoded(Parsed(utf8, src).value) == src
    decreases |src|
  {
    if src != [] {
      var (s, rest) := ParsedField(utf8, src).value;
      FieldOfParsed(utf8, src);
      EncodedOfParsed(utf8, rest);
      var ss := Parsed(utf8, rest).value;
      assert ([s] + ss)[1..] == ss;
      EncodedHead([s] + ss);
    }
  }

  lemma FieldOfParsed(utf8: Str -> bool, src: seq<Byte>)
    requires ParsedField(utf8, src).Ok?
    ensures var (s, rest) := ParsedField(utf8, src).value; src == Field(s) + rest
  {
    ToLeOfFromLe(src[..4]);
  }

  method Encode(src: seq<Str>, out0: seq<Byte>) returns (out: seq<Byte>)
    ensures out == out0 + Encoded(src)
  {
    out := out0;
    for i := 0 to |src|
      invariant out == out0 + Encoded(src[..i])
    {
      assert src[..i + 1][..i] == src[..i];
      out := out + ToLe(|src[i]|, 4);
      out := out + src[i];
    }
    assert src[..|src|] == src;
  }

  /** A result after the strings already decoded */
  function After(done: seq<Str>, r: Result<seq<Str>, EncodingError>): Result<seq<Str>, EncodingError> {
    match r
    case Err(e) => Err(e)
    case Ok(ss) => Ok(done + ss)
  }

  lemma NextField(utf8: Str -> bool, rest: seq<Byte>, done: seq<Str>)
    requires rest != []
    ensures After(done, Parsed(utf8, rest))
         == match ParsedField(utf8, rest)
            case Err(e) => Err(e)
            case Ok((s, later)) => After(done + [s], Parsed(utf8, later))
  {
    if ParsedField(utf8, rest).Ok? {
      var (s, later) := ParsedField(utf8, rest).value;
      if Parsed(utf8, later).Ok? {
        assert done + ([s] + Parsed(utf8, later).value) == (done + [s]) + Parsed(utf8, later).value;
      }
    }
  }

  /** The field that begins at `i`, by places in the whole input */
  lemma FieldAt(utf8: Str -> bool, src: seq<Byte>, i: nat)
    requires i <= |src|
    ensures ParsedField(utf8, src[i..])
         == if |src| - i < 4 then Err(Truncated)
            else
              var from, len := i + 4, FromLe(src[i..i + 4]);
              if |src| - from < len then Err(Truncated)
              else if !utf8(src[from..from + len]) then Err(InvalidUtf8)
              else Ok((src[from..from + len], src[from + len..]))
  {
    var rest := src[i..];
    if 4 <= |rest| {
      assert rest[..4] == src[i..i + 4];
      var len := FromLe(rest[..4]);
      if len <= |rest| - 4 {
        assert rest[4..4 + len] == src[i + 4..i + 4 + len] && rest[4 + len..] == src[i + 4 + len..];
      }
    }
  }

  lemma AfterAll(utf8: Str -> bool, done: seq<Str>)
    ensures After(done, Parsed(utf8, [])) == Ok(done)
  {
    assert done + [] == done;
  }

  method Decode(utf8: Str -> bool, src: seq<Byte>, out0: seq<Str>) returns (r: Result<seq<Str>, EncodingError>)
    ensures r == After(out0, Parsed(utf8, src))
  {
    hide *;
    var i, out := 0, out0;
    assert src[0..] == src;
    while i < |src|
      invariant 0 <= i <= |src|
      invariant After(out0, Parsed(utf8, src)) == After(out, Parsed(utf8, src[i..]))
    {
      NextField(utf8, src[i..], out);
      FieldAt(utf8, src, i);
      if |src| - i < 4 {
        return Err(Truncated);
      }
      var len := FromLe(src[i..i + 4]);
      i := i + 4;
      if |src| - i < len {
        return Err(Truncated);
      }
      var s := src[i..i + len];
      if !utf8(s) {
        return Err(InvalidUtf8);
      }
      out := out + [s];
      i := i + len;
    }
    AfterAll(utf8, out);
    assert src[i..] == [];
    return Ok(out);
  }
}
