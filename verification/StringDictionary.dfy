/** Dictionary encoding of strings: the distinct strings in order of first occurrence,
    then one u32 index per row. */
module StringDictionary {
  import opened Wrappers
  import opened Sequences
  import opened Bytes
  import opened EncodingErrors
  import opened StringPlain

  /** The place of `s` in the dictionary */
  function IndexIn(dict: seq<Str>, s: Str): (i: nat)
    requires s in dict
    ensures i < |dict| && dict[i] == s
  {
    if dict[0] == s then 0 else 1 + IndexIn(dict[1..], s)
  }

  lemma {:induction false} IndexIsUnique(dict: seq<Str>, i: nat)
    requires Distinct(dict) && i < |dict|
    ensures IndexIn(dict, dict[i]) == i
  {
    if i > 0 {
      assert Distinct(dict[1..]) by {
        assert forall j :: 0 <= j < |dict[1..]| ==> dict[1..][j] == dict[j + 1];
      }
      IndexIsUnique(dict[1..], i - 1);
    }
  }

  function IndexBytes(dict: seq<Str>, ss: seq<Str>): seq<Byte>
    requires forall s :: s in ss ==> s in dict
  {
    if ss == [] then []
    else IndexBytes(dict, ss[..|ss| - 1]) + ToLe(IndexIn(dict, ss[|ss| - 1]), 4)
  }

  function EncodedDictionary(ss: seq<Str>): seq<Byte> {
    var dict := FirstSeen(ss);
    ToLe(|dict|, 4) + Encoded(dict) + IndexBytes(dict, ss)
  }

  /** `n` strings from the front of `src` */
  ghost function ParsedFields(utf8: Str -> bool, src: seq<Byte>, n: nat): Result<(seq<Str>, seq<Byte>), EncodingError> {
    if n == 0 then Ok(([], src))
    else match ParsedField(utf8, src)
      case Err(e) => Err(e)
      case Ok((s, rest)) =>
        match ParsedFields(utf8, rest, n - 1)
        case Err(e) => Err(e)
        case Ok((ss, rest')) => Ok(([s] + ss, rest'))
  }

  ghost function ParsedIndices(dict: seq<Str>, src: seq<Byte>): Result<seq<Str>, EncodingError> {
    if src == [] then Ok([])
    else if |src| < 4 then Err(Truncated)
    else if FromLe(src[..4]) >= |dict| then Err(Corrupt)
    else match ParsedIndices(dict, src[4..])
      case Err(e) => Err(e)
      case Ok(ss) => Ok([dict[FromLe(src[..4])]] + ss)
  }

  ghost function ParsedDictionary(utf8: Str -> bool, src: seq<Byte>): Result<seq<Str>, EncodingError> {
    if |src| < 4 then Err(Truncated)
    else match ParsedFields(utf8, src[4..], FromLe(src[..4]))
      case Err(e) => Err(e)
      case Ok((dict, rest)) => ParsedIndices(dict, rest)
  }

  lemma {:induction false} FieldsParse(utf8: Str -> bool, ss: seq<Str>, rest: seq<Byte>)
    requires LengthsFit(ss) && AllUtf8(utf8, ss)
    ensures ParsedFields(utf8, Encoded(ss) + rest, |ss|) == Ok((ss, rest))
    decreases |ss|
  {
    if ss == [] {
      assert [] + rest == rest;
    } else {
      EncodedHead(ss);
      hide *;
      Associates(Field(ss[0]), Encoded(ss[1..]), rest);
      FieldParses(utf8, ss[0], Encoded(ss[1..]) + rest);
      TailFits(utf8, ss);
      FieldsParse(utf8, ss[1..], rest);
      FieldsStep(utf8, Encoded(ss) + rest, ss[0], Encoded(ss[1..]) + rest, ss[1..], rest);
      assert ss == [ss[0]] + ss[1..];
    }
  }

  lemma TailFits(utf8: Str -> bool, ss: seq<Str>)
    requires ss != [] && LengthsFit(ss) && AllUtf8(utf8, ss)
    ensures LengthsFit(ss[1..]) && AllUtf8(utf8, ss[1..]) && |ss[0]| < 0x1_0000_0000 && utf8(ss[0])
  {
    assert ss[0] in ss;
  }

  lemma FieldsStep(utf8: Str -> bool, src: seq<Byte>, s: Str, later: seq<Byte>, ss: seq<Str>, rest: seq<Byte>)
    requires ParsedField(utf8, src) == Ok((s, later)) && ParsedFields(utf8, later, |ss|) == Ok((ss, rest))
    ensures ParsedFields(utf8, src, |ss| + 1) == Ok(([s] + ss, rest))
  {
    hide ParsedField;
  }

  lemma {:induction false} IndexBytesHead(dict: seq<Str>, ss: seq<Str>)
    requires ss != [] && forall s :: s in ss ==> s in dict
    ensures IndexBytes(dict, ss) == ToLe(IndexIn(dict, ss[0]), 4) + IndexBytes(dict, ss[1..])
  {
    hide ToLe, IndexIn;
    if |ss| == 1 {
      assert IndexBytes(dict, ss[..0]) == [];
    } else {
      var front, last := ss[..|ss| - 1], ToLe(IndexIn(dict, ss[|ss| - 1]), 4);
      IndexBytesHead(dict, front);
      assert front[1..] == ss[1..][..|ss[1..]| - 1] && ss[1..][|ss[1..]| - 1] == ss[|ss| - 1];
      assert IndexBytes(dict, ss[1..]) == IndexBytes(dict, front[1..]) + last;
    }
  }

  lemma {:induction false} IndexBytesSize(dict: seq<Str>, ss: seq<Str>)
    requires forall s :: s in ss ==> s in dict
    ensures |IndexBytes(dict, ss)| == 4 * |ss|
  {
    if ss != [] { IndexBytesSize(dict, ss[..|ss| - 1]); }
  }

  /** Four bytes that hold the number `n` */
  predicate NumberAt(bytes: seq<Byte>, at: nat, n: nat) {
    at + 4 <= |bytes| && FromLe(bytes[at..at + 4]) == n
  }

  /** Four bytes that hold the place of `s` in the dictionary */
  ghost predicate PlaceAt(bytes: seq<Byte>, at: nat, dict: seq<Str>, s: Str) {
    exists i :: 0 <= i < |dict| && dict[i] == s && NumberAt(bytes, at, i)
  }

  lemma NumberAmong(front: seq<Byte>, bytes: seq<Byte>, at: nat, n: nat)
    requires NumberAt(bytes, at, n)
    ensures NumberAt(front + bytes, |front| + at, n)
  {
    assert (front + bytes)[|front| + at..|front| + at + 4] == bytes[at..at + 4];
  }

  lemma PlaceAmong(front: seq<Byte>, bytes: seq<Byte>, at: nat, dict: seq<Str>, s: Str)
    requires PlaceAt(bytes, at, dict, s)
    ensures PlaceAt(front + bytes, |front| + at, dict, s)
  {
    hide NumberAt;
    var i :| 0 <= i < |dict| && dict[i] == s && NumberAt(bytes, at, i);
    NumberAmong(front, bytes, at, i);
  }

  lemma NumberFirst(n: nat, rest: seq<Byte>)
    requires n < 0x1_0000_0000
    ensures NumberAt(ToLe(n, 4) + rest, 0, n)
  {
    Pow256Values();
    FromLeOfToLe(n, 4);
    assert (ToLe(n, 4) + rest)[0..4] == ToLe(n, 4);
  }

  lemma {:induction false} IndexLayout(dict: seq<Str>, ss: seq<Str>, k: nat)
    requires |dict| <= 0x1_0000_0000 && (forall s :: s in ss ==> s in dict) && k < |ss|
    ensures PlaceAt(IndexBytes(dict, ss), 4 * k, dict, ss[k])
    decreases |ss|
  {
    IndexBytesHead(dict, ss);
    var head, rest := ToLe(IndexIn(dict, ss[0]), 4), IndexBytes(dict, ss[1..]);
    if k == 0 {
      hide ToLe, NumberAt, IndexBytes;
      NumberFirst(IndexIn(dict, ss[0]), rest);
    } else {
      hide *;
      IndexLayout(dict, ss[1..], k - 1);
      PlaceAmong(head, rest, 4 * (k - 1), dict, ss[k]);
    }
  }

  /** The encoding: the number of distinct strings, these strings as plain fields in order
      of first occurrence, and for each row four bytes that say which one it is. */
  lemma DictionaryLayout(ss: seq<Str>, k: nat)
    requires |FirstSeen(ss)| < 0x1_0000_0000 && k < |ss|
    ensures var dict, bytes := FirstSeen(ss), EncodedDictionary(ss);
            NumberAt(bytes, 0, |dict|) && Encoded(dict) <= bytes[4..] && PlaceAt(bytes, 4 + |Encoded(dict)| + 4 * k, dict, ss[k])
  {
    var dict := FirstSeen(ss);
    var count, fields, indices := ToLe(|dict|, 4), Encoded(dict), IndexBytes(dict, ss);
    assert EncodedDictionary(ss) == count + fields + indices;
    hide *;
    Associates(count, fields, indices);
    assert (count + (fields + indices))[4..] == fields + indices;
    NumberFirst(|dict|, fields + indices);
    IndexLayout(dict, ss, k);
    PlaceAmong(count + fields, indices, 4 * k, dict, ss[k]);
  }

  lemma {:induction false} IndicesParse(dict: seq<Str>, ss: seq<Str>)
    requires |dict| <= 0x1_0000_0000 && forall s :: s in ss ==> s in dict
    ensures ParsedIndices(dict, IndexBytes(dict, ss)) == Ok(ss)
    decreases |ss|
  {
    if ss != [] {
      IndexBytesHead(dict, ss);
      assert ss == [ss[0]] + ss[1..];
      var bytes := IndexBytes(dict, ss);
      assert bytes[..4] == ToLe(IndexIn(dict, ss[0]), 4) && bytes[4..] == IndexBytes(dict, ss[1..]);
      Pow256Values();
      FromLeOfToLe(IndexIn(dict, ss[0]), 4);
      IndicesParse(dict, ss[1..]);
    }
  }

  lemma DictionaryFits(utf8: Str -> bool, ss: seq<Str>, dict: seq<Str>)
    requires LengthsFit(ss) && AllUtf8(utf8, ss) && forall s :: s in dict ==> s in ss
    ensures LengthsFit(dict) && AllUtf8(utf8, dict)
  {
    forall i | 0 <= i < |dict| ensures |dict[i]| < 0x1_0000_0000 && utf8(dict[i]) {
      assert dict[i] in dict;
      var j :| 0 <= j < |ss| && ss[j] == dict[i];
    }
  }

  /** Decoding undoes encoding, within the u32 limits of the format. */
  lemma DictionaryRoundTrip(utf8: Str -> bool, ss: seq<Str>)
    requires LengthsFit(ss) && AllUtf8(utf8, ss) && |FirstSeen(ss)| < 0x1_0000_0000
    ensures ParsedDictionary(utf8, EncodedDictionary(ss)) == Ok(ss)
  {
    var dict := FirstSeen(ss);
    DictionaryFits(utf8, ss, dict);
    HeaderParses(utf8, dict, IndexBytes(dict, ss));
    IndicesParse(dict, ss);
  }

  lemma HeaderParses(utf8: Str -> bool, dict: seq<Str>, rest: seq<Byte>)
    requires LengthsFit(dict) && AllUtf8(utf8, dict) && |dict| < 0x1_0000_0000
    ensures ParsedDictionary(utf8, ToLe(|dict|, 4) + Encoded(dict) + rest) == ParsedIndices(dict, rest)
  {
    var bytes := ToLe(|dict|, 4) + Encoded(dict) + rest;
    assert bytes[..4] == ToLe(|dict|, 4) && bytes[4..] == Encoded(dict) + rest;
    Pow256Values();
    FromLeOfToLe(|dict|, 4);
    FieldsParse(utf8, dict, rest);
  }

  /** Build the dictionary in insertion order. */
  /** The index map sends exactly the dictionary's strings to their places. */
  ghost predicate Indexes(indexMap: map<Str, nat>, dict: seq<Str>) {
    && (forall s :: s in indexMap <==> s in dict)
    && (forall s :: s in indexMap ==> indexMap[s] < |dict| && dict[indexMap[s]] == s)
  }

  lemma IndexesMore(indexMap: map<Str, nat>, dict: seq<Str>, s: Str)
    requires Indexes(indexMap, dict) && s !in indexMap
    ensures Indexes(indexMap[s := |dict|], dict + [s])
  {
  }

  lemma IndexesPlaces(indexMap: map<Str, nat>, dict: seq<Str>)
    requires Indexes(indexMap, dict) && Distinct(dict)
    ensures indexMap.Keys == set s | s in dict
    ensures forall s :: s in indexMap ==> s in dict && indexMap[s] == IndexIn(dict, s)
  {
    forall s | s in indexMap ensures s in dict && indexMap[s] == IndexIn(dict, s) {
      IndexIsUnique(dict, indexMap[s]);
    }
  }

  lemma SeenSoFar(src: seq<Str>, i: nat)
    requires i < |src|
    ensures var before := FirstSeen(src[..i]); FirstSeen(src[..i + 1]) == if src[i] in before then before else before + [src[i]]
  {
    FirstSeenStep(src[..i], src[i]);
    assert src[..i + 1] == src[..i] + [src[i]];
  }

  method BuildDictionary(src: seq<Str>) returns (indexMap: map<Str, nat>, dict: seq<Str>)
    ensures dict == FirstSeen(src) && indexMap.Keys == set s | s in dict
    ensures forall s :: s in indexMap ==> s in dict && indexMap[s] == IndexIn(dict, s)
  {
    indexMap, dict := map[], [];
    for i := 0 to |src|
      invariant dict == FirstSeen(src[..i]) && Indexes(indexMap, dict)
    {
      assert src[i] in indexMap <==> src[i] in dict;
      hide *;
      SeenSoFar(src, i);
      if src[i] !in indexMap {
        IndexesMore(indexMap, dict, src[i]);
        var idx := |dict|;
        indexMap := indexMap[src[i] := idx];
        dict := dict + [src[i]];
      }
    }
    hide *;
    Whole(src);
    IndexesPlaces(indexMap, dict);
  }

  method EncodeStrings(src: seq<Str>, out0: seq<Byte>) returns (out: seq<Byte>)
    ensures out == out0 + EncodedDictionary(src)
  {
    var indexMap, dict := BuildDictionary(src);
    out := out0 + ToLe(|dict|, 4);
    out := Encode(dict, out);
    out := AppendIndices(src, indexMap, dict, out);
    Regroup(out0, ToLe(|dict|, 4), Encoded(dict), IndexBytes(dict, src));
  }

  lemma Regroup(a: seq<Byte>, b: seq<Byte>, c: seq<Byte>, d: seq<Byte>)
    ensures ((a + b) + c) + d == a + (b + c + d)
  {
  }

  method AppendIndices(src: seq<Str>, indexMap: map<Str, nat>, ghost dict: seq<Str>, out0: seq<Byte>) returns (out: seq<Byte>)
    requires forall s :: s in src ==> s in dict && s in indexMap && indexMap[s] == IndexIn(dict, s)
    ensures out == out0 + IndexBytes(dict, src)
  {
    out := out0;
    for i := 0 to |src|
      invariant out == out0 + IndexBytes(dict, src[..i])
    {
      assert src[..i + 1][..i] == src[..i];
      out := out + ToLe(indexMap[src[i]], 4);
    }
    assert src[..|src|] == src;
  }

  method DecodeStrings(utf8: Str -> bool, src: seq<Byte>, out0: seq<Str>) returns (r: Result<seq<Str>, EncodingError>)
    ensures r == match ParsedDictionary(utf8, src)
                 case Err(e) => Err(e)
                 case Ok(ss) => Ok(out0 + ss)
  {
    if |src| < 4 {
      return Err(Truncated);
    }
    var dictLen, rest, dict := FromLe(src[..4]), src[4..], [];
    assert forall ss: seq<Str> :: [] + ss == ss;
    for k := 0 to dictLen
      invariant match ParsedFields(utf8, rest, dictLen - k)
                case Err(e) => ParsedFields(utf8, src[4..], dictLen) == Err(e)
                case Ok((ss, after)) => ParsedFields(utf8, src[4..], dictLen) == Ok((dict + ss, after))
    {
      var field := ParsedField(utf8, rest);
      if field.Err? {
        return Err(field.error);
      }
      assert forall ss: seq<Str> :: dict + ([field.value.0] + ss) == (dict + [field.value.0]) + ss;
      dict, rest := dict + [field.value.0], field.value.1;
    }
    assert dict + [] == dict;
    ghost var indices := rest;
    var out: seq<Str> := [];
    while rest != []
      invariant match ParsedIndices(dict, rest)
                case Err(e) => ParsedIndices(dict, indices) == Err(e)
                case Ok(ss) => ParsedIndices(dict, indices) == Ok(out + ss)
      decreases |rest|
    {
      if |rest| < 4 {
        return Err(Truncated);
      }
      var idx := FromLe(rest[..4]);
      if idx >= |dict| {
        return Err(Corrupt);
      }
      assert forall ss: seq<Str> :: out + ([dict[idx]] + ss) == (out + [dict[idx]]) + ss;
      out, rest := out + [dict[idx]], rest[4..];
    }
    assert out + [] == out;
    return Ok(out0 + out);
  }
}
