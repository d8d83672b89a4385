/** Delta encoding of fixed-width values: the first value, then the wrapping difference
    of each value from the one before, all as little-endian words. */
module Delta {
  import opened Wrappers
  import opened Sequences
  import opened Arithmetic
  import opened Bytes
  import opened EncodingErrors

  predicate Supported(stride: nat) {
    stride == 1 || stride == 2 || stride == 4 || stride == 8
  }

  // ---- Words ----

  function Words(chunks: seq<seq<Byte>>): (ws: seq<nat>)
    ensures |ws| == |chunks| && forall i :: 0 <= i < |ws| ==> ws[i] == FromLe(chunks[i])
  {
    seq(|chunks|, i requires 0 <= i < |chunks| => FromLe(chunks[i]))
  }

  function WordChunks(ws: seq<nat>, stride: nat): (chunks: seq<seq<Byte>>)
    ensures |chunks| == |ws| && AllOfSize(chunks, stride)
    ensures forall i :: 0 <= i < |ws| ==> chunks[i] == ToLe(ws[i], stride)
  {
    seq(|ws|, i requires 0 <= i < |ws| => ToLe(ws[i], stride))
  }

  ghost predicate Below(ws: seq<nat>, m: nat) {
    forall i :: 0 <= i < |ws| ==> ws[i] < m
  }

  /** Wrapping subtraction and addition modulo `m` */
  function Sub(x: nat, y: nat, m: nat): (d: nat)
    requires x < m && y < m
    ensures d < m
  {
    if x >= y then x - y else x + m - y
  }

  function Add(x: nat, y: nat, m: nat): (s: nat)
    requires x < m && y < m
    ensures s < m
  {
    if x + y < m then x + y else x + y - m
  }

  function Differences(prev: nat, ws: seq<nat>, m: nat): (ds: seq<nat>)
    requires prev < m && Below(ws, m)
    ensures |ds| == |ws| && Below(ds, m)
    decreases |ws|
  {
    if ws == [] then [] else [Sub(ws[0], prev, m)] + Differences(ws[0], ws[1..], m)
  }

  function Sums(prev: nat, ds: seq<nat>, m: nat): (ws: seq<nat>)
    requires prev < m && Below(ds, m)
    ensures |ws| == |ds| && Below(ws, m)
    decreases |ds|
  {
    if ds == [] then [] else var w := Add(prev, ds[0], m); [w] + Sums(w, ds[1..], m)
  }

  lemma {:induction false} SumsOfDifferences(prev: nat, ws: seq<nat>, m: nat)
    requires prev < m && Below(ws, m)
    ensures Sums(prev, Differences(prev, ws, m), m) == ws
    decreases |ws|
  {
    if ws != [] {
      SumsOfDifferences(ws[0], ws[1..], m);
      assert Differences(prev, ws, m)[1..] == Differences(ws[0], ws[1..], m);
    }
  }

  lemma {:induction false} DifferencesOfSums(prev: nat, ds: seq<nat>, m: nat)
    requires prev < m && Below(ds, m)
    ensures Differences(prev, Sums(prev, ds, m), m) == ds
    decreases |ds|
  {
    if ds != [] {
      var w := Add(prev, ds[0], m);
      DifferencesOfSums(w, ds[1..], m);
      assert Sums(prev, ds, m)[1..] == Sums(w, ds[1..], m);
    }
  }

  /** A word of the encoding is what a word of the input adds to the one before it, modulo
      the size of a word. */
  lemma {:induction false} DifferencesSay(prev: nat, ws: seq<nat>, m: nat, k: nat)
    requires prev < m && Below(ws, m) && k < |ws|
    ensures var before := if k == 0 then prev else ws[k - 1];
            var d := Differences(prev, ws, m)[k];
            d < m && (d == ws[k] - before || d == ws[k] - before + m)
    decreases k
  {
    if k > 0 {
      DifferencesSay(ws[0], ws[1..], m, k - 1);
    }
  }

  /** A word of the decoding is the one before it and the input's word together. */
  lemma {:induction false} SumsSay(prev: nat, ds: seq<nat>, m: nat, k: nat)
    requires prev < m && Below(ds, m) && k < |ds|
    ensures var ws := Sums(prev, ds, m);
            var before := if k == 0 then prev else ws[k - 1];
            ws[k] < m && (ws[k] == before + ds[k] || ws[k] == before + ds[k] - m)
    decreases k
  {
    if k > 0 {
      var w := Add(prev, ds[0], m);
      SumsSay(w, ds[1..], m, k - 1);
      assert Sums(prev, ds, m)[1..] == Sums(w, ds[1..], m);
    }
  }

  // ---- Bytes ----

  lemma WordsAreBelow(src: seq<Byte>, stride: nat)
    requires stride > 0
    ensures Below(Words(Chunks(src, stride)), Pow256(stride))
  {
    var chunks := Chunks(src, stride);
    forall i | 0 <= i < |chunks| ensures FromLe(chunks[i]) < Pow256(stride) {
      FromLeIsBelow(chunks[i]);
    }
  }

  ghost function Encoded(src: seq<Byte>, stride: nat): seq<Byte>
    requires stride > 0
  {
    WordsAreBelow(src, stride);
    Concat(WordChunks(Differences(0, Words(Chunks(src, stride)), Pow256(stride)), stride))
  }

  ghost function Decoded(src: seq<Byte>, stride: nat): seq<Byte>
    requires stride > 0
  {
    WordsAreBelow(src, stride);
    Concat(WordChunks(Sums(0, Words(Chunks(src, stride)), Pow256(stride)), stride))
  }

  lemma WordsOfWordChunks(ws: seq<nat>, stride: nat)
    requires stride > 0 && Below(ws, Pow256(stride))
    ensures Words(Chunks(Concat(WordChunks(ws, stride)), stride)) == ws
    ensures |Concat(WordChunks(ws, stride))| == |ws| * stride
  {
    ChunksOfJoin(WordChunks(ws, stride), stride);
    forall i | 0 <= i < |ws| ensures FromLe(ToLe(ws[i], stride)) == ws[i] {
      FromLeOfToLe(ws[i], stride);
    }
  }

  lemma WordChunksOfWords(src: seq<Byte>, stride: nat)
    requires stride > 0 && |src| % stride == 0
    ensures Concat(WordChunks(Words(Chunks(src, stride)), stride)) == src
    ensures |src| == |Chunks(src, stride)| * stride
  {
    var chunks := Chunks(src, stride);
    forall i | 0 <= i < |chunks| ensures ToLe(FromLe(chunks[i]), stride) == chunks[i] {
      ToLeOfFromLe(chunks[i]);
    }
    assert WordChunks(Words(chunks), stride) == chunks;
    JoinOfChunks(src, stride);
    ChunksOfJoin(chunks, stride);
  }

  /** Encoding and decoding undo each other and keep the length, on every byte string
      that is a whole number of values. */
  lemma MutuallyInverse(src: seq<Byte>, stride: nat)
    requires stride > 0 && |src| % stride == 0
    ensures Decoded(Encoded(src, stride), stride) == src && Encoded(Decoded(src, stride), stride) == src
    ensures |Encoded(src, stride)| == |src| == |Decoded(src, stride)|
  {
    var ws, m := Words(Chunks(src, stride)), Pow256(stride);
    WordsAreBelow(src, stride);
    WordChunksOfWords(src, stride);
    WordsOfWordChunks(Differences(0, ws, m), stride);
    SumsOfDifferences(0, ws, m);
    WordsOfWordChunks(Sums(0, ws, m), stride);
    DifferencesOfSums(0, ws, m);
  }

  /** The k-th word of the encoding is the k-th word less the one before it, the first
      less 0, and the k-th word of the decoding the running sum, modulo 256^stride. */
  lemma WordsSay(src: seq<Byte>, stride: nat, k: nat)
    requires stride > 0 && k < |Chunks(src, stride)|
    ensures var m, ws := Pow256(stride), Words(Chunks(src, stride));
            var es, ds := Words(Chunks(Encoded(src, stride), stride)), Words(Chunks(Decoded(src, stride), stride));
            && |es| == |ds| == |ws|
            && (es[k] == ws[k] - BeforeIn(ws, k) || es[k] == ws[k] - BeforeIn(ws, k) + m)
            && (ds[k] == BeforeIn(ds, k) + ws[k] || ds[k] == BeforeIn(ds, k) + ws[k] - m)
            && es[k] < m && ds[k] < m
  {
    var ws, m := Words(Chunks(src, stride)), Pow256(stride);
    WordsAreBelow(src, stride);
    WordsOfWordChunks(Differences(0, ws, m), stride);
    WordsOfWordChunks(Sums(0, ws, m), stride);
    DifferencesSay(0, ws, m, k);
    SumsSay(0, ws, m, k);
  }

  function BeforeIn(ws: seq<nat>, k: nat): nat
    requires k < |ws|
  {
    if k == 0 then 0 else ws[k - 1]
  }

  lemma WordsHead(src: seq<Byte>, stride: nat)
    requires stride > 0 && |src| >= stride
    ensures Words(Chunks(src, stride)) == [FromLe(src[..stride])] + Words(Chunks(src[stride..], stride))
    ensures FromLe(src[..stride]) < Pow256(stride)
  {
    FromLeIsBelow(src[..stride]);
    hide FromLe;
    WordsOfMore(src[..stride], Chunks(src[stride..], stride));
  }

  lemma WordsOfMore(chunk: seq<Byte>, chunks: seq<seq<Byte>>)
    ensures Words([chunk] + chunks) == [FromLe(chunk)] + Words(chunks)
  {
  }

  lemma SeriesHead(prev: nat, w: nat, rest: seq<nat>, m: nat)
    requires prev < m && w < m && Below(rest, m)
    ensures Below([w] + rest, m)
    ensures Differences(prev, [w] + rest, m) == [Sub(w, prev, m)] + Differences(w, rest, m)
    ensures Sums(prev, [w] + rest, m) == [Add(prev, w, m)] + Sums(Add(prev, w, m), rest, m)
  {
    assert ([w] + rest)[1..] == rest;
  }

  /** One more chunk */
  lemma NextWord(rest: seq<Byte>, stride: nat, prev: nat)
    requires stride > 0 && |rest| >= stride && prev < Pow256(stride)
    ensures var m, word, later := Pow256(stride), FromLe(rest[..stride]), Words(Chunks(rest[stride..], stride));
            && word < m && Below(later, m) && Below(Words(Chunks(rest, stride)), m)
            && Differences(prev, Words(Chunks(rest, stride)), m) == [Sub(word, prev, m)] + Differences(word, later, m)
            && Sums(prev, Words(Chunks(rest, stride)), m) == [Add(prev, word, m)] + Sums(Add(prev, word, m), later, m)
  {
    WordsHead(rest, stride);
    WordsAreBelow(rest[stride..], stride);
    SeriesHead(prev, FromLe(rest[..stride]), Words(Chunks(rest[stride..], stride)), Pow256(stride));
  }

  /** The first chunk is copied: its difference from 0 is itself. */
  lemma FirstWord(src: seq<Byte>, stride: nat)
    requires stride > 0 && |src| >= stride
    ensures src[..stride] == Concat(WordChunks([FromLe(src[..stride])], stride))
  {
    ToLeOfFromLe(src[..stride]);
    ConcatOfOne(src[..stride]);
    assert WordChunks([FromLe(src[..stride])], stride) == [src[..stride]];
  }

  lemma WordAppends(out0: seq<Byte>, done: seq<nat>, w: nat, stride: nat)
    ensures (out0 + Concat(WordChunks(done, stride))) + ToLe(w, stride) == out0 + Concat(WordChunks(done + [w], stride))
  {
    var chunks := WordChunks(done + [w], stride);
    assert chunks[..|done|] == WordChunks(done, stride);
    assert Concat(chunks) == Concat(WordChunks(done, stride)) + ToLe(w, stride);
  }

  lemma NoWords(src: seq<Byte>, stride: nat, prev: nat)
    requires |src| < stride && prev < Pow256(stride)
    ensures var ws, m := Words(Chunks(src, stride)), Pow256(stride);
            Below(ws, m) && Differences(prev, ws, m) == [] && Sums(prev, ws, m) == []
    ensures Encoded([], stride) == [] == Decoded([], stride)
  {
  }

  /** The arms for strides 1, 2, 4 and 8 differ only in their word type; any other
      stride copies the input. */
  method Encode(src: seq<Byte>, stride: nat, out0: seq<Byte>) returns (out: seq<Byte>)
    requires stride > 0 && (src != [] && Supported(stride) ==> |src| >= stride)
    ensures out == out0 + if Supported(stride) then Encoded(src, stride) else src
  {
    hide Chunks, Words, Differences, WordChunks, Concat, FromLe, ToLe, Pow256;
    out := out0;
    if src == [] {
      NoWords([], stride, 0);
      return;
    }
    if !Supported(stride) {
      return out + src;
    }
    var m := Pow256(stride);
    NextWord(src, stride, 0);
    FirstWord(src, stride);
    out := out + src[..stride];
    var prev, rest := FromLe(src[..stride]), src[stride..];
    ghost var done, all := [prev], Differences(0, Words(Chunks(src, stride)), m);
    while |rest| >= stride
      invariant prev < m && Below(Words(Chunks(rest, stride)), m)
      invariant out == out0 + Concat(WordChunks(done, stride))
      invariant all == done + Differences(prev, Words(Chunks(rest, stride)), m)
      decreases |rest|
    {
      var curr := FromLe(rest[..stride]);
      NextWord(rest, stride, prev);
      var delta := Sub(curr, prev, m);
      WordAppends(out0, done, delta, stride);
      out := out + ToLe(delta, stride);
      done := done + [delta];
      prev, rest := curr, rest[stride..];
    }
    NoWords(rest, stride, prev);
    assert all == done;
  }

  method Decode(src: seq<Byte>, stride: nat, out0: seq<Byte>) returns (r: Result<seq<Byte>, EncodingError>)
    requires stride > 0
    ensures r == if src == [] then Ok(out0)
                 else if |src| % stride != 0 then Err(Truncated)
                 else if !Supported(stride) then Err(UnsupportedStride(stride))
                 else Ok(out0 + Decoded(src, stride))
  {
    hide Chunks, Words, Sums, WordChunks, Concat, FromLe, ToLe, Pow256;
    if src == [] {
      return Ok(out0);
    }
    if |src| % stride != 0 {
      return Err(Truncated);
    }
    if !Supported(stride) {
      return Err(UnsupportedStride(stride));
    }
    MultipleMinusOne(|src|, stride);
    var m := Pow256(stride);
    NextWord(src, stride, 0);
    FirstWord(src, stride);
    var out := out0 + src[..stride];
    var prev, rest := FromLe(src[..stride]), src[stride..];
    ghost var done, all := [prev], Sums(0, Words(Chunks(src, stride)), m);
    while |rest| >= stride
      invariant prev < m && Below(Words(Chunks(rest, stride)), m)
      invariant out == out0 + Concat(WordChunks(done, stride))
      invariant all == done + Sums(prev, Words(Chunks(rest, stride)), m)
      decreases |rest|
    {
      var delta := FromLe(rest[..stride]);
      NextWord(rest, stride, prev);
      var curr := Add(prev, delta, m);
      WordAppends(out0, done, curr, stride);
      out := out + ToLe(curr, stride);
      done := done + [curr];
      prev, rest := curr, rest[stride..];
    }
    NoWords(rest, stride, prev);
    assert all == done;
    return Ok(out);
  }
}
