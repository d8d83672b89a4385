/** Bytes and little-endian words. */
module Bytes {
  import opened Arithmetic
  import opened Sequences

  type Byte = b: int | 0 <= b < 0x100

  function Pow256(width: nat): (p: nat)
    ensures p >= 1
  {
    if width == 0 then 1 else 0x100 * Pow256(width - 1)
  }

  /** `to_le_bytes` of the low `width` bytes of `n`, as after a truncating cast */
  function ToLe(n: nat, width: nat): (bytes: seq<Byte>)
    ensures |bytes| == width
  {
    if width == 0 then [] else [n % 0x100] + ToLe(n / 0x100, width - 1)
  }

  /** `from_le_bytes` */
  function FromLe(bytes: seq<Byte>): nat {
    if bytes == [] then 0 else bytes[0] + 0x100 * FromLe(bytes[1..])
  }

  lemma {:induction false} FromLeIsBelow(bytes: seq<Byte>)
    ensures FromLe(bytes) < Pow256(|bytes|)
  {
    if bytes != [] {
      FromLeIsBelow(bytes[1..]);
    }
  }

  lemma {:induction false} FromLeOfToLe(n: nat, width: nat)
    requires n < Pow256(width)
    ensures FromLe(ToLe(n, width)) == n
  {
    if width > 0 {
      FromLeOfToLe(n / 0x100, width - 1);
      assert ToLe(n, width)[1..] == ToLe(n / 0x100, width - 1);
    }
  }

  lemma {:induction false} ToLeOfFromLe(bytes: seq<Byte>)
    ensures ToLe(FromLe(bytes), |bytes|) == bytes
  {
    if bytes != [] {
      ToLeOfFromLe(bytes[1..]);
      assert FromLe(bytes) % 0x100 == bytes[0] && FromLe(bytes) / 0x100 == FromLe(bytes[1..]);
    }
  }

  /** Little-endian: byte i is the i-th digit to base 256. */
  lemma {:induction false} ToLeDigit(n: nat, width: nat, i: nat)
    requires i < width
    ensures ToLe(n, width)[i] == n / Pow256(i) % 0x100
  {
    if i > 0 {
      ToLeDigit(n / 0x100, width - 1, i - 1);
      DivideTwice(n, 0x100, Pow256(i - 1));
    }
  }

  lemma Pow256Values()
    ensures Pow256(1) == 0x100 && Pow256(2) == 0x1_0000 && Pow256(4) == 0x1_0000_0000
    ensures Pow256(8) == 0x1_0000_0000_0000_0000
  {
    assert Pow256(3) == 0x100_0000;
    assert Pow256(6) == 0x1_0000_0000_0000;
  }

  // ---- Fixed-size chunks ----

  /** `chunks_exact(stride)`: what does not fill a chunk is left out. */
  function Chunks(src: seq<Byte>, stride: nat): (chunks: seq<seq<Byte>>)
    requires stride > 0
    ensures AllOfSize(chunks, stride)
  {
    if |src| < stride then [] else [src[..stride]] + Chunks(src[stride..], stride)
  }

  ghost predicate AllOfSize(chunks: seq<seq<Byte>>, size: nat) {
    forall i :: 0 <= i < |chunks| ==> |chunks[i]| == size
  }

  lemma {:induction false} JoinOfChunks(src: seq<Byte>, stride: nat)
    requires stride > 0 && |src| % stride == 0
    ensures Concat(Chunks(src, stride)) == src
  {
    MultipleMinusOne(|src|, stride);
    if |src| >= stride {
      JoinOfChunks(src[stride..], stride);
      ConcatHead(Chunks(src, stride));
      assert Chunks(src, stride)[1..] == Chunks(src[stride..], stride);
    }
  }

  lemma {:induction false} ChunksOfJoin(chunks: seq<seq<Byte>>, stride: nat)
    requires stride > 0 && AllOfSize(chunks, stride)
    ensures Chunks(Concat(chunks), stride) == chunks
    ensures |Concat(chunks)| == |chunks| * stride
  {
    if chunks != [] {
      ConcatHead(chunks);
      ChunksOfJoin(chunks[1..], stride);
      assert Concat(chunks)[..stride] == chunks[0] && Concat(chunks)[stride..] == Concat(chunks[1..]);
      assert |chunks| * stride == stride + (|chunks| - 1) * stride;
    }
  }
}
