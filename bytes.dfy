/** Bytes, input-report chunks and the two sequence operations the driver relies on:
    concatenation in arrival order and Array.prototype.reverse. */
module Bytes {

  newtype byte = x: int | 0 <= x < 256

  /** The raw content of one input report, as delivered by the transport. */
  type Chunk = seq<byte>

  /** All bytes of `chunks`, in arrival order. */
  function Concat(chunks: seq<Chunk>): seq<byte>
  {
    if chunks == [] then [] else Concat(chunks[..|chunks| - 1]) + chunks[|chunks| - 1]
  }

  /** The bytes of the first n chunks, in arrival order. */
  function PrefixBytes(chunks: seq<Chunk>, n: nat): seq<byte>
    requires n <= |chunks|
  {
    Concat(chunks[..n])
  }

  lemma PrefixBytesZero(chunks: seq<Chunk>)
    ensures PrefixBytes(chunks, 0) == []
  {
    assert chunks[..0] == [];
  }

  lemma PrefixBytesSnoc(chunks: seq<Chunk>, n: nat)
    requires n < |chunks|
    ensures PrefixBytes(chunks, n + 1) == PrefixBytes(chunks, n) + chunks[n]
  {
    assert chunks[..n + 1][..n] == chunks[..n];
  }

  lemma PrefixBytesAll(chunks: seq<Chunk>)
    ensures PrefixBytes(chunks, |chunks|) == Concat(chunks)
  {
    assert chunks[..|chunks|] == chunks;
  }

  /** Splitting a chunk sequence splits its concatenation at the same place. */
  lemma {:induction false} ConcatSplit(chunks: seq<Chunk>, n: nat)
    requires n <= |chunks|
    ensures Concat(chunks) == PrefixBytes(chunks, n) + Concat(chunks[n..])
    decreases |chunks|
  {
    if n == |chunks| {
      assert chunks[..n] == chunks;
      assert chunks[n..] == [];
    } else {
      var last := |chunks| - 1;
      ConcatSplit(chunks[..last], n);
      assert chunks[..last][..n] == chunks[..n];
      assert chunks[..last][n..] == chunks[n..][..|chunks[n..]| - 1];
      assert chunks[n..][|chunks[n..]| - 1] == chunks[last];
    }
  }

  /** The first n + m chunks bring the bytes of the first n, then those of the next m. */
  lemma PrefixBytesJoin(chunks: seq<Chunk>, n: nat, m: nat)
    requires n + m <= |chunks|
    ensures PrefixBytes(chunks, n + m) == PrefixBytes(chunks, n) + PrefixBytes(chunks[n..], m)
  {
    ConcatSplit(chunks[..n + m], n);
    assert chunks[..n + m][..n] == chunks[..n];
    assert chunks[..n + m][n..] == chunks[n..][..m];
  }

  /** The bytes of a prefix of the chunks are a prefix of all the bytes. */
  lemma PrefixBytesPrefix(chunks: seq<Chunk>, n: nat)
    requires n <= |chunks|
    ensures PrefixBytes(chunks, n) <= Concat(chunks)
    ensures |PrefixBytes(chunks, n)| <= |Concat(chunks)|
  {
    ConcatSplit(chunks, n);
  }

  /** Chunks that come later do not change the bytes of the first n. */
  lemma PrefixBytesExtend(chunks: seq<Chunk>, more: seq<Chunk>, n: nat)
    requires n <= |chunks|
    ensures PrefixBytes(chunks + more, n) == PrefixBytes(chunks, n)
  {
    assert (chunks + more)[..n] == chunks[..n];
  }

  /** Array.prototype.reverse, as a value. */
  function Reverse(s: seq<byte>): (r: seq<byte>)
    ensures |r| == |s|
    ensures forall i :: 0 <= i < |s| ==> r[i] == s[|s| - 1 - i]
  {
    if s == [] then [] else Reverse(s[1..]) + [s[0]]
  }
}
