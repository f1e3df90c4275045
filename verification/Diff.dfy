/** Line diffs, by the contract under which `mdiff.allblocks` is used: its changed blocks. */
module Diff {
  /** Lines `a1` to `a2` of the old text became lines `b1` to `b2` of the new one. */
  datatype Chunk = Chunk(a1: nat, a2: nat, b1: nat, b2: nat)

  /**
   The chunks are ordered, at least one common line apart, and the texts agree around them.
   Read from the back: behind the last chunk the texts agree, and the other chunks are a
   diff of what lies before it.
   */
  ghost predicate IsDiff<T>(chunks: seq<Chunk>, a: seq<T>, b: seq<T>)
    decreases |chunks|
  {
    if chunks == [] then a == b
    else
      var c, front := chunks[|chunks| - 1], chunks[..|chunks| - 1];
      && c.a1 <= c.a2 <= |a| && c.b1 <= c.b2 <= |b|
      && a[c.a2..] == b[c.b2..]
      && (front != [] ==> front[|front| - 1].a2 < c.a1)
      && IsDiff(front, a[..c.a1], b[..c.b1])
  }

  ghost predicate Changed(chunks: seq<Chunk>, n: nat) {
    exists c :: c in chunks && c.b1 <= n < c.b2
  }

  /** A line outside all chunks was taken over from the old text. */
  lemma {:induction false} UnchangedLineIsOld<T>(chunks: seq<Chunk>, a: seq<T>, b: seq<T>, n: nat)
    requires IsDiff(chunks, a, b) && n < |b| && !Changed(chunks, n)
    ensures exists k :: 0 <= k < |a| && a[k] == b[n]
    decreases |chunks|
  {
    if chunks == [] {
      assert a[n] == b[n];
    } else {
      var c, front := chunks[|chunks| - 1], chunks[..|chunks| - 1];
      assert c in chunks;
      if n < c.b1 {
        UnchangedLineIsOld(front, a[..c.a1], b[..c.b1], n);
      } else {
        assert a[c.a2..][n - c.b2] == b[c.b2..][n - c.b2];
      }
    }
  }

  lemma {:induction false} ChunksInside<T>(chunks: seq<Chunk>, a: seq<T>, b: seq<T>)
    requires IsDiff(chunks, a, b)
    ensures forall c :: c in chunks ==> c.a1 <= c.a2 <= |a| && c.b1 <= c.b2 <= |b|
    decreases |chunks|
  {
    if chunks != [] {
      var c, front := chunks[|chunks| - 1], chunks[..|chunks| - 1];
      ChunksInside(front, a[..c.a1], b[..c.b1]);
      assert chunks == front + [c];
    }
  }
}
