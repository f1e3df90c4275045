/**
 Which lines a chunk of the diff amends, and in which revisions. A chunk is taken as a whole if
 it belongs to one revision only; else line by line, if lines can be paired or are all deleted;
 else it is left alone, like everything that belongs to the immutable first revision.
 */
module AbsorbChunks {
  import opened Lists
  import opened Diff
  import opened Weave
  import opened Linelog
  import opened Absorb
  import opened AbsorbFixups
  import opened AbsorbMerging

  ghost predicate Inside(w: Lines, c: Chunk) {
    c.a1 <= c.a2 <= |Live(w)| && c.b1 <= c.b2
  }

  /**
   The revisions a chunk concerns: those of its lines; for an insertion those of the lines
   right before and after it, if these are not immutable.
   */
  ghost function Touched(w: Lines, c: Chunk): set<nat>
    requires Inside(w, c)
  {
    if c.a1 < c.a2 then set i: nat | c.a1 <= i < c.a2 :: Live(w)[i].rev
    else set i: nat | i < |Live(w)| && c.a1 - 1 <= i <= c.a1 && Live(w)[i].rev != 1 :: Live(w)[i].rev
  }

  ghost predicate OwnedBy(w: Lines, c: Chunk, rev: nat)
    requires Inside(w, c)
  {
    Touched(w, c) == {rev} && IsContinuous(w, c.a1, c.a2 - 1, true)
  }

  ghost predicate Whole(w: Lines, c: Chunk)
    requires Inside(w, c)
  {
    exists rev: nat :: OwnedBy(w, c, rev)
  }

  predicate ByLine(c: Chunk) {
    c.a2 - c.a1 == c.b2 - c.b1 || c.b1 == c.b2
  }

  function LineFixup(live: seq<Id>, c: Chunk, i: nat): (fs: seq<Fixup>)
    requires c.a1 <= i < |live|
    ensures Formed(fs) && |fs| <= 1
  {
    FixupOfLine(live[i].rev, c, i)
  }

  /** A line that is not immutable is replaced by its partner, or by nothing if the chunk is deleted. */
  function FixupOfLine(rev: nat, c: Chunk, i: nat): (fs: seq<Fixup>)
    requires c.a1 <= i
    ensures Formed(fs) && |fs| <= 1
  {
    var nb := if c.b1 == c.b2 then 0 else c.b1 + i - c.a1;
    if rev > 1 then [Fixup(rev + 1, i, i + 1, nb, if c.b1 == c.b2 then 0 else nb + 1)] else []
  }

  ghost function LineFixups(live: seq<Id>, c: Chunk, k: nat): (fs: seq<Fixup>)
    requires c.a1 <= k <= |live|
    ensures Formed(fs)
  {
    if k == c.a1 then [] else LineFixups(live, c, k - 1) + LineFixup(live, c, k - 1)
  }

  ghost function FixupsOf(w: Lines, c: Chunk): seq<Fixup>
    requires Inside(w, c)
  {
    if Whole(w, c) then
      var rev: nat :| OwnedBy(w, c, rev);
      if rev > 1 then [Fixup(rev + 1, c.a1, c.a2, c.b1, c.b2)] else []
    else if ByLine(c) then LineFixups(Live(w), c, c.a2) else []
  }

  /** The annotated lines with a dummy at the end, which makes insertion there like any other. */
  function WithDummy(ids: seq<Id>): seq<Id> {
    if ids == [] then [] else ids + [Id(ids[|ids| - 1].rev, ids[|ids| - 1].num + 1)]
  }

  method InvolvedRevs(ghost w: Lines, c: Chunk, annotated: seq<Id>) returns (revs: set<nat>)
    requires Inside(w, c) && annotated == WithDummy(Live(w))
    ensures revs == Touched(w, c)
  {
    var involved := annotated[c.a1..c.a2];
    if involved == [] && annotated != [] {
      var before := if c.a1 == 0 then 0 else c.a1 - 1;
      var nearby := {c.a2, before};
      revs := set i | i in nearby && annotated[i].rev != 1 :: annotated[i].rev;
      Nearby(w, c, annotated, before, revs);
    } else {
      revs := set l | l in involved :: l.rev;
      forall rev: nat
        ensures rev in revs <==> rev in Touched(w, c)
      {
        assert forall i :: c.a1 <= i < c.a2 ==> involved[i - c.a1] == Live(w)[i];
      }
    }
  }

  lemma Nearby(w: Lines, c: Chunk, annotated: seq<Id>, before: nat, revs: set<nat>)
    requires Inside(w, c) && annotated == WithDummy(Live(w)) && c.a1 == c.a2 && Live(w) != []
    requires before == if c.a1 == 0 then 0 else c.a1 - 1
    requires revs == set i | i in {c.a2, before} && annotated[i].rev != 1 :: annotated[i].rev
    ensures revs == Touched(w, c)
  {
    var n := |Live(w)|;
    assert annotated[n].rev == Live(w)[n - 1].rev;
    forall rev: nat
      ensures rev in revs <==> rev in Touched(w, c)
    {
      if rev in revs {
        var i :| i in {c.a2, before} && annotated[i].rev != 1 && rev == annotated[i].rev;
        var k := if i == n then n - 1 else i;
        assert Live(w)[k].rev == rev;
      }
      if rev in Touched(w, c) {
        var i: nat :| i < n && c.a1 - 1 <= i <= c.a1 && Live(w)[i].rev != 1 && Live(w)[i].rev == rev;
        assert i in {c.a2, before} && annotated[i].rev == rev;
      }
    }
  }

  /** `_analysediffchunk` */
  method AnalyseDiffChunk(l: LineLog, c: Chunk, annotated: seq<Id>) returns (fixups: seq<Fixup>)
    requires IsAnnotated(l) && Inside(l.Contents(), c) && annotated == WithDummy(Live(l.Contents()))
    ensures fixups == Merged(l.Contents(), FixupsOf(l.Contents(), c))
  {
    ghost var w := l.Contents();
    var revs := InvolvedRevs(w, c, annotated);
    var continuous := false;
    if |revs| == 1 {
      continuous := CheckContinuous(l, c.a1, c.a2 - 1, true);
    }
    var newfixups: seq<Fixup> := [];
    if continuous {
      var rev :| rev in revs;
      OnlyOne(revs, rev);
      assert OwnedBy(w, c, rev);
      if rev > 1 {
        newfixups := [Fixup(rev + 1, c.a1, c.a2, c.b1, c.b2)];
      }
    } else {
      assert !Whole(w, c);
      if ByLine(c) {
        newfixups := FixLines(c, annotated, Live(w));
        LineFixupsInside(Live(w), c, c.a2);
      }
    }
    fixups := OptimizeFixups(l, newfixups);
  }

  lemma {:induction false} LineFixupsInside(live: seq<Id>, c: Chunk, k: nat)
    requires c.a1 <= k <= |live|
    ensures forall i :: 0 <= i < |LineFixups(live, c, k)| ==> LineFixups(live, c, k)[i].a1 < |live|
  {
    if c.a1 < k {
      LineFixupsInside(live, c, k - 1);
    }
  }

  method FixLines(c: Chunk, annotated: seq<Id>, ghost live: seq<Id>) returns (newfixups: seq<Fixup>)
    requires c.a1 <= c.a2 <= |live| <= |annotated| && annotated[..|live|] == live
    ensures newfixups == LineFixups(live, c, c.a2)
  {
    newfixups := [];
    for i := c.a1 to c.a2
      invariant newfixups == LineFixups(live, c, i)
    {
      assert annotated[i] == annotated[..|live|][i];
      newfixups := FixLine(annotated[i].rev, c, i, newfixups);
    }
  }

  method FixLine(rev: nat, c: Chunk, i: nat, fixups: seq<Fixup>) returns (newfixups: seq<Fixup>)
    requires c.a1 <= i
    ensures newfixups == fixups + FixupOfLine(rev, c, i)
  {
    newfixups := fixups;
    if rev > 1 {
      var nb1, nb2 := 0, 0;
      if c.b1 != c.b2 {
        nb1 := c.b1 + i - c.a1;
        nb2 := nb1 + 1;
      }
      newfixups := newfixups + [Fixup(rev + 1, i, i + 1, nb1, nb2)];
    }
  }

  lemma OnlyOne<T>(s: set<T>, x: T)
    requires |s| == 1 && x in s
    ensures s == {x}
  {
    assert |s - {x}| == 0;
  }

  // ---------------------------------------------------------------------------------------
  // The fixups of a chunk are sound

  lemma {:induction false} LiveIsOriginal(w: Lines)
    requires Originals(w)
    ensures forall i :: 0 <= i < |Live(w)| ==> Live(w)[i].rev % 2 == 1
  {
    if w != [] {
      assert w[0] in w && forall l :: l in w[1..] ==> l in w;
      LiveIsOriginal(w[1..]);
      assert Live(w) == Ids(w[0], None) + Live(w[1..]);
    }
  }

  ghost predicate InChunk(c: Chunk, fs: seq<Fixup>) {
    forall i :: 0 <= i < |fs| ==> c.a1 <= fs[i].a1 && fs[i].a2 <= c.a2
  }

  lemma LineFixupOk(w: Lines, c: Chunk, i: nat)
    requires Inside(w, c) && Originals(w) && c.a1 <= i < c.a2
    ensures var f := LineFixup(Live(w), c, i); f != [] ==> FixupOk(w, f[0]) && f[0].a1 == i && f[0].a2 == i + 1
  {
    LiveIsOriginal(w);
  }

  /** Sound fixups of some of the lines `[a1, k)`, one for each. */
  ghost predicate SoundLines(w: Lines, fs: seq<Fixup>, a1: nat, k: nat) {
    AllOk(w, fs) && forall i :: 0 <= i < |fs| ==> a1 <= fs[i].a1 < fs[i].a2 <= k
  }

  lemma {:induction false} LineFixupsOk(w: Lines, c: Chunk, k: nat)
    requires Inside(w, c) && Originals(w) && c.a1 <= k <= c.a2
    ensures SoundLines(w, LineFixups(Live(w), c, k), c.a1, k)
    decreases k
  {
    if c.a1 < k {
      LineFixupsOk(w, c, k - 1);
      LineFixupOk(w, c, k - 1);
      OneMoreLineSound(w, LineFixups(Live(w), c, k - 1), LineFixup(Live(w), c, k - 1), c.a1, k);
    }
  }

  lemma OneMoreLineSound(w: Lines, fs: seq<Fixup>, f: seq<Fixup>, a1: nat, k: nat)
    requires a1 < k && SoundLines(w, fs, a1, k - 1) && |f| <= 1
    requires f != [] ==> FixupOk(w, f[0]) && f[0].a1 == k - 1 && f[0].a2 == k
    ensures SoundLines(w, fs + f, a1, k)
  {
    if f == [] {
      assert fs + f == fs;
    } else {
      assert f == [f[0]];
      AllOkSnoc(w, fs, f[0]);
    }
  }

  lemma WholeFixupOk(w: Lines, c: Chunk, rev: nat)
    requires Inside(w, c) && Originals(w) && OwnedBy(w, c, rev) && rev > 1
    ensures FixupOk(w, Fixup(rev + 1, c.a1, c.a2, c.b1, c.b2))
  {
    LiveIsOriginal(w);
    assert rev in Touched(w, c);
    forall i | c.a1 <= i < c.a2
      ensures Live(w)[i].rev == rev
    {
      assert Live(w)[i].rev in Touched(w, c);
    }
    if c.a1 == c.a2 && c.a1 < |Live(w)| && Live(w)[c.a1].rev != 1 {
      assert Live(w)[c.a1].rev in Touched(w, c);
    }
  }

  /** The fixups of a chunk lie within it and are sound. */
  lemma FixupsOfChunkOk(w: Lines, c: Chunk)
    requires Inside(w, c) && Originals(w)
    ensures AllOk(w, FixupsOf(w, c)) && InChunk(c, FixupsOf(w, c))
  {
    if Whole(w, c) {
      forall rev: nat | OwnedBy(w, c, rev) && rev > 1
        ensures FixupOk(w, Fixup(rev + 1, c.a1, c.a2, c.b1, c.b2))
      {
        WholeFixupOk(w, c, rev);
      }
    } else {
      LineFixupsOk(w, c, c.a2);
    }
  }

  // ---------------------------------------------------------------------------------------
  // The fixups of a diff

  ghost predicate ChunksFit(w: Lines, chunks: seq<Chunk>) {
    && (forall i :: 0 <= i < |chunks| ==> Inside(w, chunks[i]))
    && forall i, j :: 0 <= i && i + 1 == j < |chunks| ==> chunks[i].a2 < chunks[j].a1
  }

  lemma {:induction false} DiffFits<T>(w: Lines, chunks: seq<Chunk>, a: seq<T>, b: seq<T>)
    requires IsDiff(chunks, a, b) && |a| <= |Live(w)|
    ensures ChunksFit(w, chunks)
    decreases |chunks|
  {
    if chunks != [] {
      var c, front := chunks[|chunks| - 1], chunks[..|chunks| - 1];
      DiffFits(w, front, a[..c.a1], b[..c.b1]);
      assert forall i :: 0 <= i < |front| ==> chunks[i] == front[i];
    }
  }

  ghost function RawFixups(w: Lines, chunks: seq<Chunk>): seq<Fixup>
    requires ChunksFit(w, chunks)
  {
    if chunks == [] then []
    else
      assert forall i :: 0 <= i < |chunks| - 1 ==> chunks[..|chunks| - 1][i] == chunks[i];
      RawFixups(w, chunks[..|chunks| - 1]) + FixupsOf(w, chunks[|chunks| - 1])
  }

  /** The fixups of a diff, as far as possible merged. */
  ghost function DiffFixups(w: Lines, chunks: seq<Chunk>): seq<Fixup>
    requires ChunksFit(w, chunks)
  {
    Merged(w, RawFixups(w, chunks))
  }

  lemma {:induction false} AllOkConcat(w: Lines, fs: seq<Fixup>, gs: seq<Fixup>)
    requires AllOk(w, fs) && AllOk(w, gs)
    requires fs != [] ==> forall i :: 0 <= i < |gs| ==> fs[|fs| - 1].a2 < gs[i].a1
    ensures AllOk(w, fs + gs)
    decreases |gs|
  {
    if gs == [] {
      assert fs + gs == fs;
    } else {
      AllOkFront(w, gs);
      AllOkConcat(w, fs, gs[..|gs| - 1]);
      assert fs + gs == (fs + gs[..|gs| - 1]) + [gs[|gs| - 1]];
      AllOkFormed(w, fs);
      AllOkSnoc(w, fs + gs[..|gs| - 1], gs[|gs| - 1]);
    }
  }

  /** Over all chunks, the fixups are ordered, disjoint and sound. */
  lemma {:induction false} RawFixupsOk(w: Lines, chunks: seq<Chunk>)
    requires ChunksFit(w, chunks) && Originals(w)
    ensures AllOk(w, RawFixups(w, chunks))
    ensures forall i :: 0 <= i < |RawFixups(w, chunks)| ==>
            chunks != [] && RawFixups(w, chunks)[i].a2 <= chunks[|chunks| - 1].a2
  {
    if chunks != [] {
      var front, c := chunks[..|chunks| - 1], chunks[|chunks| - 1];
      assert forall i :: 0 <= i < |front| ==> front[i] == chunks[i];
      RawFixupsOk(w, front);
      FixupsOfChunkOk(w, c);
      assert Inside(w, c);
      assert front != [] ==> front[|front| - 1].a2 < c.a1;
      AllOkConcat(w, RawFixups(w, front), FixupsOf(w, c));
    }
  }

  lemma {:induction false} MergedConcat(w: Lines, fs: seq<Fixup>, gs: seq<Fixup>)
    requires var m := Merged(w, fs); m != [] && gs != [] ==> m[|m| - 1].a2 != gs[0].a1
    ensures Merged(w, fs + gs) == Merged(w, fs) + Merged(w, gs)
    decreases |gs|
  {
    if gs == [] {
      assert fs + gs == fs;
    } else {
      var front, g := gs[..|gs| - 1], gs[|gs| - 1];
      MergedConcat(w, fs, front);
      assert (fs + gs)[..|fs + gs| - 1] == fs + front && (fs + gs)[|fs + gs| - 1] == g;
      assert front == [] ==> Merged(w, front) == [] && g == gs[0];
      PushBehind(w, Merged(w, fs), Merged(w, front), g);
    }
  }

  lemma PushBehind(w: Lines, m: seq<Fixup>, n: seq<Fixup>, g: Fixup)
    requires m != [] && n == [] ==> m[|m| - 1].a2 != g.a1
    ensures Push(w, m + n, g) == m + Push(w, n, g)
  {
    if n != [] {
      assert (m + n)[..|m + n| - 1] == m + n[..|n| - 1];
    } else {
      assert m + n == m;
    }
  }

  /** No fixups of different chunks are ever merged. */
  lemma MergedChunkwise(w: Lines, front: seq<Chunk>, c: Chunk)
    requires ChunksFit(w, front + [c]) && ChunksFit(w, front) && Inside(w, c) && Originals(w)
    ensures Merged(w, RawFixups(w, front + [c])) == Merged(w, RawFixups(w, front)) + Merged(w, FixupsOf(w, c))
  {
    assert (front + [c])[..|front|] == front;
    RawFixupsOk(w, front);
    FixupsOfChunkOk(w, c);
    assert front != [] ==> (front + [c])[|front| - 1].a2 < (front + [c])[|front|].a1;
    MergedAllOk(w, RawFixups(w, front));
    MergedConcat(w, RawFixups(w, front), FixupsOf(w, c));
  }

  // ---------------------------------------------------------------------------------------
  // Which revision a fixup amends

  /** The line that is inserted next to is of this revision, which is not the immutable first one. */
  ghost predicate NextTo(live: seq<Id>, a: nat, rev: nat) {
    rev > 1 && ((0 < a <= |live| && live[a - 1].rev == rev) || (a < |live| && live[a].rev == rev))
  }

  /** A fixup is put right behind the revision that its lines, or the line it is inserted next to, come from. */
  ghost predicate BehindOwner(live: seq<Id>, f: Fixup) {
    f.rev > 0 && if f.a1 < f.a2 then forall i :: f.a1 <= i < f.a2 && i < |live| ==> live[i].rev == f.rev - 1
                 else NextTo(live, f.a1, f.rev - 1)
  }

  ghost predicate AllBehindOwners(live: seq<Id>, fs: seq<Fixup>) {
    forall i :: 0 <= i < |fs| ==> BehindOwner(live, fs[i])
  }

  ghost predicate NoInsertions(fs: seq<Fixup>) {
    forall i :: 0 <= i < |fs| ==> fs[i].a1 < fs[i].a2
  }

  lemma {:induction false} LineFixupsOwned(live: seq<Id>, c: Chunk, k: nat)
    requires c.a1 <= k <= |live|
    ensures AllBehindOwners(live, LineFixups(live, c, k)) && NoInsertions(LineFixups(live, c, k))
  {
    if c.a1 < k {
      LineFixupsOwned(live, c, k - 1);
    }
  }

  lemma WholeFixupOwned(w: Lines, c: Chunk, rev: nat)
    requires Inside(w, c) && Originals(w) && OwnedBy(w, c, rev) && rev > 1
    ensures BehindOwner(Live(w), Fixup(rev + 1, c.a1, c.a2, c.b1, c.b2))
  {
    assert rev in Touched(w, c);
    forall i | c.a1 <= i < c.a2
      ensures Live(w)[i].rev == rev
    {
      assert Live(w)[i].rev in Touched(w, c);
    }
  }

  lemma FixupsOfOwned(w: Lines, c: Chunk)
    requires Inside(w, c) && Originals(w)
    ensures AllBehindOwners(Live(w), FixupsOf(w, c))
    ensures NoInsertions(FixupsOf(w, c)) || |FixupsOf(w, c)| == 1
  {
    if Whole(w, c) {
      forall rev: nat | OwnedBy(w, c, rev) && rev > 1
        ensures BehindOwner(Live(w), Fixup(rev + 1, c.a1, c.a2, c.b1, c.b2))
      {
        WholeFixupOwned(w, c, rev);
      }
    } else if ByLine(c) {
      LineFixupsOwned(Live(w), c, c.a2);
    }
  }

  /** Joined fixups are of one revision, so they still are behind the owner of their lines. */
  lemma {:induction false} MergedOwned(w: Lines, fs: seq<Fixup>)
    requires AllBehindOwners(Live(w), fs) && NoInsertions(fs)
    ensures AllBehindOwners(Live(w), Merged(w, fs)) && NoInsertions(Merged(w, fs))
  {
    if fs != [] {
      var front, g := fs[..|fs| - 1], fs[|fs| - 1];
      MergedOwned(w, front);
      PushOwned(w, Merged(w, front), g);
    }
  }

  lemma PushOwned(w: Lines, m: seq<Fixup>, g: Fixup)
    requires AllBehindOwners(Live(w), m) && NoInsertions(m) && BehindOwner(Live(w), g) && g.a1 < g.a2
    ensures AllBehindOwners(Live(w), Push(w, m, g)) && NoInsertions(Push(w, m, g))
  {
    if m != [] && Joins(w, m[|m| - 1], g) {
      assert BehindOwner(Live(w), m[|m| - 1]);
    }
  }

  /** Every fixup of a diff amends the revision that its lines come from, or that it is inserted next to. */
  lemma {:induction false} DiffFixupsOwned(w: Lines, chunks: seq<Chunk>)
    requires ChunksFit(w, chunks) && Originals(w)
    ensures AllBehindOwners(Live(w), DiffFixups(w, chunks))
  {
    if chunks != [] {
      var front, c := chunks[..|chunks| - 1], chunks[|chunks| - 1];
      assert forall i :: 0 <= i < |front| ==> front[i] == chunks[i];
      assert chunks == front + [c] && Inside(w, c);
      DiffFixupsOwned(w, front);
      FixupsOfOwned(w, c);
      MergedChunkwise(w, front, c);
      ChunkMergedOwned(w, FixupsOf(w, c));
      OwnedConcat(Live(w), DiffFixups(w, front), Merged(w, FixupsOf(w, c)));
    }
  }

  lemma OwnedConcat(live: seq<Id>, fs: seq<Fixup>, gs: seq<Fixup>)
    requires AllBehindOwners(live, fs) && AllBehindOwners(live, gs)
    ensures AllBehindOwners(live, fs + gs)
  {
  }

  lemma {:induction false} MergedInChunk(w: Lines, c: Chunk, fs: seq<Fixup>)
    requires InChunk(c, fs)
    ensures InChunk(c, Merged(w, fs))
  {
    if fs != [] {
      var front, g := fs[..|fs| - 1], fs[|fs| - 1];
      MergedInChunk(w, c, front);
      PushInChunk(w, c, Merged(w, front), g);
    }
  }

  lemma PushInChunk(w: Lines, c: Chunk, m: seq<Fixup>, g: Fixup)
    requires InChunk(c, m) && c.a1 <= g.a1 && g.a2 <= c.a2
    ensures InChunk(c, Push(w, m, g))
  {
  }

  ghost predicate InSomeChunk(chunks: seq<Chunk>, f: Fixup) {
    exists j :: 0 <= j < |chunks| && chunks[j].a1 <= f.a1 && f.a2 <= chunks[j].a2
  }

  ghost predicate AllInChunks(chunks: seq<Chunk>, fs: seq<Fixup>) {
    forall i :: 0 <= i < |fs| ==> InSomeChunk(chunks, fs[i])
  }

  lemma OneMoreInChunks(front: seq<Chunk>, c: Chunk, fs: seq<Fixup>, gs: seq<Fixup>)
    requires AllInChunks(front, fs) && InChunk(c, gs)
    ensures AllInChunks(front + [c], fs + gs)
  {
    var chunks := front + [c];
    assert chunks[|front|] == c;
    forall i | 0 <= i < |fs + gs|
      ensures InSomeChunk(chunks, (fs + gs)[i])
    {
      if i < |fs| {
        var j :| 0 <= j < |front| && front[j].a1 <= fs[i].a1 && fs[i].a2 <= front[j].a2;
        assert chunks[j] == front[j];
      }
    }
  }

  /** Every fixup of a diff lies in one of its chunks. */
  lemma {:induction false} DiffFixupsInChunks(w: Lines, chunks: seq<Chunk>)
    requires ChunksFit(w, chunks) && Originals(w)
    ensures AllInChunks(chunks, DiffFixups(w, chunks))
  {
    if chunks != [] {
      var front, c := chunks[..|chunks| - 1], chunks[|chunks| - 1];
      assert forall j :: 0 <= j < |front| ==> front[j] == chunks[j];
      assert chunks == front + [c] && Inside(w, c);
      DiffFixupsInChunks(w, front);
      FixupsOfChunkOk(w, c);
      MergedChunkwise(w, front, c);
      MergedInChunk(w, c, FixupsOf(w, c));
      OneMoreInChunks(front, c, DiffFixups(w, front), Merged(w, FixupsOf(w, c)));
    }
  }

  lemma ChunkMergedOwned(w: Lines, fs: seq<Fixup>)
    requires AllBehindOwners(Live(w), fs) && (NoInsertions(fs) || |fs| == 1)
    ensures AllBehindOwners(Live(w), Merged(w, fs))
  {
    if NoInsertions(fs) {
      MergedOwned(w, fs);
    } else {
      assert fs[..0] == [] && Merged(w, fs) == fs;
    }
  }

  // ---------------------------------------------------------------------------------------
  // The fixups insert lines that the target has

  ghost predicate InTarget(fs: seq<Fixup>, n: nat) {
    forall i :: 0 <= i < |fs| ==> fs[i].b2 <= n
  }

  lemma {:induction false} LineFixupsInTarget(live: seq<Id>, c: Chunk, k: nat, n: nat)
    requires c.a1 <= k <= c.a2 && k <= |live| && c.b1 <= c.b2 <= n && ByLine(c)
    ensures InTarget(LineFixups(live, c, k), n)
  {
    if c.a1 < k {
      LineFixupsInTarget(live, c, k - 1, n);
    }
  }

  lemma {:induction false} RawFixupsInTarget(w: Lines, chunks: seq<Chunk>, n: nat)
    requires ChunksFit(w, chunks) && forall c :: c in chunks ==> c.b2 <= n
    ensures InTarget(RawFixups(w, chunks), n)
  {
    if chunks != [] {
      var front, c := chunks[..|chunks| - 1], chunks[|chunks| - 1];
      assert forall i :: 0 <= i < |front| ==> front[i] == chunks[i];
      RawFixupsInTarget(w, front, n);
      assert c in chunks && Inside(w, c);
      if !Whole(w, c) && ByLine(c) {
        LineFixupsInTarget(Live(w), c, c.a2, n);
      }
    }
  }

  lemma {:induction false} MergedInTarget(w: Lines, fs: seq<Fixup>, n: nat)
    requires InTarget(fs, n)
    ensures InTarget(Merged(w, fs), n)
  {
    if fs != [] {
      var front, g := fs[..|fs| - 1], fs[|fs| - 1];
      MergedInTarget(w, front, n);
      PushInTarget(w, Merged(w, front), g, n);
    }
  }

  lemma PushInTarget(w: Lines, m: seq<Fixup>, g: Fixup, n: nat)
    requires InTarget(m, n) && g.b2 <= n
    ensures InTarget(Push(w, m, g), n)
  {
  }
}
