/** The state absorb keeps for one file, from the revisions of a stack to their amended contents. */
module AbsorbState {
  import opened Lists
  import opened Diff
  import opened Weave
  import opened Linelog
  import opened Absorb
  import opened AbsorbFixups
  import opened AbsorbMerging
  import opened AbsorbChunks
  import opened AbsorbOutcome

  lemma {:induction false} ShownIsOriginal(w: Lines, at: Option<nat>)
    requires Originals(w)
    ensures OriginalIds(Shown(w, at))
  {
    if w != [] {
      assert w[0] in w && forall l :: l in w[1..] ==> l in w;
      ShownIsOriginal(w[1..], at);
      assert Shown(w, at) == Ids(w[0], at) + Shown(w[1..], at);
    }
  }

  /** Lines of the stack do not depend on the target. */
  lemma TargetIgnored(contents: seq<Text>, target: Text, ids: seq<Id>)
    requires OriginalIds(ids)
    ensures GetLines(contents, target, ids) == GetLines(contents, [], ids)
  {
  }

  lemma MergedFixupsOk(w: Lines, chunks: seq<Chunk>)
    requires ChunksFit(w, chunks) && Originals(w)
    ensures AllOk(w, DiffFixups(w, chunks))
  {
    RawFixupsOk(w, chunks);
    MergedAllOk(w, RawFixups(w, chunks));
  }

  function Adopted(newfixups: seq<Fixup>): nat {
    if newfixups == [] then 0 else 1
  }

  /** For how many chunks there are fixups. */
  ghost function AdoptedOf(w: Lines, chunks: seq<Chunk>): nat
    requires ChunksFit(w, chunks)
  {
    if chunks == [] then 0
    else
      assert forall i :: 0 <= i < |chunks| - 1 ==> chunks[..|chunks| - 1][i] == chunks[i];
      AdoptedOf(w, chunks[..|chunks| - 1]) + Adopted(FixupsOf(w, chunks[|chunks| - 1]))
  }

  /** The chunks of which something is amended. */
  ghost function AdoptedChunks(w: Lines, chunks: seq<Chunk>): set<nat>
    requires ChunksFit(w, chunks)
  {
    set k: nat | k < |chunks| && Adopts(w, chunks[k])
  }

  lemma {:induction false} AdoptedCount(w: Lines, chunks: seq<Chunk>)
    requires ChunksFit(w, chunks) && Originals(w)
    ensures AdoptedOf(w, chunks) == |AdoptedChunks(w, chunks)|
  {
    if chunks != [] {
      var front, c := chunks[..|chunks| - 1], chunks[|chunks| - 1];
      assert chunks == front + [c];
      ChunksFitFront(w, front, c);
      AdoptedCount(w, front);
      OneMoreAdopted(w, front, c);
      AdoptedStep(w, front, c);
      AdoptedChunkIff(w, c);
    }
  }

  lemma ChunksFitFront(w: Lines, front: seq<Chunk>, c: Chunk)
    requires ChunksFit(w, front + [c])
    ensures ChunksFit(w, front) && Inside(w, c)
  {
    assert (front + [c])[|front|] == c;
    assert forall i :: 0 <= i < |front| ==> (front + [c])[i] == front[i];
  }

  lemma OneMoreAdopted(w: Lines, front: seq<Chunk>, c: Chunk)
    requires ChunksFit(w, front + [c]) && ChunksFit(w, front) && Inside(w, c)
    ensures |AdoptedChunks(w, front + [c])| == |AdoptedChunks(w, front)| + if Adopts(w, c) then 1 else 0
  {
    var n := |front|;
    assert AdoptedChunks(w, front + [c]) == AdoptedChunks(w, front) + if Adopts(w, c) then {n} else {};
  }

  lemma AdoptedStep(w: Lines, front: seq<Chunk>, c: Chunk)
    requires ChunksFit(w, front + [c]) && ChunksFit(w, front) && Inside(w, c)
    ensures AdoptedOf(w, front + [c]) == AdoptedOf(w, front) + if FixupsOf(w, c) == [] then 0 else 1
  {
    assert (front + [c])[..|front|] == front;
  }

  /** The contents of all revisions with their fixups. */
  function Checkouts(contents: seq<Text>, target: Text, w: Lines): (r: seq<Text>)
    ensures |r| == |contents| && forall i :: 0 <= i < |r| ==> r[i] == Checkout(contents, target, w, 2 * i + 2)
  {
    seq(|contents|, i requires 0 <= i < |contents| => Checkout(contents, target, w, 2 * i + 2))
  }

  ghost predicate CanCheckout(contents: seq<Text>, target: Text, w: Lines) {
    forall i :: 0 <= i < |contents| ==> AllThere(contents, target, Annotate(w, 2 * i + 2))
  }

  /** Each fixup may be made as of its revision. */
  ghost predicate AllInOrder(live: seq<Id>, fs: seq<Fixup>) {
    Ordered(fs) && forall i :: 0 <= i < |fs| ==> FixupInOrder(live, fs[i])
  }

  ghost predicate FixupInOrder(live: seq<Id>, f: Fixup) {
    && f.a1 <= f.a2 <= |live| && f.b1 <= f.b2
    && (f.a1 < |live| ==> live[f.a1].rev <= f.rev) && (f.a1 < f.a2 ==> live[f.a2 - 1].rev <= f.rev)
  }

  lemma OkIsInOrder(w: Lines, fs: seq<Fixup>)
    requires AllOk(w, fs)
    ensures AllInOrder(Live(w), fs) && Applicable(w, fs)
  {
    forall i | 0 <= i < |fs|
      ensures FixupInOrder(Live(w), fs[i])
    {
      assert FixupOk(w, fs[i]);
    }
    AllOkIsApplicable(w, fs);
  }

  /** The last fixup leaves the lines the others concern where they are. */
  lemma FrontStaysInOrder(w: Lines, fs: seq<Fixup>, k: nat)
    requires k < |fs| && AllInOrder(Live(w), fs[..k + 1])
    ensures FixupInOrder(Live(w), fs[k])
    ensures AllInOrder(Live(ReplaceLines(w, fs[k].rev, fs[k].a1, fs[k].a2, fs[k].b1, fs[k].b2)), fs[..k])
  {
    var f, front := fs[k], fs[..k];
    assert fs[..k + 1][k] == f;
    ReplaceLinesLive(w, f.rev, f.a1, f.a2, f.b1, f.b2);
    forall i | 0 <= i < |front|
      ensures FixupInOrder(Live(ReplaceLines(w, f.rev, f.a1, f.a2, f.b1, f.b2)), front[i])
    {
      assert front[i] == fs[..k + 1][i] && FixupInOrder(Live(w), fs[..k + 1][i]);
    }
    assert forall i, j :: 0 <= i < j < |front| ==> front[i] == fs[..k + 1][i] && front[j] == fs[..k + 1][j];
  }

  class FileFixupState {
    const contentlines: seq<Text>
    const linelog: LineLog
    var adopted: nat
    var total: nat
    var targetlines: Text
    var fixups: seq<Fixup>
    var finalcontents: seq<Text>

    constructor (s: Stack)
      ensures contentlines == s.contents && fresh(linelog) && Ready(linelog)
      ensures HoldsStack(contentlines, linelog.Contents(), |contentlines|)
      ensures adopted == 0 && total == 0 && targetlines == [] && fixups == [] && finalcontents == []
    {
      var l := BuildLinelog(s);
      contentlines, linelog := s.contents, l;
      adopted, total, targetlines, fixups, finalcontents := 0, 0, [], [], [];
    }

    /** `diffwith`, given the diff of the newest content against the target */
    method DiffWith(blines: Text, chunks: seq<Chunk>)
      requires Ready(linelog) && Originals(linelog.Contents()) && ChunksFit(linelog.Contents(), chunks)
      requires fixups == [] && adopted == 0 && total == 0
      modifies this`targetlines, this`fixups, this`adopted, this`total, linelog`lastannotate
      ensures IsAnnotated(linelog) && targetlines == blines
      ensures fixups == DiffFixups(linelog.Contents(), chunks)
      ensures total == |chunks| && adopted == |AdoptedChunks(linelog.Contents(), chunks)|
    {
      AdoptedCount(linelog.Contents(), chunks);
      targetlines := blines;
      var ok, annotated := linelog.Annotate(linelog.maxrev);
      AnalyseChunks(chunks, WithDummy(annotated));
    }

    /** The loop of `diffwith` */
    method AnalyseChunks(chunks: seq<Chunk>, annotated: seq<Id>)
      requires IsAnnotated(linelog) && Originals(linelog.Contents()) && ChunksFit(linelog.Contents(), chunks)
      requires annotated == WithDummy(Live(linelog.Contents()))
      requires fixups == [] && adopted == 0 && total == 0
      modifies this`fixups, this`adopted, this`total
      ensures fixups == DiffFixups(linelog.Contents(), chunks)
      ensures total == |chunks| && adopted == AdoptedOf(linelog.Contents(), chunks)
    {
      assert chunks[..|chunks|] == chunks;
      ghost var w := linelog.Contents();
      for i := 0 to |chunks|
        invariant ChunksFit(w, chunks[..i]) && fixups == DiffFixups(w, chunks[..i])
        invariant total == i && adopted == AdoptedOf(w, chunks[..i])
      {
        OneMoreChunk(w, chunks, i);
        AnalyseChunk(chunks[i], annotated);
      }
    }

    method AnalyseChunk(chunk: Chunk, annotated: seq<Id>)
      requires IsAnnotated(linelog) && Inside(linelog.Contents(), chunk)
      requires annotated == WithDummy(Live(linelog.Contents()))
      modifies this`fixups, this`adopted, this`total
      ensures fixups == old(fixups) + Merged(linelog.Contents(), FixupsOf(linelog.Contents(), chunk))
      ensures total == old(total) + 1
      ensures adopted == old(adopted) + Adopted(Merged(linelog.Contents(), FixupsOf(linelog.Contents(), chunk)))
    {
      var newfixups := AnalyseDiffChunk(linelog, chunk, annotated);
      adopted, total := adopted + Adopted(newfixups), total + 1;
      fixups := fixups + newfixups;
    }

    /** The loop of `apply` */
    method ReplayFixups()
      requires IsAnnotated(linelog) && AllInOrder(Live(linelog.Contents()), fixups)
      modifies linelog
      ensures IsAnnotated(linelog)
      ensures Applicable(old(linelog.Contents()), fixups)
      ensures linelog.Contents() == ApplyAll(old(linelog.Contents()), fixups)
    {
      var k: nat := |fixups|;
      ghost var w := linelog.Contents();
      assert fixups[..k] == fixups;
      while k > 0
        invariant k <= |fixups| && IsAnnotated(linelog)
        invariant Replayed(w, linelog.Contents(), fixups, k)
      {
        k := k - 1;
        var f := fixups[k];
        ReplayOne(w, linelog.Contents(), fixups, k, linelog.maxrev);
        linelog.ReplaceLines(f.rev, f.a1, f.a2, f.b1, f.b2);
      }
    }

    /** None stands for a line that is not there. */
    method CheckoutLinelog() returns (checkouts: Option<seq<Text>>)
      requires linelog.Valid()
      modifies linelog`lastannotate
      ensures checkouts.Some? <==> CanCheckout(contentlines, targetlines, linelog.Contents())
      ensures checkouts.Some? ==> checkouts.value == Checkouts(contentlines, targetlines, linelog.Contents())
    {
      var contents := [];
      ghost var w := linelog.Contents();
      for i := 0 to |contentlines|
        invariant linelog.Valid() && linelog.Contents() == w && |contents| == i
        invariant forall k :: 0 <= k < i ==> AllThere(contentlines, targetlines, Annotate(w, 2 * k + 2))
        invariant forall k :: 0 <= k < i ==> contents[k] == Checkout(contentlines, targetlines, w, 2 * k + 2)
      {
        var ok, lines := linelog.Annotate((i + 1) * 2);
        assert lines == Annotate(w, 2 * i + 2);
        if !AllThere(contentlines, targetlines, lines) {
          return None;
        }
        contents := contents + [GetLines(contentlines, targetlines, lines)];
      }
      return Some(contents);
    }

    method Apply() returns (ok: bool)
      requires IsAnnotated(linelog) && AllInOrder(Live(linelog.Contents()), fixups)
      modifies this`finalcontents, linelog
      ensures Applicable(old(linelog.Contents()), fixups)
      ensures linelog.Valid() && linelog.Contents() == ApplyAll(old(linelog.Contents()), fixups)
      ensures ok <==> CanCheckout(contentlines, targetlines, linelog.Contents())
      ensures finalcontents ==
              if ok then Checkouts(contentlines, targetlines, linelog.Contents()) else old(finalcontents)
    {
      ReplayFixups();
      var checkouts := CheckoutLinelog();
      ok := checkouts.Some?;
      if ok {
        finalcontents := checkouts.value;
      }
    }
  }

  /** The loop of `apply`, with the first `k` fixups left to be made. */
  ghost predicate Replayed(w: Lines, now: Lines, fs: seq<Fixup>, k: nat) {
    && k <= |fs| && AllInOrder(Live(now), fs[..k]) && Applicable(now, fs[..k]) && Applicable(w, fs)
    && ApplyAll(now, fs[..k]) == ApplyAll(w, fs)
  }

  lemma ReplayOne(w: Lines, now: Lines, fs: seq<Fixup>, k: nat, maxrev: nat)
    requires k < |fs| && Replayed(w, now, fs, k + 1)
    ensures var f := fs[k];
            && f.b1 <= f.b2 && InOrder(Live(now), maxrev, f.rev, f.a1, f.a2)
            && Replayed(w, ReplaceLines(now, f.rev, f.a1, f.a2, f.b1, f.b2), fs, k)
  {
    FrontStaysInOrder(now, fs, k);
    FrontStaysApplicable(now, fs[..k + 1]);
    assert fs[..k + 1][..k] == fs[..k] && fs[..k + 1][k] == fs[k];
  }

  lemma OneMoreChunk(w: Lines, chunks: seq<Chunk>, i: nat)
    requires i < |chunks| && ChunksFit(w, chunks) && Originals(w)
    ensures ChunksFit(w, chunks[..i]) && ChunksFit(w, chunks[..i + 1]) && Inside(w, chunks[i])
    ensures DiffFixups(w, chunks[..i + 1]) == DiffFixups(w, chunks[..i]) + Merged(w, FixupsOf(w, chunks[i]))
    ensures AdoptedOf(w, chunks[..i + 1]) == AdoptedOf(w, chunks[..i]) + Adopted(Merged(w, FixupsOf(w, chunks[i])))
  {
    assert chunks[..i + 1] == chunks[..i] + [chunks[i]];
    MergedChunkwise(w, chunks[..i], chunks[i]);
    AdoptedSnoc(w, chunks[..i], chunks[i]);
  }

  lemma AdoptedSnoc(w: Lines, front: seq<Chunk>, c: Chunk)
    requires ChunksFit(w, front + [c]) && ChunksFit(w, front) && Inside(w, c)
    ensures AdoptedOf(w, front + [c]) == AdoptedOf(w, front) + Adopted(Merged(w, FixupsOf(w, c)))
  {
    assert (front + [c])[..|front|] == front;
    AdoptedAfterMerging(w, FixupsOf(w, c));
  }

  lemma AdoptedAfterMerging(w: Lines, fs: seq<Fixup>)
    ensures Adopted(Merged(w, fs)) == Adopted(fs)
  {
  }

  // ---------------------------------------------------------------------------------------
  // What comes out

  /** The contents of a stack, the linelog built from them, the target and the newest one's diff to it. */
  datatype Input = Input(contents: seq<Text>, w: Lines, target: Text, chunks: seq<Chunk>)

  type Change = c: Input |
      && c.contents != [] && HoldsStack(c.contents, c.w, |c.contents|)
      && IsDiff(c.chunks, c.contents[|c.contents| - 1], c.target)
    witness Input([[]], [], [], [])

  ghost function TopOfChange(c: Change): (t: Top)
    ensures t.contents == c.contents && t.b == c.target
    ensures TopOf(c.w, t) && AllHere(c.w, t, c.chunks, |t.a|) && IsDiff(c.chunks, t.a, t.b)
  {
    ShownIsOriginal(c.w, None);
    TargetIgnored(c.contents, c.target, Live(c.w));
    var a := c.contents[|c.contents| - 1];
    DiffFits(c.w, c.chunks, a, c.target);
    ChunksInside(c.chunks, a, c.target);
    assert forall i :: 0 <= i < |c.chunks| ==> c.chunks[i] in c.chunks;
    Top(c.contents, Live(c.w), a, c.target)
  }

  /** The fixups of a change. */
  ghost function FixupsFor(c: Change): (fs: seq<Fixup>)
    ensures ChunksFit(c.w, c.chunks) && fs == DiffFixups(c.w, c.chunks)
    ensures AllOk(c.w, fs) && Applicable(c.w, fs)
  {
    var t := TopOfChange(c);
    MergedFixupsOk(c.w, c.chunks);
    AllOkIsApplicable(c.w, DiffFixups(c.w, c.chunks));
    DiffFixups(c.w, c.chunks)
  }

  /** Revision `i` of the stack after all fixups have been applied. */
  ghost function FinalContent(c: Change, i: nat): Text {
    Checkout(c.contents, c.target, ApplyAll(c.w, FixupsFor(c)), 2 * i + 2)
  }

  ghost function FinalContents(c: Change): (r: seq<Text>)
    ensures |r| == |c.contents| && forall i :: 0 <= i < |r| ==> r[i] == FinalContent(c, i)
  {
    Checkouts(c.contents, c.target, ApplyAll(c.w, FixupsFor(c)))
  }

  lemma {:induction false} AppliedIsReadable(contents: seq<Text>, target: Text, w: Lines, fs: seq<Fixup>)
    requires Applicable(w, fs) && Readable(contents, target, w)
    requires InTarget(fs, |target|) && forall i :: 0 <= i < |fs| ==> fs[i].rev % 2 == 0
    ensures Readable(contents, target, ApplyAll(w, fs))
    decreases |fs|
  {
    if fs != [] {
      var f := fs[|fs| - 1];
      FrontStaysApplicable(w, fs);
      ReplaceLinesReadable(contents, target, w, f.rev, f.a1, f.a2, f.b1, f.b2);
      AppliedIsReadable(contents, target, ReplaceLines(w, f.rev, f.a1, f.a2, f.b1, f.b2), fs[..|fs| - 1]);
    }
  }

  lemma FixupsForInTarget(c: Change)
    ensures InTarget(FixupsFor(c), |c.target|)
  {
    ChunksInside(c.chunks, c.contents[|c.contents| - 1], c.target);
    ChangeFits(c);
    RawFixupsInTarget(c.w, c.chunks, |c.target|);
    MergedInTarget(c.w, RawFixups(c.w, c.chunks), |c.target|);
  }

  /** With the fixups of a change applied, every line of every revision can be read. */
  lemma EveryLineIsThere(c: Change, r: nat)
    ensures AllThere(c.contents, c.target, Annotate(ApplyAll(c.w, FixupsFor(c)), r))
  {
    var fs := FixupsFor(c);
    FixupsForInTarget(c);
    assert Readable(c.contents, c.target, c.w);
    forall i | 0 <= i < |fs|
      ensures fs[i].rev % 2 == 0
    {
      assert FixupOk(c.w, fs[i]);
    }
    AppliedIsReadable(c.contents, c.target, c.w, fs);
    ShownAreThere(c.contents, c.target, ApplyAll(c.w, fs), Some(r));
  }

  /** Each revision has the fixups it sees substituted in its lines, all at once. */
  lemma FixupsAreSubstituted(c: Change, i: nat)
    ensures var r, fs := 2 * i + 2, FixupsFor(c);
            && Formed(fs) && Within(SubstsAt(c.w, fs, r), |Annotate(c.w, r)|)
            && FinalContent(c, i)
            == GetLines(c.contents, c.target, Substitute(Annotate(c.w, r), SubstsAt(c.w, fs, r)))
  {
    FixupsSubstituteEverywhere(c.w, FixupsFor(c), 2 * i + 2);
  }

  ghost predicate OlderThan(fixups: seq<Fixup>, r: nat) {
    forall k :: 0 <= k < |fixups| ==> r < fixups[k].rev
  }

  /** A revision of the stack that is older than all fixups stays as it is. */
  lemma OlderContentsUnchanged(c: Change, i: nat)
    requires i < |c.contents| && OlderThan(FixupsFor(c), 2 * i + 2)
    ensures FinalContent(c, i) == c.contents[i]
  {
    OlderRevisionsUnchanged(c.w, FixupsFor(c), 2 * i + 2);
    ContentIsThere(c, i);
  }

  lemma ContentIsThere(c: Change, i: nat)
    requires i < |c.contents|
    ensures GetLines(c.contents, c.target, Annotate(c.w, 2 * i + 2)) == c.contents[i]
  {
    ShownIsOriginal(c.w, Some(2 * i + 2));
    TargetIgnored(c.contents, c.target, Annotate(c.w, 2 * i + 2));
    assert HoldsAt(c.contents, c.w, i);
  }

  predicate Around(chunk: Chunk, i: nat) {
    chunk.a1 - 1 <= i <= chunk.a2
  }

  /** The lines that the diff touches, or inserts next to, are newer than this revision or immutable. */
  ghost predicate TouchesNewerOnly(c: Change, r: nat) {
    var live := Live(c.w);
    forall k, i :: 0 <= k < |c.chunks| && 0 <= i < |live| && Around(c.chunks[k], i) && live[i].rev > 1 ==>
      live[i].rev > r
  }

  lemma FixupTouches(c: Change, k: nat, i: nat)
    requires k < |FixupsFor(c)| && TouchesNewerOnly(c, 2 * i + 1)
    ensures 2 * i + 2 < FixupsFor(c)[k].rev
  {
    var f, live := FixupsFor(c)[k], Live(c.w);
    ChangeFits(c);
    DiffFixupsOwned(c.w, c.chunks);
    DiffFixupsInChunks(c.w, c.chunks);
    assert FixupOk(c.w, f) && BehindOwner(live, f);
    var j :| 0 <= j < |c.chunks| && c.chunks[j].a1 <= f.a1 && f.a2 <= c.chunks[j].a2;
    var n := if f.a1 < f.a2 || (f.a1 < |live| && live[f.a1].rev == f.rev - 1) then f.a1 else f.a1 - 1;
    assert live[n].rev == f.rev - 1 && Around(c.chunks[j], n);
  }

  /** A revision that is older than the lines that the diff touches stays as it is. */
  lemma UntouchedContentsUnchanged(c: Change, i: nat)
    requires i < |c.contents| && TouchesNewerOnly(c, 2 * i + 1)
    ensures FinalContent(c, i) == c.contents[i]
  {
    var fs := FixupsFor(c);
    forall k | 0 <= k < |fs|
      ensures 2 * i + 2 < fs[k].rev
    {
      FixupTouches(c, k, i);
    }
    OlderContentsUnchanged(c, i);
  }

  /** The first revision is never changed. */
  lemma FirstIsImmutable(c: Change)
    ensures FinalContent(c, 0) == c.contents[0]
  {
    var fs := FixupsFor(c);
    forall k | 0 <= k < |fs|
      ensures 2 < fs[k].rev
    {
      assert FixupOk(c.w, fs[k]);
    }
    OlderContentsUnchanged(c, 0);
  }

  /** The newest revision with every chunk of the diff amended. */
  ghost function AmendedNewest(c: Change): Text {
    AmendedText(c.w, TopOfChange(c), c.chunks)
  }

  ghost predicate AllAbsorbed(c: Change) {
    var t := TopOfChange(c);
    forall i :: 0 <= i < |c.chunks| ==> Absorbed(c.w, t, c.chunks[i])
  }

  /** The newest revision becomes its text with every chunk amended. */
  lemma NewestBecomes(c: Change)
    ensures FinalContent(c, |c.contents| - 1) == AmendedNewest(c)
  {
    TopBecomes(c, 2 * (|c.contents| - 1) + 2);
  }

  lemma TopBecomes(c: Change, r: nat)
    requires r == 2 * |c.contents|
    ensures Checkout(c.contents, c.target, ApplyAll(c.w, FixupsFor(c)), r) == AmendedNewest(c)
  {
    NewestRevisionIsAmended(c.w, TopOfChange(c), c.chunks, r);
  }

  /** If every chunk can be absorbed, the newest revision becomes the target. */
  lemma FullyAbsorbedIsTarget(c: Change)
    requires AllAbsorbed(c)
    ensures FinalContent(c, |c.contents| - 1) == c.target
  {
    NewestBecomes(c);
    var t := TopOfChange(c);
    assert t.a[..|t.a|] == t.a && t.b[..|t.b|] == t.b;
    AbsorbedDiffIsTarget(c.w, t, c.chunks, |t.a|, |t.b|);
  }

  /**
   If the chunks delete no immutable line, pair none, are of one revision or are insertions next to
   one revision, the newest revision becomes the target.
   */
  lemma TakenChangeIsTarget(c: Change)
    ensures ChunksFit(c.w, c.chunks)
    ensures (forall i :: 0 <= i < |c.chunks| ==> Taken(c.w, c.chunks[i])) ==>
              FinalContent(c, |c.contents| - 1) == c.target
  {
    var t := TopOfChange(c);
    if forall i :: 0 <= i < |c.chunks| ==> Taken(c.w, c.chunks[i]) {
      forall i | 0 <= i < |c.chunks|
        ensures Absorbed(c.w, t, c.chunks[i])
      {
        AbsorbedIff(c.w, t, c.chunks[i]);
      }
      FullyAbsorbedIsTarget(c);
    }
  }

  /** Absorbing the changes of one file: build the linelog, derive the fixups, apply them. */
  method AbsorbFile(s: Stack, target: Text, chunks: seq<Chunk>) returns (final: seq<Text>, ghost c: Change)
    requires s.contents != [] && IsDiff(chunks, s.contents[|s.contents| - 1], target)
    ensures c.contents == s.contents && c.target == target && c.chunks == chunks
    ensures final == FinalContents(c)
  {
    var state := new FileFixupState(s);
    c := AsChange(s.contents, state.linelog.Contents(), target, chunks);
    final := AbsorbChange(state, target, chunks, c);
  }

  lemma AsChange(contents: seq<Text>, w: Lines, target: Text, chunks: seq<Chunk>) returns (c: Change)
    requires contents != [] && HoldsStack(contents, w, |contents|) && IsDiff(chunks, contents[|contents| - 1], target)
    ensures c == Input(contents, w, target, chunks)
  {
    c := Input(contents, w, target, chunks);
  }

  method AbsorbChange(state: FileFixupState, target: Text, chunks: seq<Chunk>, ghost c: Change)
    returns (final: seq<Text>)
    requires Ready(state.linelog) && c == Input(state.contentlines, state.linelog.Contents(), target, chunks)
    requires state.fixups == [] && state.adopted == 0 && state.total == 0
    modifies state, state.linelog
    ensures final == FinalContents(c)
  {
    ChangeFits(c);
    state.DiffWith(target, chunks);
    final := ApplyChange(state, c);
  }

  method ApplyChange(state: FileFixupState, ghost c: Change) returns (final: seq<Text>)
    requires IsAnnotated(state.linelog)
    requires c.contents == state.contentlines && c.w == state.linelog.Contents() && c.target == state.targetlines
    requires ChunksFit(c.w, c.chunks) && state.fixups == DiffFixups(c.w, c.chunks)
    modifies state, state.linelog
    ensures final == FinalContents(c)
  {
    ghost var fs := FixupsFor(c);
    OkIsInOrder(c.w, fs);
    forall i | 0 <= i < |c.contents|
      ensures AllThere(c.contents, c.target, Annotate(ApplyAll(c.w, fs), 2 * i + 2))
    {
      EveryLineIsThere(c, 2 * i + 2);
    }
    var ok := state.Apply();
    assert ok;
    final := state.finalcontents;
  }

  lemma ChangeFits(c: Change)
    ensures Originals(c.w) && ChunksFit(c.w, c.chunks)
  {
    DiffFits(c.w, c.chunks, c.contents[|c.contents| - 1], c.target);
  }
}
