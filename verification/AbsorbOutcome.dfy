/** What absorbing a diff makes of the newest revision, told in terms of its text and the target. */
module AbsorbOutcome {
  import opened Lists
  import opened Diff
  import opened Weave
  import opened Absorb
  import opened AbsorbFixups
  import opened AbsorbMerging
  import opened AbsorbChunks

  /** The live lines of a linelog with their text `a`, and the target text `b`. */
  datatype Top = Top(contents: seq<Text>, live: seq<Id>, a: Text, b: Text)

  ghost predicate Sound(t: Top) {
    TextOf(t, t.live) == t.a
  }

  function TextOf(t: Top, ids: seq<Id>): Text {
    GetLines(t.contents, t.b, ids)
  }

  ghost predicate Here(t: Top, c: Chunk) {
    c.a1 <= c.a2 <= |t.a| && c.a2 <= |t.live| && c.b1 <= c.b2 <= |t.b|
  }

  // ---------------------------------------------------------------------------------------
  // Substitution in the newest revision, where places are line numbers

  function TopSubst(f: Fixup): Subst<Id>
    requires f.a1 <= f.a2 && f.b1 <= f.b2
  {
    Subst(f.a1, f.a2 - f.a1, NewIds(f.rev, f.b1, f.b2))
  }

  ghost function TopSubsts(fs: seq<Fixup>): seq<Subst<Id>>
    requires Formed(fs)
  {
    if fs == [] then [] else TopSubsts(fs[..|fs| - 1]) + [TopSubst(fs[|fs| - 1])]
  }

  lemma TopSubstsSnoc(fs: seq<Fixup>, g: Fixup)
    requires Formed(fs) && g.a1 <= g.a2 && g.b1 <= g.b2
    ensures Formed(fs + [g]) && TopSubsts(fs + [g]) == TopSubsts(fs) + [TopSubst(g)]
  {
    assert (fs + [g])[..|fs|] == fs;
  }

  /** With the fixups made, the lines before line `e` are this text. */
  ghost predicate Gives(t: Top, fs: seq<Fixup>, e: nat, text: Text) {
    && e <= |t.live| && Formed(fs) && Within(TopSubsts(fs), e)
    && TextOf(t, Substitute(t.live[..e], TopSubsts(fs))) == text
  }

  /** One more fixup at the end of the text so far. */
  lemma TopSnoc(t: Top, fs: seq<Fixup>, f: Fixup, e: nat, text: Text)
    requires Sound(t) && f.rev % 2 == 0
    requires f.a1 <= f.a2 <= e <= |t.a| && f.b1 <= f.b2 <= |t.b| && Gives(t, fs, f.a1, text)
    ensures Gives(t, fs + [f], e, text + (t.b[f.b1..f.b2] + t.a[f.a2..e]))
  {
    TopSubstsSnoc(fs, f);
    TextOfSlice(t, f.a2, e);
    SubstSnoc(t, TopSubsts(fs), f, e);
  }

  lemma SubstSnoc(t: Top, ss: seq<Subst<Id>>, f: Fixup, e: nat)
    requires f.rev % 2 == 0 && f.a1 <= f.a2 <= e <= |t.live| && f.b1 <= f.b2 <= |t.b| && Within(ss, f.a1)
    ensures Within(ss + [TopSubst(f)], e)
    ensures TextOf(t, Substitute(t.live[..e], ss + [TopSubst(f)]))
         == TextOf(t, Substitute(t.live[..f.a1], ss)) + (t.b[f.b1..f.b2] + TextOf(t, t.live[f.a2..e]))
  {
    TopSubstAt(t.live, ss, f, e);
    TextOfThree(t, Substitute(t.live[..f.a1], ss), f, t.live[f.a2..e]);
  }

  lemma TopSubstAt(live: seq<Id>, ss: seq<Subst<Id>>, f: Fixup, e: nat)
    requires f.a1 <= f.a2 <= e <= |live| && f.b1 <= f.b2 && Within(ss, f.a1)
    ensures Within(ss + [TopSubst(f)], e)
    ensures Substitute(live[..e], ss + [TopSubst(f)])
         == Substitute(live[..f.a1], ss) + (NewIds(f.rev, f.b1, f.b2) + live[f.a2..e])
  {
    SnocAt(live, ss, f.a1, f.a2, e, NewIds(f.rev, f.b1, f.b2));
  }

  lemma SnocAt<T>(s: seq<T>, ss: seq<Subst<T>>, a1: nat, a2: nat, e: nat, with: seq<T>)
    requires a1 <= a2 <= e <= |s| && Within(ss, a1)
    ensures var tt := ss + [Subst(a1, a2 - a1, with)];
            Within(tt, e) && Substitute(s[..e], tt) == Substitute(s[..a1], ss) + (with + s[a2..e])
  {
    SubstituteSnoc(s[..e], ss, Subst(a1, a2 - a1, with));
    assert s[..e][..a1] == s[..a1] && s[..e][a2..] == s[a2..e];
  }

  lemma TextOfThree(t: Top, x: seq<Id>, f: Fixup, z: seq<Id>)
    requires f.b1 <= f.b2 <= |t.b| && f.rev % 2 == 0
    ensures TextOf(t, x + (NewIds(f.rev, f.b1, f.b2) + z)) == TextOf(t, x) + (t.b[f.b1..f.b2] + TextOf(t, z))
  {
    var y := NewIds(f.rev, f.b1, f.b2);
    GetLinesConcat(t.contents, t.b, x, y + z);
    GetLinesConcat(t.contents, t.b, y, z);
    NewLinesAre(t.contents, t.b, f.rev, f.b1, f.b2);
  }

  lemma TextOfSlice(t: Top, k: nat, e: nat)
    requires Sound(t) && k <= e <= |t.a|
    ensures |t.live| == |t.a| && TextOf(t, t.live[k..e]) == t.a[k..e]
  {
  }

  /** Lines without a fixup at the end of the text so far. */
  lemma TopKept(t: Top, fs: seq<Fixup>, k: nat, e: nat, text: Text)
    requires Sound(t) && k <= e <= |t.a| && Gives(t, fs, k, text)
    ensures Gives(t, fs, e, text + t.a[k..e])
  {
    var s, ss := t.live, TopSubsts(fs);
    TextOfSlice(t, k, e);
    assert s[..e] == s[..k] + s[k..e];
    SubstitutePrefix(s[..k], s[k..e], ss);
    GetLinesConcat(t.contents, t.b, Substitute(s[..k], ss), s[k..e]);
  }

  // ---------------------------------------------------------------------------------------
  // Line by line

  /** An immutable line stays; any other becomes its partner in the target, or is deleted. */
  ghost function AmendedLine(t: Top, c: Chunk, i: nat): Text
    requires Here(t, c) && ByLine(c) && c.a1 <= i < c.a2
  {
    if t.live[i].rev <= 1 then [t.a[i]]
    else if c.b1 == c.b2 then [] else [t.b[c.b1 + i - c.a1]]
  }

  /** What the lines from `i` on become. */
  ghost function AmendedLines(t: Top, c: Chunk, i: nat): Text
    requires Here(t, c) && ByLine(c) && c.a1 <= i <= c.a2
    decreases c.a2 - i
  {
    if i == c.a2 then [] else AmendedLine(t, c, i) + AmendedLines(t, c, i + 1)
  }

  ghost predicate OriginalIds(ids: seq<Id>) {
    forall i :: 0 <= i < |ids| ==> ids[i].rev % 2 == 1
  }

  lemma LineAmended(t: Top, c: Chunk, fs: seq<Fixup>, i: nat, text: Text)
    requires Sound(t) && Here(t, c) && ByLine(c) && c.a1 <= i < c.a2 && OriginalIds(t.live) && Gives(t, fs, i, text)
    ensures Gives(t, fs + LineFixup(t.live, c, i), i + 1, text + AmendedLine(t, c, i))
  {
    if t.live[i].rev > 1 {
      LineTaken(t, c, fs, i, text);
    } else {
      assert fs + [] == fs;
      TopKept(t, fs, i, i + 1, text);
      assert t.a[i..i + 1] == [t.a[i]];
    }
  }

  lemma LineTaken(t: Top, c: Chunk, fs: seq<Fixup>, i: nat, text: Text)
    requires Sound(t) && Here(t, c) && ByLine(c) && c.a1 <= i < c.a2 && OriginalIds(t.live) && Gives(t, fs, i, text)
    requires t.live[i].rev > 1
    ensures Gives(t, fs + LineFixup(t.live, c, i), i + 1, text + AmendedLine(t, c, i))
  {
    var f := LineFixup(t.live, c, i)[0];
    TopSnoc(t, fs, f, i + 1, text);
    TakenText(t, c, f, i);
  }

  lemma TakenText(t: Top, c: Chunk, f: Fixup, i: nat)
    requires Here(t, c) && ByLine(c) && c.a1 <= i < c.a2 && t.live[i].rev > 1 && f == LineFixup(t.live, c, i)[0]
    ensures LineFixup(t.live, c, i) == [f]
    ensures f.b2 <= |t.b| && t.b[f.b1..f.b2] + t.a[f.a2..i + 1] == AmendedLine(t, c, i)
  {
  }

  /** Line after line, from line `i` on: the fixups so far and those of the remaining lines. */
  ghost function AddFixups(live: seq<Id>, c: Chunk, fs: seq<Fixup>, i: nat): seq<Fixup>
    requires c.a1 <= i <= c.a2 <= |live|
    decreases c.a2 - i
  {
    if i == c.a2 then fs else AddFixups(live, c, fs + LineFixup(live, c, i), i + 1)
  }

  ghost function AddText(t: Top, c: Chunk, text: Text, i: nat): Text
    requires Here(t, c) && ByLine(c) && c.a1 <= i <= c.a2
    decreases c.a2 - i
  {
    if i == c.a2 then text else AddText(t, c, text + AmendedLine(t, c, i), i + 1)
  }

  lemma {:induction false} RemainingLinesAmended(t: Top, c: Chunk, fs: seq<Fixup>, i: nat, text: Text)
    requires Sound(t) && Here(t, c) && ByLine(c) && c.a1 <= i <= c.a2 && OriginalIds(t.live) && Gives(t, fs, i, text)
    ensures Gives(t, AddFixups(t.live, c, fs, i), c.a2, AddText(t, c, text, i))
    decreases c.a2 - i
  {
    if i < c.a2 {
      LineAmended(t, c, fs, i, text);
      RemainingLinesAmended(t, c, fs + LineFixup(t.live, c, i), i + 1, text + AmendedLine(t, c, i));
    }
  }

  lemma {:induction false} AddFixupsIs(live: seq<Id>, c: Chunk, fs: seq<Fixup>, i: nat)
    requires c.a1 <= i <= c.a2 <= |live|
    ensures AddFixups(live, c, fs + LineFixups(live, c, i), i) == fs + LineFixups(live, c, c.a2)
    decreases c.a2 - i
  {
    if i < c.a2 {
      ConcatAssociates(fs, LineFixups(live, c, i), LineFixup(live, c, i));
      AddFixupsIs(live, c, fs, i + 1);
    }
  }

  lemma {:induction false} AddTextIs(t: Top, c: Chunk, text: Text, i: nat)
    requires Here(t, c) && ByLine(c) && c.a1 <= i <= c.a2
    ensures AddText(t, c, text, i) == text + AmendedLines(t, c, i)
    decreases c.a2 - i
  {
    if i == c.a2 {
      assert text + [] == text;
    } else {
      AddTextIs(t, c, text + AmendedLine(t, c, i), i + 1);
      ConcatAssociates(text, AmendedLine(t, c, i), AmendedLines(t, c, i + 1));
    }
  }

  lemma LinesAmended(t: Top, c: Chunk, fs: seq<Fixup>, text: Text)
    requires Sound(t) && Here(t, c) && ByLine(c) && OriginalIds(t.live) && Gives(t, fs, c.a1, text)
    ensures Gives(t, fs + LineFixups(t.live, c, c.a2), c.a2, text + AmendedLines(t, c, c.a1))
  {
    assert fs + [] == fs;
    RemainingLinesAmended(t, c, fs, c.a1, text);
    AddFixupsIs(t.live, c, fs, c.a1);
    AddTextIs(t, c, text, c.a1);
  }

  // ---------------------------------------------------------------------------------------
  // Chunk by chunk

  /** `t` tells the newest revision of this linelog. */
  ghost predicate TopOf(w: Lines, t: Top) {
    t.live == Live(w) && Sound(t) && Originals(w)
  }

  ghost function AmendedChunk(w: Lines, t: Top, c: Chunk): Text
    requires Inside(w, c) && Here(t, c)
  {
    if Whole(w, c) then if OwnedBy(w, c, 1) then t.a[c.a1..c.a2] else t.b[c.b1..c.b2]
    else if ByLine(c) then AmendedLines(t, c, c.a1)
    else t.a[c.a1..c.a2]
  }

  lemma NothingAmended(t: Top, c: Chunk, fs: seq<Fixup>, e: nat, text: Text)
    requires Sound(t) && Here(t, c) && c.a2 <= e <= |t.a| && Gives(t, fs, c.a1, text)
    ensures Gives(t, fs + [], e, text + (t.a[c.a1..c.a2] + t.a[c.a2..e]))
  {
    assert fs + [] == fs;
    TopKept(t, fs, c.a1, e, text);
    assert t.a[c.a1..c.a2] + t.a[c.a2..e] == t.a[c.a1..e];
  }

  lemma LinesAmendedUpTo(t: Top, c: Chunk, fs: seq<Fixup>, e: nat, text: Text)
    requires Sound(t) && Here(t, c) && ByLine(c) && OriginalIds(t.live) && c.a2 <= e <= |t.a|
             && Gives(t, fs, c.a1, text)
    ensures Gives(t, fs + LineFixups(t.live, c, c.a2), e, text + (AmendedLines(t, c, c.a1) + t.a[c.a2..e]))
  {
    LinesAmended(t, c, fs, text);
    TopKept(t, fs + LineFixups(t.live, c, c.a2), c.a2, e, text + AmendedLines(t, c, c.a1));
    ConcatAssociates(text, AmendedLines(t, c, c.a1), t.a[c.a2..e]);
  }

  lemma Owner(w: Lines, c: Chunk) returns (rev: nat)
    requires Inside(w, c) && Originals(w) && Whole(w, c)
    ensures FixupsOf(w, c) == if rev > 1 then [Fixup(rev + 1, c.a1, c.a2, c.b1, c.b2)] else []
    ensures rev % 2 == 1 && (OwnedBy(w, c, 1) <==> rev == 1)
    ensures exists i :: 0 <= i < |Live(w)| && Live(w)[i].rev == rev
  {
    rev :| OwnedBy(w, c, rev) && FixupsOf(w, c) == if rev > 1 then [Fixup(rev + 1, c.a1, c.a2, c.b1, c.b2)] else [];
    LiveIsOriginal(w);
    assert rev in Touched(w, c);
    assert OwnedBy(w, c, 1) ==> 1 in Touched(w, c);
  }

  lemma WholeAmended(w: Lines, t: Top, c: Chunk, fs: seq<Fixup>, e: nat, text: Text)
    requires TopOf(w, t) && Inside(w, c) && Here(t, c) && c.a2 <= e <= |t.a| && Gives(t, fs, c.a1, text) && Whole(w, c)
    ensures Gives(t, fs + FixupsOf(w, c), e, text + (AmendedChunk(w, t, c) + t.a[c.a2..e]))
  {
    var rev := Owner(w, c);
    if rev > 1 {
      TopSnoc(t, fs, Fixup(rev + 1, c.a1, c.a2, c.b1, c.b2), e, text);
    } else {
      NothingAmended(t, c, fs, e, text);
    }
  }

  /** The fixups of one chunk make of its lines what `AmendedChunk` says. */
  lemma ChunkAmended(w: Lines, t: Top, c: Chunk, fs: seq<Fixup>, e: nat, text: Text)
    requires TopOf(w, t) && Inside(w, c) && Here(t, c) && c.a2 <= e <= |t.a| && Gives(t, fs, c.a1, text)
    ensures Gives(t, fs + FixupsOf(w, c), e, text + (AmendedChunk(w, t, c) + t.a[c.a2..e]))
  {
    if Whole(w, c) {
      WholeAmended(w, t, c, fs, e, text);
    } else if ByLine(c) {
      LiveIsOriginal(w);
      LinesAmendedUpTo(t, c, fs, e, text);
    } else {
      NothingAmended(t, c, fs, e, text);
    }
  }

  ghost predicate AllHere(w: Lines, t: Top, chunks: seq<Chunk>, e: nat) {
    && ChunksFit(w, chunks) && (forall i :: 0 <= i < |chunks| ==> Here(t, chunks[i]))
    && e <= |t.a| && (chunks != [] ==> chunks[|chunks| - 1].a2 <= e)
  }

  lemma AllHereFront(w: Lines, t: Top, chunks: seq<Chunk>, e: nat)
    requires AllHere(w, t, chunks, e) && chunks != []
    ensures var c := chunks[|chunks| - 1]; Inside(w, c) && Here(t, c) && AllHere(w, t, chunks[..|chunks| - 1], c.a1)
  {
    var front := chunks[..|chunks| - 1];
    assert forall i :: 0 <= i < |front| ==> front[i] == chunks[i];
    assert front != [] ==> chunks[|front| - 1].a2 < chunks[|front|].a1;
  }

  /** The old text up to line `e`, with each chunk amended. */
  ghost function Amended(w: Lines, t: Top, chunks: seq<Chunk>, e: nat): Text
    requires AllHere(w, t, chunks, e)
    decreases |chunks|
  {
    if chunks == [] then t.a[..e]
    else
      var front, c := chunks[..|chunks| - 1], chunks[|chunks| - 1];
      AllHereFront(w, t, chunks, e);
      Amended(w, t, front, c.a1) + (AmendedChunk(w, t, c) + t.a[c.a2..e])
  }

  ghost function AmendedText(w: Lines, t: Top, chunks: seq<Chunk>): Text
    requires AllHere(w, t, chunks, |t.a|)
  {
    Amended(w, t, chunks, |t.a|)
  }

  lemma {:induction false} ChunksAmended(w: Lines, t: Top, chunks: seq<Chunk>, e: nat)
    requires TopOf(w, t) && AllHere(w, t, chunks, e)
    ensures Gives(t, RawFixups(w, chunks), e, Amended(w, t, chunks, e))
    decreases |chunks|
  {
    if chunks == [] {
      TextOfSlice(t, 0, e);
    } else {
      var front, c := chunks[..|chunks| - 1], chunks[|chunks| - 1];
      AllHereFront(w, t, chunks, e);
      ChunksAmended(w, t, front, c.a1);
      ChunkAmended(w, t, c, RawFixups(w, front), e, Amended(w, t, front, c.a1));
    }
  }

  // ---------------------------------------------------------------------------------------
  // The newest revision of a linelog

  ghost predicate RevsUpTo(fs: seq<Fixup>, r: nat) {
    forall i :: 0 <= i < |fs| ==> fs[i].rev <= r
  }

  lemma LiveUpTo(w: Lines, r: nat)
    requires UpTo(w, r) && r % 2 == 0 && Originals(w)
    ensures forall i :: 0 <= i < |Live(w)| ==> Live(w)[i].rev < r
  {
    forall i | 0 <= i < |Live(w)|
      ensures Live(w)[i].rev < r
    {
      LiveAt(w, i);
      assert w[Offset(w, i)] in w;
    }
  }

  lemma {:induction false} LineRevsUpTo(live: seq<Id>, c: Chunk, k: nat, r: nat)
    requires c.a1 <= k <= |live| && forall i :: 0 <= i < |live| ==> live[i].rev < r
    ensures RevsUpTo(LineFixups(live, c, k), r)
  {
    if c.a1 < k {
      LineRevsUpTo(live, c, k - 1, r);
    }
  }

  lemma {:induction false} RawRevsUpTo(w: Lines, chunks: seq<Chunk>, r: nat)
    requires ChunksFit(w, chunks) && UpTo(w, r) && r % 2 == 0 && Originals(w)
    ensures RevsUpTo(RawFixups(w, chunks), r)
  {
    if chunks != [] {
      var front, c := chunks[..|chunks| - 1], chunks[|chunks| - 1];
      assert forall i :: 0 <= i < |front| ==> front[i] == chunks[i];
      RawRevsUpTo(w, front, r);
      ChunkRevsUpTo(w, c, r);
    }
  }

  lemma ChunkRevsUpTo(w: Lines, c: Chunk, r: nat)
    requires Inside(w, c) && UpTo(w, r) && r % 2 == 0 && Originals(w)
    ensures RevsUpTo(FixupsOf(w, c), r)
  {
    LiveUpTo(w, r);
    if Whole(w, c) {
      var rev := Owner(w, c);
    } else {
      LineRevsUpTo(Live(w), c, c.a2, r);
    }
  }

  lemma PlaceAtTop(w: Lines, r: nat, a: nat)
    requires UpTo(w, r) && a <= |Live(w)|
    ensures Place(w, r, a) == a
  {
    var x := w[..Offset(w, a)];
    assert forall l :: l in x ==> l in w;
    NewestIsLive(x, r, r);
    LiveAt(w, a);
  }

  lemma {:induction false} SubstsAtTop(w: Lines, fs: seq<Fixup>, r: nat)
    requires UpTo(w, r) && AllOk(w, fs) && RevsUpTo(fs, r) && Formed(fs)
    ensures SubstsAt(w, fs, r) == TopSubsts(fs)
  {
    if fs != [] {
      AllOkFront(w, fs);
      SubstsAtTop(w, fs[..|fs| - 1], r);
      PlaceAtTop(w, r, fs[|fs| - 1].a1);
    }
  }

  /** After all fixups of a diff, merged or not, the newest revision is the amended text. */
  lemma NewestRevisionIsAmended(w: Lines, t: Top, chunks: seq<Chunk>, r: nat)
    requires TopOf(w, t) && AllHere(w, t, chunks, |t.a|) && UpTo(w, r) && r % 2 == 0
    ensures Applicable(w, DiffFixups(w, chunks))
    ensures Checkout(t.contents, t.b, ApplyAll(w, DiffFixups(w, chunks)), r) == AmendedText(w, t, chunks)
  {
    var fs := RawFixups(w, chunks);
    RawFixupsOk(w, chunks);
    MergingChangesNothing(w, fs, r);
    FixupsSubstituteEverywhere(w, fs, r);
    NewestIsLive(w, r, r);
    AllOkFormed(w, fs);
    RawRevsUpTo(w, chunks, r);
    SubstsAtTop(w, fs, r);
    assert t.live[..|t.a|] == t.live by {
      TextOfSlice(t, 0, |t.a|);
    }
    ChunksAmended(w, t, chunks, |t.a|);
  }

  // ---------------------------------------------------------------------------------------
  // When nothing is left over

  /** Every line of the chunk, or the insertion, is amended. */
  ghost predicate Absorbed(w: Lines, t: Top, c: Chunk)
    requires Inside(w, c) && Here(t, c)
  {
    if Whole(w, c) then !OwnedBy(w, c, 1)
    else ByLine(c) && forall i :: c.a1 <= i < c.a2 ==> t.live[i].rev > 1
  }

  lemma {:induction false} AllLinesAmended(t: Top, c: Chunk, i: nat)
    requires Here(t, c) && ByLine(c) && c.a1 <= i <= c.a2
    requires forall i :: c.a1 <= i < c.a2 ==> t.live[i].rev > 1
    ensures AmendedLines(t, c, i) == if c.b1 == c.b2 then [] else t.b[c.b1 + i - c.a1..c.b2]
    decreases c.a2 - i
  {
    if i < c.a2 {
      AllLinesAmended(t, c, i + 1);
      if c.b1 < c.b2 {
        SliceCons(t.b, c.b1 + i - c.a1, c.b2);
      }
    }
  }

  lemma SliceCons<T>(s: seq<T>, i: nat, j: nat)
    requires i < j <= |s|
    ensures [s[i]] + s[i + 1..j] == s[i..j]
  {
  }

  lemma AbsorbedChunkIsTarget(w: Lines, t: Top, c: Chunk)
    requires Inside(w, c) && Here(t, c) && Absorbed(w, t, c)
    ensures AmendedChunk(w, t, c) == t.b[c.b1..c.b2]
  {
    if !Whole(w, c) {
      AllLinesAmended(t, c, c.a1);
    }
  }

  lemma {:induction false} AbsorbedDiffIsTarget(w: Lines, t: Top, chunks: seq<Chunk>, e: nat, f: nat)
    requires AllHere(w, t, chunks, e) && f <= |t.b| && IsDiff(chunks, t.a[..e], t.b[..f])
    requires forall i :: 0 <= i < |chunks| ==> Absorbed(w, t, chunks[i])
    ensures Amended(w, t, chunks, e) == t.b[..f]
    decreases |chunks|
  {
    if chunks != [] {
      var front, c := chunks[..|chunks| - 1], chunks[|chunks| - 1];
      AllHereFront(w, t, chunks, e);
      assert forall i :: 0 <= i < |front| ==> front[i] == chunks[i];
      SlicesOfSlices(t.a, c.a1, c.a2, e);
      SlicesOfSlices(t.b, c.b1, c.b2, f);
      AbsorbedDiffIsTarget(w, t, front, c.a1, c.b1);
      AbsorbedChunkIsTarget(w, t, c);
    }
  }

  lemma SlicesOfSlices<T>(s: seq<T>, i: nat, j: nat, e: nat)
    requires i <= j <= e <= |s|
    ensures s[..e][..i] == s[..i] && s[..e][j..] == s[j..e]
    ensures s[..i] + (s[i..j] + s[j..e]) == s[..e]
  {
  }

  // ---------------------------------------------------------------------------------------
  // What becomes of a chunk, told from the revisions of its lines alone

  /** The revisions, other than the immutable first one, of the lines before and after an insertion. */
  ghost function Adjacent(live: seq<Id>, a: nat): set<nat> {
    (if 0 < a <= |live| && live[a - 1].rev > 1 then {live[a - 1].rev} else {})
    + if a < |live| && live[a].rev > 1 then {live[a].rev} else {}
  }

  ghost predicate OneRevision(live: seq<Id>, a1: nat, a2: nat, rev: nat) {
    forall i :: a1 <= i < a2 && i < |live| ==> live[i].rev == rev
  }

  /** The immutable ones of these lines. */
  ghost function ImmutableText(t: Top, a1: nat, a2: nat): Text
    requires a1 <= a2 <= |t.a| && a2 <= |t.live|
    decreases a2 - a1
  {
    if a1 == a2 then []
    else (if t.live[a1].rev <= 1 then [t.a[a1]] else []) + ImmutableText(t, a1 + 1, a2)
  }

  lemma InsertionTouches(w: Lines, c: Chunk, rev: nat)
    requires Inside(w, c) && c.a1 == c.a2 && forall i :: 0 <= i < |Live(w)| ==> Live(w)[i].rev % 2 == 1
    ensures rev in Touched(w, c) <==> rev in Adjacent(Live(w), c.a1)
  {
    var live := Live(w);
    if rev in Adjacent(live, c.a1) {
      var i := if c.a1 < |live| && live[c.a1].rev == rev then c.a1 else c.a1 - 1;
      assert live[i].rev == rev;
    }
  }

  lemma WholeInsertionIff(w: Lines, c: Chunk)
    requires Inside(w, c) && c.a1 == c.a2 && Originals(w)
    ensures Whole(w, c) <==> |Adjacent(Live(w), c.a1)| == 1
    ensures forall rev :: OwnedBy(w, c, rev) ==> rev != 1
  {
    var near := Adjacent(Live(w), c.a1);
    LiveIsOriginal(w);
    forall rev: nat
      ensures rev in Touched(w, c) <==> rev in near
    {
      InsertionTouches(w, c, rev);
    }
    if |near| == 1 {
      var rev :| rev in near;
      OnlyOne(near, rev);
      assert OwnedBy(w, c, rev);
    }
    if rev: nat :| OwnedBy(w, c, rev) {
      assert near == {rev};
    }
  }

  /** Lines are inserted exactly if the lines next to them that are not immutable are of one revision. */
  lemma InsertionOutcome(w: Lines, t: Top, c: Chunk)
    requires TopOf(w, t) && Inside(w, c) && Here(t, c) && c.a1 == c.a2
    ensures AmendedChunk(w, t, c) == if |Adjacent(t.live, c.a1)| == 1 then t.b[c.b1..c.b2] else []
  {
    WholeInsertionIff(w, c);
  }

  lemma WholeLinesIff(w: Lines, c: Chunk, rev: nat)
    requires Inside(w, c) && c.a1 < c.a2
    ensures OwnedBy(w, c, rev) <==>
              OneRevision(Live(w), c.a1, c.a2, rev) && NothingHidden(w, Offset(w, c.a1), EndOffset(w, c.a1, c.a2))
  {
    var live := Live(w);
    assert live[c.a1].rev in Touched(w, c);
    if OneRevision(live, c.a1, c.a2, rev) {
      assert Touched(w, c) == {rev};
    }
    if Touched(w, c) == {rev} {
      assert forall i :: c.a1 <= i < c.a2 ==> live[i].rev in Touched(w, c);
    }
    if c.a1 < c.a2 - 1 {
      ContinuousIff(w, c.a1, c.a2 - 1, true);
    } else {
      LiveAt(w, c.a1);
    }
  }

  lemma {:induction false} DeletedLines(t: Top, c: Chunk, i: nat)
    requires Here(t, c) && c.b1 == c.b2 && c.a1 <= i <= c.a2
    ensures AmendedLines(t, c, i) == ImmutableText(t, i, c.a2)
    decreases c.a2 - i
  {
    if i < c.a2 {
      DeletedLines(t, c, i + 1);
    }
  }

  lemma {:induction false} AllImmutable(t: Top, a1: nat, a2: nat, rev: nat)
    requires a1 <= a2 <= |t.a| && a2 <= |t.live| && OneRevision(t.live, a1, a2, rev)
    ensures ImmutableText(t, a1, a2) == if rev <= 1 then t.a[a1..a2] else []
    decreases a2 - a1
  {
    if a1 < a2 {
      AllImmutable(t, a1 + 1, a2, rev);
      SliceCons(t.a, a1, a2);
    }
  }

  /** Of lines that are deleted the immutable ones stay, and no others. */
  lemma DeletionOutcome(w: Lines, t: Top, c: Chunk)
    requires TopOf(w, t) && Inside(w, c) && Here(t, c) && c.a1 < c.a2 && c.b1 == c.b2
    ensures AmendedChunk(w, t, c) == ImmutableText(t, c.a1, c.a2)
  {
    if Whole(w, c) {
      var rev := OneOwner(w, c);
      AllImmutable(t, c.a1, c.a2, rev);
    } else {
      DeletedLines(t, c, c.a1);
    }
  }

  lemma {:induction false} PairedLines(t: Top, c: Chunk, i: nat, k: nat)
    requires Here(t, c) && c.a2 - c.a1 == c.b2 - c.b1 && c.a1 <= i <= c.a2
    ensures |AmendedLines(t, c, i)| == c.a2 - i
    ensures k < c.a2 - i ==>
              AmendedLines(t, c, i)[k] == if t.live[i + k].rev <= 1 then t.a[i + k] else t.b[c.b1 + i + k - c.a1]
    decreases c.a2 - i
  {
    if i < c.a2 {
      PairedLines(t, c, i + 1, if k == 0 then 0 else k - 1);
    }
  }

  /** The line is its partner in the target, or the old one if that is immutable. */
  ghost predicate PairedAt(t: Top, c: Chunk, x: Text, k: nat)
    requires Here(t, c) && c.a2 - c.a1 == c.b2 - c.b1 && k < c.a2 - c.a1
  {
    |x| == c.a2 - c.a1 && x[k] == if t.live[c.a1 + k].rev <= 1 then t.a[c.a1 + k] else t.b[c.b1 + k]
  }

  lemma WholePaired(t: Top, c: Chunk, x: Text, k: nat)
    requires Here(t, c) && c.a2 - c.a1 == c.b2 - c.b1 && k < c.a2 - c.a1
    requires OneRevision(t.live, c.a1, c.a2, t.live[c.a1].rev)
    requires x == if t.live[c.a1].rev <= 1 then t.a[c.a1..c.a2] else t.b[c.b1..c.b2]
    ensures PairedAt(t, c, x, k)
  {
    assert t.live[c.a1 + k].rev == t.live[c.a1].rev;
  }

  lemma LinesPaired(t: Top, c: Chunk, k: nat)
    requires Here(t, c) && c.a2 - c.a1 == c.b2 - c.b1 && k < c.a2 - c.a1
    ensures PairedAt(t, c, AmendedLines(t, c, c.a1), k)
  {
    PairedLines(t, c, c.a1, k);
  }

  lemma ByLineUnlessWhole(w: Lines, t: Top, c: Chunk)
    requires Inside(w, c) && Here(t, c) && ByLine(c) && !Whole(w, c)
    ensures AmendedChunk(w, t, c) == AmendedLines(t, c, c.a1)
  {
  }

  /** Where as many lines come as go, each becomes its partner unless it is immutable. */
  lemma EqualLengthOutcome(w: Lines, t: Top, c: Chunk, k: nat)
    requires TopOf(w, t) && Inside(w, c) && Here(t, c) && c.a2 - c.a1 == c.b2 - c.b1 && k < c.a2 - c.a1
    ensures PairedAt(t, c, AmendedChunk(w, t, c), k)
  {
    if Whole(w, c) {
      WholeOutcome(w, t, c);
      WholePaired(t, c, AmendedChunk(w, t, c), k);
    } else {
      ByLineUnlessWhole(w, t, c);
      LinesPaired(t, c, k);
    }
  }

  lemma WholeOutcome(w: Lines, t: Top, c: Chunk)
    requires TopOf(w, t) && Inside(w, c) && Here(t, c) && c.a1 < c.a2 && Whole(w, c)
    ensures if t.live[c.a1].rev <= 1
            then OneRevision(t.live, c.a1, c.a2, t.live[c.a1].rev) && AmendedChunk(w, t, c) == t.a[c.a1..c.a2]
            else OneRevision(t.live, c.a1, c.a2, t.live[c.a1].rev) && AmendedChunk(w, t, c) == t.b[c.b1..c.b2]
  {
    var rev := OneOwner(w, c);
    assert t.live[c.a1].rev == rev;
  }

  lemma OneOwner(w: Lines, c: Chunk) returns (rev: nat)
    requires Inside(w, c) && c.a1 < c.a2 && Originals(w) && Whole(w, c)
    ensures OneRevision(Live(w), c.a1, c.a2, rev) && rev > 0 && (OwnedBy(w, c, 1) <==> rev == 1)
  {
    rev :| OwnedBy(w, c, rev);
    WholeLinesIff(w, c, rev);
    WholeLinesIff(w, c, 1);
    LiveIsOriginal(w);
    assert Live(w)[c.a1].rev == rev;
  }

  /** The lines are those of one revision that is not immutable, with no deleted line among them. */
  ghost predicate OfOneRevision(w: Lines, c: Chunk)
    requires Inside(w, c) && c.a1 < c.a2
  {
    && Live(w)[c.a1].rev > 1 && OneRevision(Live(w), c.a1, c.a2, Live(w)[c.a1].rev)
    && NothingHidden(w, Offset(w, c.a1), EndOffset(w, c.a1, c.a2))
  }

  /** Any other change of lines is made as a whole or not at all. */
  lemma OtherOutcome(w: Lines, t: Top, c: Chunk)
    requires TopOf(w, t) && Inside(w, c) && Here(t, c) && c.a1 < c.a2 && c.b1 < c.b2 && c.a2 - c.a1 != c.b2 - c.b1
    ensures AmendedChunk(w, t, c) == if OfOneRevision(w, c) then t.b[c.b1..c.b2] else t.a[c.a1..c.a2]
  {
    WholeLinesIff(w, c, Live(w)[c.a1].rev);
    WholeLinesIff(w, c, 1);
    if rev: nat :| OwnedBy(w, c, rev) {
      WholeLinesIff(w, c, rev);
      LiveIsOriginal(w);
    }
  }

  /** Told from the lines alone: everything the chunk changes is amended. */
  ghost predicate Taken(w: Lines, c: Chunk)
    requires Inside(w, c)
  {
    if c.a1 == c.a2 then c.b1 == c.b2 || |Adjacent(Live(w), c.a1)| == 1
    else if c.b1 == c.b2 || c.a2 - c.a1 == c.b2 - c.b1 then forall i :: c.a1 <= i < c.a2 ==> Live(w)[i].rev > 1
    else OfOneRevision(w, c)
  }

  lemma AbsorbedIff(w: Lines, t: Top, c: Chunk)
    requires TopOf(w, t) && Inside(w, c) && Here(t, c)
    ensures Absorbed(w, t, c) <==> Taken(w, c)
  {
    LiveIsOriginal(w);
    if c.a1 == c.a2 {
      WholeInsertionIff(w, c);
    } else {
      WholeLinesIff(w, c, Live(w)[c.a1].rev);
      WholeLinesIff(w, c, 1);
      if rev: nat :| OwnedBy(w, c, rev) {
        WholeLinesIff(w, c, rev);
      }
    }
  }

  /** Told from the lines alone: something of the chunk is amended. */
  ghost predicate Adopts(w: Lines, c: Chunk)
    requires Inside(w, c)
  {
    if c.a1 == c.a2 then |Adjacent(Live(w), c.a1)| == 1
    else if c.b1 == c.b2 || c.a2 - c.a1 == c.b2 - c.b1 then exists i :: c.a1 <= i < c.a2 && Live(w)[i].rev > 1
    else OfOneRevision(w, c)
  }

  lemma {:induction false} LineFixupsNoneIff(live: seq<Id>, c: Chunk, k: nat)
    requires c.a1 <= k <= |live|
    ensures LineFixups(live, c, k) == [] <==> forall i :: c.a1 <= i < k ==> live[i].rev <= 1
  {
    if c.a1 < k {
      LineFixupsNoneIff(live, c, k - 1);
    }
  }

  lemma WholeAdopted(w: Lines, c: Chunk)
    requires Inside(w, c) && Originals(w) && c.a1 < c.a2 && Whole(w, c)
    ensures FixupsOf(w, c) != [] <==> Live(w)[c.a1].rev > 1
    ensures OneRevision(Live(w), c.a1, c.a2, Live(w)[c.a1].rev) && (Live(w)[c.a1].rev > 1 ==> OfOneRevision(w, c))
  {
    var rev := OneOwner(w, c);
    WholeLinesIff(w, c, rev);
    forall r: nat | OwnedBy(w, c, r)
      ensures r == rev
    {
      WholeLinesIff(w, c, r);
    }
  }

  lemma NotWholeAdopted(w: Lines, c: Chunk)
    requires Inside(w, c) && Originals(w) && c.a1 < c.a2 && !Whole(w, c)
    ensures FixupsOf(w, c) != [] <==> ByLine(c) && exists i :: c.a1 <= i < c.a2 && Live(w)[i].rev > 1
    ensures !OfOneRevision(w, c)
  {
    LineFixupsNoneIff(Live(w), c, c.a2);
    WholeLinesIff(w, c, Live(w)[c.a1].rev);
  }

  lemma InsertionAdopted(w: Lines, c: Chunk)
    requires Inside(w, c) && Originals(w) && c.a1 == c.a2
    ensures FixupsOf(w, c) != [] <==> |Adjacent(Live(w), c.a1)| == 1
  {
    WholeInsertionIff(w, c);
    if Whole(w, c) {
      var rev := Owner(w, c);
    } else {
      assert LineFixups(Live(w), c, c.a2) == [];
    }
  }

  /** There are fixups for a chunk exactly if something of it is amended. */
  lemma AdoptedChunkIff(w: Lines, c: Chunk)
    requires Inside(w, c) && Originals(w)
    ensures FixupsOf(w, c) != [] <==> Adopts(w, c)
  {
    if c.a1 == c.a2 {
      InsertionAdopted(w, c);
    } else if Whole(w, c) {
      WholeAdopted(w, c);
    } else {
      NotWholeAdopted(w, c);
    }
  }
}
