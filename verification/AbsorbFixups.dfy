/**
 The fixups of absorb: what one does, what any list of them does to every revision at once,
 and that merging neighbours changes nothing.
 */
module AbsorbFixups {
  import opened Lists
  import opened Weave

  /** From linelog revision `rev` on, target lines `[b1, b2)` replace the live lines `[a1, a2)`. */
  datatype Fixup = Fixup(rev: nat, a1: nat, a2: nat, b1: nat, b2: nat)

  /**
   A fixup amends lines of one single revision, between which no hidden line lies, right behind
   that revision; or it is an insertion before a line that is not newer.
   */
  ghost predicate FixupOk(w: Lines, f: Fixup) {
    && f.rev % 2 == 0 && f.rev >= 4
    && f.a1 <= f.a2 <= |Live(w)| && f.b1 <= f.b2
    && (forall i :: f.a1 <= i < f.a2 ==> Live(w)[i].rev + 1 == f.rev)
    && EndOffset(w, f.a1, f.a2) - Offset(w, f.a1) == f.a2 - f.a1
    && (f.a1 == f.a2 && f.a1 < |Live(w)| ==> Live(w)[f.a1].rev <= f.rev)
  }

  ghost predicate Ordered(fs: seq<Fixup>) {
    forall i, j :: 0 <= i < j < |fs| ==> fs[i].a2 <= fs[j].a1 && fs[i].a1 < fs[j].a1
  }

  ghost predicate AllOk(w: Lines, fs: seq<Fixup>) {
    Ordered(fs) && forall i :: 0 <= i < |fs| ==> FixupOk(w, fs[i])
  }

  // ---------------------------------------------------------------------------------------
  // Simultaneous substitution

  /** In place of `len` elements from `at` on come those of `with`. */
  datatype Subst<T> = Subst(at: nat, len: nat, with: seq<T>)

  ghost predicate Within<T>(ss: seq<Subst<T>>, n: nat) {
    ss == [] || (ss[|ss| - 1].at + ss[|ss| - 1].len <= n && Within(ss[..|ss| - 1], ss[|ss| - 1].at))
  }

  /** All substitutions at once; their places count in the original sequence. */
  ghost function Substitute<T>(s: seq<T>, ss: seq<Subst<T>>): seq<T>
    requires Within(ss, |s|)
    decreases |ss|
  {
    if ss == [] then s
    else
      var last := ss[|ss| - 1];
      Substitute(s[..last.at], ss[..|ss| - 1]) + (last.with + s[last.at + last.len..])
  }

  lemma {:induction false} WithinLonger<T>(ss: seq<Subst<T>>, n: nat, m: nat)
    requires Within(ss, n) && n <= m
    ensures Within(ss, m)
  {
  }

  lemma {:induction false} SubstitutePrefix<T>(x: seq<T>, y: seq<T>, ss: seq<Subst<T>>)
    requires Within(ss, |x|)
    ensures Within(ss, |x + y|) && Substitute(x + y, ss) == Substitute(x, ss) + y
  {
    if ss != [] {
      var last := ss[|ss| - 1];
      SlicesOfConcat(x, y, last.at, last.at + last.len);
      Reassociate(Substitute(x[..last.at], ss[..|ss| - 1]), last.with, x[last.at + last.len..], y);
    }
  }

  lemma SlicesOfConcat<T>(x: seq<T>, y: seq<T>, i: nat, j: nat)
    requires i <= j <= |x|
    ensures (x + y)[..i] == x[..i] && (x + y)[j..] == x[j..] + y
  {
  }

  lemma Reassociate<T>(a: seq<T>, b: seq<T>, c: seq<T>, d: seq<T>)
    ensures a + (b + (c + d)) == (a + (b + c)) + d
  {
  }

  lemma SubstituteSnoc<T>(s: seq<T>, ss: seq<Subst<T>>, last: Subst<T>)
    requires last.at + last.len <= |s| && Within(ss, last.at)
    ensures Within(ss + [last], |s|)
    ensures Substitute(s, ss + [last]) == Substitute(s[..last.at], ss) + (last.with + s[last.at + last.len..])
  {
    assert (ss + [last])[..|ss|] == ss;
  }

  lemma SubstituteTouching<T>(s: seq<T>, ss: seq<Subst<T>>, f: Subst<T>, g: Subst<T>)
    requires g.at == f.at + f.len && g.at + g.len <= |s| && Within(ss, f.at)
    ensures Within(ss + [f], g.at) && Within(ss + [f] + [g], |s|)
    ensures Substitute(s, ss + [f] + [g]) == (Substitute(s[..f.at], ss) + f.with) + (g.with + s[g.at + g.len..])
  {
    var t := s[..g.at];
    SubstituteSnoc(t, ss, f);
    assert t[..f.at] == s[..f.at] && t[f.at + f.len..] == [];
    assert f.with + [] == f.with;
    SubstituteSnoc(s, ss + [f], g);
  }

  /** Two touching substitutions are one. */
  lemma SubstituteMerged<T>(s: seq<T>, ss: seq<Subst<T>>, f: Subst<T>, g: Subst<T>)
    requires g.at == f.at + f.len && g.at + g.len <= |s| && Within(ss, f.at)
    ensures Within(ss + [f] + [g], |s|) && Within(ss + [Subst(f.at, f.len + g.len, f.with + g.with)], |s|)
    ensures Substitute(s, ss + [f] + [g]) == Substitute(s, ss + [Subst(f.at, f.len + g.len, f.with + g.with)])
  {
    SubstituteTouching(s, ss, f, g);
    SubstituteSnoc(s, ss, Subst(f.at, f.len + g.len, f.with + g.with));
    Regroup(Substitute(s[..f.at], ss), f.with, g.with, s[g.at + g.len..]);
  }

  lemma Regroup<T>(a: seq<T>, b: seq<T>, c: seq<T>, d: seq<T>)
    ensures (a + b) + (c + d) == a + ((b + c) + d)
  {
  }

  /** Lists of substitutions with the same effect have it on what lies before them, too. */
  lemma SameFront<T>(s: seq<T>, ss: seq<Subst<T>>, tt: seq<Subst<T>>, k: nat)
    requires k <= |s| && Within(ss, k) && Within(tt, k)
    requires Within(ss, |s|) && Within(tt, |s|) && Substitute(s, ss) == Substitute(s, tt)
    ensures Substitute(s[..k], ss) == Substitute(s[..k], tt)
  {
    SubstituteFront(s, ss, k);
    SubstituteFront(s, tt, k);
    CancelSuffix(Substitute(s[..k], ss), Substitute(s[..k], tt), s[k..]);
  }

  lemma SubstituteFront<T>(s: seq<T>, ss: seq<Subst<T>>, k: nat)
    requires k <= |s| && Within(ss, k)
    ensures ss + [] == ss && Within(ss, |s|)
    ensures Substitute(s, ss) == Substitute(s[..k], ss) + s[k..]
  {
    assert s == s[..k] + s[k..];
    SubstitutePrefix(s[..k], s[k..], ss);
  }

  lemma CancelSuffix<T>(a: seq<T>, b: seq<T>, y: seq<T>)
    requires a + y == b + y
    ensures a == b
  {
    assert |a| == |b|;
    assert a == (a + y)[..|a|] == (b + y)[..|b|] == b;
  }

  // ---------------------------------------------------------------------------------------
  // Applying fixups to a linelog

  ghost predicate Applicable(w: Lines, fs: seq<Fixup>) {
    Ordered(fs) && forall i :: 0 <= i < |fs| ==> fs[i].a1 <= fs[i].a2 <= |Live(w)| && fs[i].b1 <= fs[i].b2
  }

  lemma FrontStaysApplicable(w: Lines, fs: seq<Fixup>)
    requires fs != [] && Applicable(w, fs)
    ensures var f := fs[|fs| - 1];
            Applicable(ReplaceLines(w, f.rev, f.a1, f.a2, f.b1, f.b2), fs[..|fs| - 1])
  {
    var f := fs[|fs| - 1];
    ReplaceLinesLive(w, f.rev, f.a1, f.a2, f.b1, f.b2);
  }

  /** The loop of `apply`: the last fixup first, so that the places of the others stay valid. */
  ghost function ApplyAll(w: Lines, fs: seq<Fixup>): Lines
    requires Applicable(w, fs)
    decreases |fs|
  {
    if fs == [] then w
    else
      var f := fs[|fs| - 1];
      FrontStaysApplicable(w, fs);
      ApplyAll(ReplaceLines(w, f.rev, f.a1, f.a2, f.b1, f.b2), fs[..|fs| - 1])
  }

  lemma {:induction false} OffsetInPrefix(x: Lines, y: Lines, a: nat)
    requires a < |Live(x)|
    ensures Offset(x + y, a) == Offset(x, a) < |x|
  {
    if x[0].gone.Some? || a > 0 {
      assert (x + y)[1..] == x[1..] + y;
      OffsetInPrefix(x[1..], y, if x[0].gone.Some? then a else a - 1);
    }
  }

  lemma ReplaceLinesInPrefix(x: Lines, y: Lines, f: Fixup)
    requires f.a1 <= f.a2 <= |Live(x)| && f.a1 < |Live(x)| && f.b1 <= f.b2
    ensures f.a2 <= |Live(x + y)|
    ensures ReplaceLines(x + y, f.rev, f.a1, f.a2, f.b1, f.b2) == ReplaceLines(x, f.rev, f.a1, f.a2, f.b1, f.b2) + y
  {
    ShownConcat(x, y, None);
    EndsInPrefix(x, y, f.a1, f.a2);
    EndIsBehind(x, f.a1, f.a2);
    PatchedInPrefix(x, y, Offset(x, f.a1), EndOffset(x, f.a1, f.a2), f.rev, f.b1, f.b2);
  }

  lemma EndsInPrefix(x: Lines, y: Lines, a1: nat, a2: nat)
    requires a1 <= a2 <= |Live(x)| && a1 < |Live(x)|
    ensures Offset(x + y, a1) == Offset(x, a1) && EndOffset(x + y, a1, a2) == EndOffset(x, a1, a2)
  {
    OffsetInPrefix(x, y, a1);
    if a1 < a2 {
      OffsetInPrefix(x, y, a2 - 1);
    }
  }

  lemma PatchedInPrefix(x: Lines, y: Lines, p: nat, q: nat, rev: nat, b1: nat, b2: nat)
    requires p <= q <= |x| && b1 <= b2
    ensures Patched(x + y, p, q, rev, b1, b2) == Patched(x, p, q, rev, b1, b2) + y
  {
    assert (x + y)[..p] == x[..p];
    assert (x + y)[p..q] == x[p..q];
    assert (x + y)[q..] == x[q..] + y;
  }

  lemma {:induction false} ApplyAllInPrefix(x: Lines, y: Lines, fs: seq<Fixup>)
    requires Applicable(x, fs) && forall i :: 0 <= i < |fs| ==> fs[i].a1 < |Live(x)|
    ensures Applicable(x + y, fs) && ApplyAll(x + y, fs) == ApplyAll(x, fs) + y
    decreases |fs|
  {
    ShownConcat(x, y, None);
    if fs != [] {
      var f, front := fs[|fs| - 1], fs[..|fs| - 1];
      ReplaceLinesInPrefix(x, y, f);
      ReplaceLinesLive(x, f.rev, f.a1, f.a2, f.b1, f.b2);
      FrontStaysApplicable(x, fs);
      ApplyAllInPrefix(ReplaceLines(x, f.rev, f.a1, f.a2, f.b1, f.b2), y, front);
    }
  }

  // ---------------------------------------------------------------------------------------
  // What fixups do to every single revision

  /** How many lines revision `r` has before a live line. */
  function Place(w: Lines, r: nat, a: nat): nat {
    |Annotate(w[..Offset(w, a)], r)|
  }

  /** The fixups a revision gets to see, at their places in that revision. */
  function SubstsAt(w: Lines, fs: seq<Fixup>, r: nat): seq<Subst<Id>>
    requires forall i :: 0 <= i < |fs| ==> fs[i].a1 <= fs[i].a2 && fs[i].b1 <= fs[i].b2
  {
    if fs == [] then []
    else
      var f := fs[|fs| - 1];
      SubstsAt(w, fs[..|fs| - 1], r) + SubstAt(w, f, r)
  }

  function SubstAt(w: Lines, f: Fixup, r: nat): seq<Subst<Id>>
    requires f.a1 <= f.a2 && f.b1 <= f.b2
  {
    if f.rev <= r then [Subst(Place(w, r, f.a1), f.a2 - f.a1, NewIds(f.rev, f.b1, f.b2))] else []
  }

  lemma AllOkIsApplicable(w: Lines, fs: seq<Fixup>)
    requires AllOk(w, fs)
    ensures Applicable(w, fs)
  {
    assert forall i :: 0 <= i < |fs| ==> FixupOk(w, fs[i]);
  }

  /** If as many lines are live as there are, all are. */
  lemma {:induction false} FullyLive(w: Lines)
    ensures |Live(w)| <= |w|
    ensures |Live(w)| == |w| ==> forall i :: 0 <= i < |w| ==> w[i].gone.None? && Live(w)[i] == Id(w[i].rev, w[i].num)
  {
    if w != [] {
      FullyLive(w[1..]);
      assert forall i :: 0 < i < |w| ==> w[i] == w[1..][i - 1];
    }
  }

  lemma {:induction false} LiveAndOldIsShown(w: Lines, r: nat)
    requires forall i :: 0 <= i < |w| ==> w[i].gone.None? && w[i].rev <= r
    ensures |Annotate(w, r)| == |w|
  {
    if w != [] {
      assert Visible(w[0], Some(r));
      LiveAndOldIsShown(w[1..], r);
    }
  }

  /** A revision that sees a fixup has exactly the amended lines between its ends. */
  lemma FixupSpan(w: Lines, f: Fixup, r: nat)
    requires FixupOk(w, f) && f.rev <= r
    ensures Offset(w, f.a1) <= EndOffset(w, f.a1, f.a2) <= |w|
    ensures |Annotate(w[Offset(w, f.a1)..EndOffset(w, f.a1, f.a2)], r)| == f.a2 - f.a1
  {
    var p, q := Offset(w, f.a1), EndOffset(w, f.a1, f.a2);
    EndIsBehind(w, f.a1, f.a2);
    LiveAt(w, f.a1);
    LiveBehind(w, f.a1, f.a2);
    var mid := w[p..q];
    assert w[p..] == mid + w[q..];
    ShownConcat(mid, w[q..], None);
    assert Live(mid) == Live(w)[f.a1..f.a2];
    FullyLive(mid);
    forall i | 0 <= i < |mid|
      ensures mid[i].gone.None? && mid[i].rev <= r
    {
      assert Live(mid)[i] == Live(w)[f.a1 + i];
    }
    LiveAndOldIsShown(mid, r);
  }

  lemma PrefixOffset(w: Lines, p: nat, a: nat)
    requires p <= |w| && a < |Live(w[..p])|
    ensures Offset(w[..p], a) == Offset(w, a) < p
  {
    assert w == w[..p] + w[p..];
    OffsetInPrefix(w[..p], w[p..], a);
  }

  /** What is a sound fixup of a linelog is one of the part before a later fixup. */
  lemma FixupOkInPrefix(w: Lines, p: nat, f: Fixup)
    requires p <= |w| && FixupOk(w, f) && f.a1 < |Live(w[..p])| && f.a2 <= |Live(w[..p])|
    ensures FixupOk(w[..p], f)
  {
    ShownSplit(w, p, None);
    PrefixOffset(w, p, f.a1);
    if f.a1 < f.a2 {
      PrefixOffset(w, p, f.a2 - 1);
    }
    forall i | 0 <= i < |Live(w[..p])|
      ensures Live(w[..p])[i] == Live(w)[i]
    {
    }
  }

  lemma {:induction false} SubstsAtPrefix(w: Lines, p: nat, fs: seq<Fixup>, r: nat)
    requires p <= |w| && forall i :: 0 <= i < |fs| ==>
             fs[i].a1 <= fs[i].a2 && fs[i].b1 <= fs[i].b2 && fs[i].a1 < |Live(w[..p])|
    ensures SubstsAt(w[..p], fs, r) == SubstsAt(w, fs, r)
  {
    if fs != [] {
      var f := fs[|fs| - 1];
      SubstsAtPrefix(w, p, fs[..|fs| - 1], r);
      PrefixOffset(w, p, f.a1);
      assert w[..p][..Offset(w, f.a1)] == w[..Offset(w, f.a1)];
    }
  }

  lemma FrontInPrefix(w: Lines, fs: seq<Fixup>)
    requires fs != [] && AllOk(w, fs)
    ensures var f, front := fs[|fs| - 1], fs[..|fs| - 1];
            && Offset(w, f.a1) <= |w| && |Live(w[..Offset(w, f.a1)])| == f.a1
            && AllOk(w[..Offset(w, f.a1)], front)
            && forall i :: 0 <= i < |front| ==> front[i].a1 < f.a1
  {
    var f, front := fs[|fs| - 1], fs[..|fs| - 1];
    assert FixupOk(w, f);
    OffsetCounts(w, f.a1);
    forall i | 0 <= i < |front|
      ensures FixupOk(w[..Offset(w, f.a1)], front[i])
    {
      assert FixupOk(w, fs[i]);
      FixupOkInPrefix(w, Offset(w, f.a1), fs[i]);
    }
  }

  lemma AllOkFormed(w: Lines, fs: seq<Fixup>)
    requires AllOk(w, fs)
    ensures forall i :: 0 <= i < |fs| ==> fs[i].a1 <= fs[i].a2 && fs[i].b1 <= fs[i].b2
  {
    assert forall i :: 0 <= i < |fs| ==> FixupOk(w, fs[i]);
  }

  /** The last fixup on its own: what lies before its place is left to the others. */
  lemma LastFixupShows(w: Lines, f: Fixup, r: nat)
    requires FixupOk(w, f)
    ensures Offset(w, f.a1) <= |w|
    ensures var p := Offset(w, f.a1);
            var tail := ReplaceLines(w, f.rev, f.a1, f.a2, f.b1, f.b2)[p..];
            && ReplaceLines(w, f.rev, f.a1, f.a2, f.b1, f.b2) == w[..p] + tail
            && Place(w, r, f.a1) <= |Annotate(w, r)|
            && (f.rev <= r ==> Place(w, r, f.a1) + (f.a2 - f.a1) <= |Annotate(w, r)|)
            && Annotate(w, r)[..Place(w, r, f.a1)] == Annotate(w[..p], r)
            && Annotate(tail, r) == if f.rev <= r
                                   then NewIds(f.rev, f.b1, f.b2) + Annotate(w, r)[Place(w, r, f.a1) + (f.a2 - f.a1)..]
                                   else Annotate(w, r)[Place(w, r, f.a1)..]
  {
    var p, q := Offset(w, f.a1), EndOffset(w, f.a1, f.a2);
    EndIsBehind(w, f.a1, f.a2);
    var w' := ReplaceLines(w, f.rev, f.a1, f.a2, f.b1, f.b2);
    var tail := w'[p..];
    assert w'[..p] == w[..p];
    assert w' == w[..p] + tail;
    ShownConcat(w[..p], tail, Some(r));
    ReplaceLinesShows(w, f.rev, f.a1, f.a2, f.b1, f.b2, Some(r));
    WhenOlder(w, p, q, Some(r));
    if f.rev <= r {
      FixupSpan(w, f, r);
    }
    CancelPrefix(Annotate(w[..p], r), Annotate(w[p..q], r), Annotate(w[q..], r), Annotate(tail, r),
                 NewIds(f.rev, f.b1, f.b2), f.rev <= r);
  }

  lemma CancelPrefix<T>(x: seq<T>, m: seq<T>, z: seq<T>, tail: seq<T>, added: seq<T>, replaced: bool)
    requires x + tail == if replaced then x + (added + z) else (x + m) + z
    ensures tail == if replaced then added + z else m + z
    ensures ((x + m) + z)[..|x|] == x
    ensures ((x + m) + z)[|x| + |m|..] == z
    ensures ((x + m) + z)[|x|..] == m + z
  {
    assert tail == (x + tail)[|x|..];
    assert (x + (added + z))[|x|..] == added + z;
  }

  function LastPlace(w: Lines, fs: seq<Fixup>): (p: nat)
    requires fs != []
    ensures p <= |w|
  {
    Offset(w, fs[|fs| - 1].a1)
  }

  /** The last fixup affects what lies from its place on, the others what lies before. */
  lemma ApplyAllSplits(w: Lines, fs: seq<Fixup>)
    requires fs != [] && AllOk(w, fs)
    ensures AllOk(w[..LastPlace(w, fs)], fs[..|fs| - 1])
    ensures Applicable(w, fs) && Applicable(w[..LastPlace(w, fs)], fs[..|fs| - 1])
    ensures var f, p := fs[|fs| - 1], LastPlace(w, fs);
            && f.a1 <= f.a2 <= |Live(w)| && f.b1 <= f.b2
            && p <= |ReplaceLines(w, f.rev, f.a1, f.a2, f.b1, f.b2)|
            && ApplyAll(w, fs)
            == ApplyAll(w[..p], fs[..|fs| - 1]) + ReplaceLines(w, f.rev, f.a1, f.a2, f.b1, f.b2)[p..]
  {
    var f, front := fs[|fs| - 1], fs[..|fs| - 1];
    assert FixupOk(w, f);
    AllOkIsApplicable(w, fs);
    FrontInPrefix(w, fs);
    var x := w[..LastPlace(w, fs)];
    AllOkIsApplicable(x, front);
    LastFixupShows(w, f, 0);
    ApplyAllInPrefix(x, ReplaceLines(w, f.rev, f.a1, f.a2, f.b1, f.b2)[LastPlace(w, fs)..], front);
  }

  ghost predicate ReplaysTo(w: Lines, fs: seq<Fixup>, r: nat) {
    && Applicable(w, fs) && (forall i :: 0 <= i < |fs| ==> fs[i].a1 <= fs[i].a2 && fs[i].b1 <= fs[i].b2)
    && Within(SubstsAt(w, fs, r), |Annotate(w, r)|)
    && Annotate(ApplyAll(w, fs), r) == Substitute(Annotate(w, r), SubstsAt(w, fs, r))
  }

  /**
   After all fixups, every revision is what it was with the fixups it sees put in their places,
   all at once. A revision older than a fixup does not see it.
   */
  lemma {:induction false} FixupsSubstituteEverywhere(w: Lines, fs: seq<Fixup>, r: nat)
    requires AllOk(w, fs)
    ensures ReplaysTo(w, fs, r)
    decreases |fs|
  {
    AllOkIsApplicable(w, fs);
    AllOkFormed(w, fs);
    if fs != [] {
      var front, p := fs[..|fs| - 1], LastPlace(w, fs);
      ApplyAllSplits(w, fs);
      FixupsSubstituteEverywhere(w[..p], front, r);
      LastSubstitutes(w, fs, r);
    }
  }

  /** What comes of all fixups, given what comes of all but the last before its place. */
  lemma LastSubstitutes(w: Lines, fs: seq<Fixup>, r: nat)
    requires fs != [] && AllOk(w, fs) && ReplaysTo(w[..LastPlace(w, fs)], fs[..|fs| - 1], r)
    ensures ReplaysTo(w, fs, r)
  {
    LastShows(w, fs, r);
    FrontSubstsAt(w, fs, r);
    AllOkFormed(w, fs);
    OneMoreFixup(w, fs[|fs| - 1], SubstsAt(w, fs[..|fs| - 1], r), r,
                 Annotate(ApplyAll(w[..LastPlace(w, fs)], fs[..|fs| - 1]), r));
  }

  lemma OneMoreFixup(w: Lines, f: Fixup, ss: seq<Subst<Id>>, r: nat, x: seq<Id>)
    requires FixupOk(w, f) && Offset(w, f.a1) <= |w|
    requires Within(ss, Place(w, r, f.a1)) && x == Substitute(Annotate(w[..Offset(w, f.a1)], r), ss)
    ensures Within(ss + SubstAt(w, f, r), |Annotate(w, r)|)
    ensures x + Annotate(LastTail(w, f), r) == Substitute(Annotate(w, r), ss + SubstAt(w, f, r))
  {
    LastTailShows(w, f, r);
    OneMoreSubst(Annotate(w, r), ss, Place(w, r, f.a1), SubstAt(w, f, r));
  }

  /** At most one substitution more, at place `at`, behind all others. */
  ghost predicate NextIs<T>(s: seq<T>, at: nat, more: seq<Subst<T>>) {
    at <= |s| && |more| <= 1 && (more != [] ==> more[0].at == at && at + more[0].len <= |s|)
  }

  ghost function From<T>(s: seq<T>, at: nat, more: seq<Subst<T>>): seq<T>
    requires NextIs(s, at, more)
  {
    if more == [] then s[at..] else more[0].with + s[at + more[0].len..]
  }

  lemma OneMoreSubst<T>(s: seq<T>, ss: seq<Subst<T>>, at: nat, more: seq<Subst<T>>)
    requires NextIs(s, at, more) && Within(ss, at)
    ensures Within(ss + more, |s|) && Substitute(s, ss + more) == Substitute(s[..at], ss) + From(s, at, more)
  {
    if more == [] {
      SubstituteFront(s, ss, at);
    } else {
      OneElement(more);
      SubstituteSnoc(s, ss, more[0]);
    }
  }

  lemma OneElement<T>(s: seq<T>)
    requires |s| == 1
    ensures s == [s[0]]
  {
  }

  lemma FrontSubstsAt(w: Lines, fs: seq<Fixup>, r: nat)
    requires fs != [] && AllOk(w, fs)
    ensures forall i :: 0 <= i < |fs| - 1 ==> fs[i].a1 <= fs[i].a2 && fs[i].b1 <= fs[i].b2
    ensures SubstsAt(w[..LastPlace(w, fs)], fs[..|fs| - 1], r) == SubstsAt(w, fs[..|fs| - 1], r)
  {
    AllOkFormed(w, fs);
    FrontInPrefix(w, fs);
    SubstsAtPrefix(w, LastPlace(w, fs), fs[..|fs| - 1], r);
  }

  lemma LastShows(w: Lines, fs: seq<Fixup>, r: nat)
    requires fs != [] && AllOk(w, fs) && Applicable(w[..LastPlace(w, fs)], fs[..|fs| - 1])
    ensures Applicable(w, fs) && FixupOk(w, fs[|fs| - 1])
    ensures Annotate(ApplyAll(w, fs), r)
         == Annotate(ApplyAll(w[..LastPlace(w, fs)], fs[..|fs| - 1]), r) + Annotate(LastTail(w, fs[|fs| - 1]), r)
  {
    assert FixupOk(w, fs[|fs| - 1]);
    ApplyAllSplits(w, fs);
    ShownConcat(ApplyAll(w[..LastPlace(w, fs)], fs[..|fs| - 1]), LastTail(w, fs[|fs| - 1]), Some(r));
  }

  ghost function LastTail(w: Lines, f: Fixup): Lines
    requires FixupOk(w, f)
  {
    LastFixupShows(w, f, 0);
    ReplaceLines(w, f.rev, f.a1, f.a2, f.b1, f.b2)[Offset(w, f.a1)..]
  }

  lemma LastTailShows(w: Lines, f: Fixup, r: nat)
    requires FixupOk(w, f)
    ensures Place(w, r, f.a1) <= |Annotate(w, r)|
    ensures Annotate(w[..Offset(w, f.a1)], r) == Annotate(w, r)[..Place(w, r, f.a1)]
    ensures NextIs(Annotate(w, r), Place(w, r, f.a1), SubstAt(w, f, r))
    ensures Annotate(LastTail(w, f), r) == From(Annotate(w, r), Place(w, r, f.a1), SubstAt(w, f, r))
  {
    LastFixupShows(w, f, r);
  }

  /** A revision older than all fixups stays as it is. */
  lemma OlderRevisionsUnchanged(w: Lines, fs: seq<Fixup>, r: nat)
    requires AllOk(w, fs) && forall i :: 0 <= i < |fs| ==> r < fs[i].rev
    ensures Applicable(w, fs) && Annotate(ApplyAll(w, fs), r) == Annotate(w, r)
  {
    FixupsSubstituteEverywhere(w, fs, r);
    NothingSeen(w, fs, r);
  }

  lemma {:induction false} NothingSeen(w: Lines, fs: seq<Fixup>, r: nat)
    requires forall i :: 0 <= i < |fs| ==> r < fs[i].rev && fs[i].a1 <= fs[i].a2 && fs[i].b1 <= fs[i].b2
    ensures SubstsAt(w, fs, r) == []
  {
    if fs != [] {
      NothingSeen(w, fs[..|fs| - 1], r);
    }
  }
}
