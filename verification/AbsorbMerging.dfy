/** Merging adjacent fixups: it leaves fewer of them, which do the same to every revision. */
module AbsorbMerging {
  import opened Lists
  import opened Weave
  import opened LinelogSlots
  import opened Linelog
  import opened Absorb
  import opened AbsorbFixups

  /**
   `_iscontinuous`: no hidden line among the live lines `[a1, a2)`, or `[a1, a2]` if closed.
   Ranges that are empty or turned around are continuous.
   */
  predicate IsContinuous(w: Lines, a1: nat, a2: int, closed: bool) {
    var more := if closed then 1 else 0;
    a1 >= a2 || Offset(w, a2) + more - Offset(w, a1) == a2 - a1 + more
  }

  predicate Joins(w: Lines, f: Fixup, g: Fixup) {
    && g.a1 == f.a2 && g.b1 == f.b2 && g.rev == f.rev
    && IsContinuous(w, if g.a1 == 0 then 0 else g.a1 - 1, g.a1, false)
  }

  function Joined(f: Fixup, g: Fixup): Fixup {
    f.(a2 := g.a2, b2 := g.b2)
  }

  function Push(w: Lines, fs: seq<Fixup>, g: Fixup): seq<Fixup> {
    if fs != [] && Joins(w, fs[|fs| - 1], g)
    then fs[..|fs| - 1] + [Joined(fs[|fs| - 1], g)]
    else fs + [g]
  }

  ghost function Merged(w: Lines, fs: seq<Fixup>): seq<Fixup> {
    if fs == [] then [] else Push(w, Merged(w, fs[..|fs| - 1]), fs[|fs| - 1])
  }

  /** `_iscontinuous`, by counting the lines the program holds between the two places. */
  method CheckContinuous(l: LineLog, a1: nat, a2: int, closed: bool) returns (r: bool)
    requires IsAnnotated(l) && (a1 < a2 ==> a2 < |Live(l.Contents())|)
    ensures r == IsContinuous(l.Contents(), a1, a2, closed)
  {
    if a1 >= a2 {
      return true;
    }
    InfosAreShown(l.log.slots, None);
    var more := if closed then 1 else 0;
    var offset1 := l.GetOffset(a1);
    var offset2 := l.GetOffset(a2);
    ghost var i, j := LinesBetween(l.log.slots, a1, a2, more);
    var ok, lines := l.GetAllLines(offset1, offset2 + more, i, j);
    r := |lines| == a2 - a1 + more;
  }

  /** No line that was deleted lies among these places. */
  ghost predicate NothingHidden(w: Lines, p: nat, q: nat) {
    forall k :: p <= k < q && k < |w| ==> w[k].gone.None?
  }

  lemma {:induction false} AllLive(w: Lines)
    requires forall l :: l in w ==> l.gone.None?
    ensures |Live(w)| == |w|
  {
    if w != [] {
      assert w[0] in w && forall l :: l in w[1..] ==> l in w;
      AllLive(w[1..]);
    }
  }

  lemma AllLiveIff(w: Lines, p: nat, q: nat)
    requires p <= q <= |w|
    ensures |Live(w[p..q])| == q - p <==> NothingHidden(w, p, q)
  {
    var x := w[p..q];
    FullyLive(x);
    if NothingHidden(w, p, q) {
      AllLive(x);
    }
    if |Live(x)| == |x| {
      assert forall k :: p <= k < q ==> x[k - p] == w[k];
    }
  }

  /** Between two live lines as many lines lie as live ones exactly if none of them was deleted. */
  lemma ContinuousIff(w: Lines, a1: nat, a2: nat, closed: bool)
    requires a1 < a2 < |Live(w)|
    ensures IsContinuous(w, a1, a2, closed) <==>
              NothingHidden(w, Offset(w, a1), Offset(w, a2) + if closed then 1 else 0)
  {
    LiveCount(w, a1, a2, closed);
    AllLiveIff(w, Offset(w, a1), Offset(w, a2) + if closed then 1 else 0);
  }

  lemma LiveCount(w: Lines, a1: nat, a2: nat, closed: bool)
    requires a1 < a2 < |Live(w)|
    ensures var more := if closed then 1 else 0;
            && Offset(w, a1) <= Offset(w, a2) + more <= |w|
            && |Live(w[Offset(w, a1)..Offset(w, a2) + more])| == a2 - a1 + more
  {
    LiveFrom(w, a1);
    LiveFrom(w, a2);
    OffsetsAscend(w, a1, a2);
    LiveSlice(w, Offset(w, a1), Offset(w, a2) + if closed then 1 else 0);
  }

  lemma LiveFrom(w: Lines, a: nat)
    requires a < |Live(w)|
    ensures Offset(w, a) < |w| && |Live(w[Offset(w, a)..])| == |Live(w)| - a
    ensures |Live(w[Offset(w, a) + 1..])| == |Live(w)| - a - 1
  {
    LiveAt(w, a);
    LiveAfter(w, a);
  }

  lemma LiveSlice(w: Lines, p: nat, q: nat)
    requires p <= q <= |w|
    ensures |Live(w[p..])| == |Live(w[p..q])| + |Live(w[q..])|
  {
    assert w[p..][q - p..] == w[q..] && w[p..][..q - p] == w[p..q];
    ShownSplit(w[p..], q - p, None);
  }

  /** The linelog is sound, and the newest revision is annotated. */
  ghost predicate IsAnnotated(l: LineLog)
    reads l
  {
    Ready(l) && l.lastannotate.Some?
  }

  method CheckJoins(l: LineLog, f: Fixup, g: Fixup) returns (r: bool)
    requires IsAnnotated(l) && g.a1 < |Live(l.Contents())|
    ensures r == Joins(l.Contents(), f, g)
  {
    r := false;
    if g.a1 == f.a2 && g.b1 == f.b2 && g.rev == f.rev {
      r := CheckContinuous(l, if g.a1 == 0 then 0 else g.a1 - 1, g.a1, false);
    }
  }

  /** `_optimizefixups`: the fixup at hand is held back for as long as it may still grow. */
  method OptimizeFixups(l: LineLog, fixups: seq<Fixup>) returns (result: seq<Fixup>)
    requires IsAnnotated(l)
    requires forall i :: 0 < i < |fixups| ==> fixups[i].a1 < |Live(l.Contents())|
    ensures result == Merged(l.Contents(), fixups)
  {
    result := [];
    var current: Option<Fixup> := None;
    ghost var w := l.Contents();
    for i := 0 to |fixups|
      invariant current == None ==> i == 0
      invariant Merged(w, fixups[..i]) == if current.Some? then result + [current.value] else result
    {
      var chunk, joins := fixups[i], false;
      assert fixups[..i + 1][..i] == fixups[..i];
      if current.Some? {
        joins := CheckJoins(l, current.value, chunk);
      }
      if joins {
        current := Some(Joined(current.value, chunk));
      } else {
        if current.Some? {
          result := result + [current.value];
        }
        current := Some(chunk);
      }
    }
    if current.Some? {
      result := result + [current.value];
    }
    assert fixups[..|fixups|] == fixups;
  }

  ghost predicate FullyMerged(w: Lines, m: seq<Fixup>) {
    forall i, j :: 0 <= i && i + 1 == j < |m| ==> !Joins(w, m[i], m[j])
  }

  /** Merging goes as far as it can. */
  lemma {:induction false} NothingLeftToMerge(w: Lines, fs: seq<Fixup>)
    ensures FullyMerged(w, Merged(w, fs))
  {
    if fs != [] {
      NothingLeftToMerge(w, fs[..|fs| - 1]);
      PushFullyMerged(w, Merged(w, fs[..|fs| - 1]), fs[|fs| - 1]);
    }
  }

  lemma PushFullyMerged(w: Lines, m: seq<Fixup>, g: Fixup)
    requires FullyMerged(w, m)
    ensures FullyMerged(w, Push(w, m, g))
  {
  }

  /**
   No two neighbours are left that touch, are of one revision, and have no deleted line between
   the live lines at the place where they touch.
   */
  lemma NoTouchingNeighbours(w: Lines, fs: seq<Fixup>, i: nat)
    requires i + 1 < |Merged(w, fs)| && Merged(w, fs)[i + 1].a1 < |Live(w)|
    ensures var f, g := Merged(w, fs)[i], Merged(w, fs)[i + 1];
            g.a1 == f.a2 && g.b1 == f.b2 && g.rev == f.rev ==>
              g.a1 > 0 && !NothingHidden(w, Offset(w, g.a1 - 1), Offset(w, g.a1))
  {
    NothingLeftToMerge(w, fs);
    var g := Merged(w, fs)[i + 1];
    assert !Joins(w, Merged(w, fs)[i], g);
    if g.a1 > 0 {
      ContinuousIff(w, g.a1 - 1, g.a1, false);
    }
  }

  // ---------------------------------------------------------------------------------------
  // Two fixups in one

  lemma JoinedOk(w: Lines, f: Fixup, g: Fixup)
    requires FixupOk(w, f) && FixupOk(w, g) && Joins(w, f, g) && f.a1 < g.a1
    ensures FixupOk(w, Joined(f, g)) && Offset(w, g.a1) == EndOffset(w, f.a1, f.a2)
  {
    forall i | f.a1 <= i < g.a2
      ensures Live(w)[i].rev + 1 == f.rev
    {
      assert i < f.a2 || g.a1 <= i;
    }
  }

  /** For a revision that sees them, the second starts where the first one ends. */
  lemma JoinedPlaces(w: Lines, f: Fixup, g: Fixup, r: nat)
    requires FixupOk(w, f) && FixupOk(w, g) && Joins(w, f, g) && f.a1 < g.a1 && f.rev <= r
    ensures Place(w, r, g.a1) == Place(w, r, f.a1) + (f.a2 - f.a1)
  {
    JoinedOk(w, f, g);
    FixupSpan(w, f, r);
    PrefixShows(w, Offset(w, f.a1), Offset(w, g.a1), Some(r));
  }

  lemma NewIdsConcat(rev: nat, b1: nat, b2: nat, b3: nat)
    requires b1 <= b2 <= b3
    ensures NewIds(rev, b1, b2) + NewIds(rev, b2, b3) == NewIds(rev, b1, b3)
  {
  }

  // ---------------------------------------------------------------------------------------
  // Merging all of them

  ghost predicate Formed(fs: seq<Fixup>) {
    forall i :: 0 <= i < |fs| ==> fs[i].a1 <= fs[i].a2 && fs[i].b1 <= fs[i].b2
  }

  /** Both lists of fixups fit revision `r`, and give it the same lines. */
  ghost predicate Alike(w: Lines, fs: seq<Fixup>, gs: seq<Fixup>, r: nat) {
    && Formed(fs) && Formed(gs)
    && Within(SubstsAt(w, fs, r), |Annotate(w, r)|) && Within(SubstsAt(w, gs, r), |Annotate(w, r)|)
    && Substitute(Annotate(w, r), SubstsAt(w, fs, r)) == Substitute(Annotate(w, r), SubstsAt(w, gs, r))
  }

  lemma AllOkFront(w: Lines, fs: seq<Fixup>)
    requires fs != [] && AllOk(w, fs)
    ensures AllOk(w, fs[..|fs| - 1]) && FixupOk(w, fs[|fs| - 1]) && Formed(fs) && Formed(fs[..|fs| - 1])
  {
    var front := fs[..|fs| - 1];
    forall i | 0 <= i < |front|
      ensures FixupOk(w, front[i])
    {
      assert FixupOk(w, fs[i]);
    }
    AllOkFormed(w, fs);
  }

  lemma AllOkSnoc(w: Lines, fs: seq<Fixup>, g: Fixup)
    requires AllOk(w, fs) && FixupOk(w, g)
    requires fs != [] ==> fs[|fs| - 1].a2 <= g.a1 && fs[|fs| - 1].a1 < g.a1
    ensures AllOk(w, fs + [g])
  {
    var gs := fs + [g];
    AllOkFormed(w, fs);
    forall i | 0 <= i < |gs|
      ensures FixupOk(w, gs[i])
      ensures i < |fs| ==> gs[i].a2 <= g.a1 && gs[i].a1 < g.a1
    {
      if i < |fs| {
        assert FixupOk(w, fs[i]);
        assert i < |fs| - 1 ==> fs[i].a2 <= fs[|fs| - 1].a1;
      }
    }
  }

  /** Sound fixups, no more of them, that begin and end where others do. */
  ghost predicate Condensed(w: Lines, fs: seq<Fixup>, m: seq<Fixup>) {
    && AllOk(w, m) && |m| <= |fs|
    && (fs != [] ==> m != [] && fs[0].a1 <= m[0].a1
                     && m[|m| - 1].a2 == fs[|fs| - 1].a2 && m[|m| - 1].a1 <= fs[|fs| - 1].a1)
  }

  lemma {:induction false} MergedAllOk(w: Lines, fs: seq<Fixup>)
    requires AllOk(w, fs)
    ensures Condensed(w, fs, Merged(w, fs))
  {
    if fs != [] {
      AllOkFront(w, fs);
      MergedAllOk(w, fs[..|fs| - 1]);
      PushCondensed(w, fs, Merged(w, fs[..|fs| - 1]));
    }
  }

  lemma PushCondensed(w: Lines, fs: seq<Fixup>, m: seq<Fixup>)
    requires fs != [] && AllOk(w, fs) && Condensed(w, fs[..|fs| - 1], m)
    ensures Condensed(w, fs, Push(w, m, fs[|fs| - 1]))
  {
    AllOkFront(w, fs);
    PushOk(w, m, fs[|fs| - 1]);
  }

  lemma PushOk(w: Lines, m: seq<Fixup>, g: Fixup)
    requires AllOk(w, m) && FixupOk(w, g)
    requires m != [] ==> m[|m| - 1].a2 <= g.a1 && m[|m| - 1].a1 < g.a1
    ensures AllOk(w, Push(w, m, g))
  {
    if m != [] && Joins(w, m[|m| - 1], g) {
      var k := |m| - 1;
      AllOkFront(w, m);
      JoinedOk(w, m[k], g);
      assert k > 0 ==> m[k - 1].a2 <= m[k].a1 && m[k - 1].a1 < m[k].a1;
      AllOkSnoc(w, m[..k], Joined(m[k], g));
    } else {
      AllOkSnoc(w, m, g);
    }
  }

  lemma SubstsAtSnoc(w: Lines, fs: seq<Fixup>, g: Fixup, r: nat)
    requires Formed(fs) && g.a1 <= g.a2 && g.b1 <= g.b2
    ensures Formed(fs + [g])
    ensures SubstsAt(w, fs + [g], r) == SubstsAt(w, fs, r) + SubstAt(w, g, r)
  {
    assert (fs + [g])[..|fs|] == fs;
  }

  /** Everything before a sound fixup is before its place, in every revision. */
  lemma FrontBeforeLast(w: Lines, fs: seq<Fixup>, r: nat)
    requires fs != [] && AllOk(w, fs)
    ensures Formed(fs) && Formed(fs[..|fs| - 1])
    ensures var f := fs[|fs| - 1];
            && NextIs(Annotate(w, r), Place(w, r, f.a1), SubstAt(w, f, r))
            && Within(SubstsAt(w, fs[..|fs| - 1], r), Place(w, r, f.a1))
  {
    var p := LastPlace(w, fs);
    AllOkFront(w, fs);
    FrontInPrefix(w, fs);
    FixupsSubstituteEverywhere(w[..p], fs[..|fs| - 1], r);
    FrontSubstsAt(w, fs, r);
    LastFixupShows(w, fs[|fs| - 1], r);
  }

  /** Lists that do the same still do with one more fixup behind both. */
  lemma AlikeSnoc(w: Lines, fs: seq<Fixup>, gs: seq<Fixup>, g: Fixup, r: nat)
    requires AllOk(w, fs + [g]) && AllOk(w, gs + [g]) && Alike(w, fs, gs, r)
    ensures Alike(w, fs + [g], gs + [g], r)
  {
    assert (fs + [g])[..|fs|] == fs && (gs + [g])[..|gs|] == gs;
    FrontBeforeLast(w, fs + [g], r);
    FrontBeforeLast(w, gs + [g], r);
    SubstsAtSnoc(w, fs, g, r);
    SubstsAtSnoc(w, gs, g, r);
    ExtendedAlike(Annotate(w, r), SubstsAt(w, fs, r), SubstsAt(w, gs, r), Place(w, r, g.a1), SubstAt(w, g, r));
  }

  lemma ExtendedAlike<T>(s: seq<T>, ss: seq<Subst<T>>, tt: seq<Subst<T>>, at: nat, more: seq<Subst<T>>)
    requires NextIs(s, at, more) && Within(ss, at) && Within(tt, at)
    requires Within(ss, |s|) && Within(tt, |s|) && Substitute(s, ss) == Substitute(s, tt)
    ensures Within(ss + more, |s|) && Within(tt + more, |s|) && Substitute(s, ss + more) == Substitute(s, tt + more)
  {
    OneMoreSubst(s, ss, at, more);
    OneMoreSubst(s, tt, at, more);
    SameFront(s, ss, tt, at);
  }

  lemma AlikeJoined(w: Lines, fs: seq<Fixup>, f: Fixup, g: Fixup, r: nat)
    requires AllOk(w, fs + [f]) && AllOk(w, fs + [f] + [g]) && Joins(w, f, g)
    ensures Alike(w, fs + [f] + [g], fs + [Joined(f, g)], r)
  {
    var ss := SubstsWithTwo(w, fs, f, g, r);
    TwoInOne(w, f, g, ss, r);
  }

  lemma TwoInOne(w: Lines, f: Fixup, g: Fixup, ss: seq<Subst<Id>>, r: nat)
    requires FixupOk(w, f) && FixupOk(w, g) && f.a1 < g.a1 && Joins(w, f, g)
    requires Within(ss, Place(w, r, f.a1)) && Place(w, r, f.a1) <= |Annotate(w, r)|
    requires g.rev <= r ==> Place(w, r, g.a1) + (g.a2 - g.a1) <= |Annotate(w, r)|
    ensures var s := Annotate(w, r);
            var two, one := ss + SubstAt(w, f, r) + SubstAt(w, g, r), ss + SubstAt(w, Joined(f, g), r);
            Within(two, |s|) && Within(one, |s|) && Substitute(s, two) == Substitute(s, one)
  {
    var s, at := Annotate(w, r), Place(w, r, f.a1);
    if f.rev <= r {
      var x, y, xy := SubstsJoin(w, f, g, r);
      SubstituteMerged(s, ss, x, y);
    } else {
      assert ss + [] == ss;
      WithinLonger(ss, at, |s|);
    }
  }

  lemma SubstsJoin(w: Lines, f: Fixup, g: Fixup, r: nat) returns (x: Subst<Id>, y: Subst<Id>, xy: Subst<Id>)
    requires FixupOk(w, f) && FixupOk(w, g) && f.a1 < g.a1 && Joins(w, f, g) && f.rev <= r
    ensures SubstAt(w, f, r) == [x] && SubstAt(w, g, r) == [y] && SubstAt(w, Joined(f, g), r) == [xy]
    ensures xy == Subst(x.at, x.len + y.len, x.with + y.with) && y.at == x.at + x.len
    ensures x.at == Place(w, r, f.a1) && y.at == Place(w, r, g.a1) && y.len == g.a2 - g.a1
  {
    JoinedPlaces(w, f, g, r);
    NewIdsConcat(f.rev, f.b1, f.b2, g.b2);
    x := SubstAt(w, f, r)[0];
    y := SubstAt(w, g, r)[0];
    xy := SubstAt(w, Joined(f, g), r)[0];
  }

  lemma SubstsWithTwo(w: Lines, fs: seq<Fixup>, f: Fixup, g: Fixup, r: nat) returns (ss: seq<Subst<Id>>)
    requires AllOk(w, fs + [f]) && AllOk(w, fs + [f] + [g]) && Joins(w, f, g)
    ensures FixupOk(w, f) && FixupOk(w, g) && f.a1 < g.a1
    ensures Formed(fs + [f] + [g]) && Formed(fs + [Joined(f, g)])
    ensures SubstsAt(w, fs + [f] + [g], r) == (ss + SubstAt(w, f, r)) + SubstAt(w, g, r)
    ensures SubstsAt(w, fs + [Joined(f, g)], r) == ss + SubstAt(w, Joined(f, g), r)
    ensures Within(ss, Place(w, r, f.a1)) && Place(w, r, f.a1) <= |Annotate(w, r)|
    ensures g.rev <= r ==> Place(w, r, g.a1) + (g.a2 - g.a1) <= |Annotate(w, r)|
  {
    var both := fs + [f] + [g];
    assert both[|fs|] == f && both[..|fs| + 1] == fs + [f] && (fs + [f])[..|fs|] == fs;
    AllOkFront(w, both);
    AllOkFront(w, fs + [f]);
    FrontBeforeLast(w, both, r);
    FrontBeforeLast(w, fs + [f], r);
    SubstsAtSnoc(w, fs + [f], g, r);
    SubstsAtSnoc(w, fs, f, r);
    SubstsAtSnoc(w, fs, Joined(f, g), r);
    ss := SubstsAt(w, fs, r);
  }

  lemma AlikeTransitive(w: Lines, fs: seq<Fixup>, gs: seq<Fixup>, hs: seq<Fixup>, r: nat)
    requires Alike(w, fs, gs, r) && Alike(w, gs, hs, r)
    ensures Alike(w, fs, hs, r)
  {
  }

  lemma AlikeItself(w: Lines, fs: seq<Fixup>, r: nat)
    requires AllOk(w, fs)
    ensures Alike(w, fs, fs, r)
  {
    FixupsSubstituteEverywhere(w, fs, r);
  }

  /** The merged fixups do to every revision what the single ones do. */
  lemma {:induction false} MergedAlike(w: Lines, fs: seq<Fixup>, r: nat)
    requires AllOk(w, fs)
    ensures Alike(w, fs, Merged(w, fs), r)
  {
    if fs != [] {
      AllOkFront(w, fs);
      MergedAlike(w, fs[..|fs| - 1], r);
      MergedAllOk(w, fs[..|fs| - 1]);
      PushAlike(w, fs, Merged(w, fs[..|fs| - 1]), r);
    } else {
      AlikeItself(w, fs, r);
    }
  }

  lemma PushAlike(w: Lines, fs: seq<Fixup>, m: seq<Fixup>, r: nat)
    requires fs != [] && AllOk(w, fs) && Condensed(w, fs[..|fs| - 1], m) && Alike(w, fs[..|fs| - 1], m, r)
    ensures Alike(w, fs, Push(w, m, fs[|fs| - 1]), r)
  {
    var front, g := fs[..|fs| - 1], fs[|fs| - 1];
    AllOkFront(w, fs);
    assert fs == front + [g];
    AllOkSnoc(w, m, g);
    AlikeSnoc(w, front, m, g, r);
    if m != [] && Joins(w, m[|m| - 1], g) {
      AlikePushed(w, m, g, r);
      AlikeTransitive(w, fs, m + [g], Push(w, m, g), r);
    }
  }

  lemma AlikePushed(w: Lines, m: seq<Fixup>, g: Fixup, r: nat)
    requires m != [] && Joins(w, m[|m| - 1], g) && AllOk(w, m) && AllOk(w, m + [g])
    ensures Alike(w, m + [g], Push(w, m, g), r)
  {
    var front, f := m[..|m| - 1], m[|m| - 1];
    assert m == front + [f];
    AlikeJoined(w, front, f, g, r);
  }

  /** Replaying merged fixups gives every revision the lines it gets from the single ones. */
  lemma MergingChangesNothing(w: Lines, fs: seq<Fixup>, r: nat)
    requires AllOk(w, fs)
    ensures AllOk(w, Merged(w, fs)) && Applicable(w, fs) && Applicable(w, Merged(w, fs))
    ensures Annotate(ApplyAll(w, Merged(w, fs)), r) == Annotate(ApplyAll(w, fs), r)
  {
    MergedAllOk(w, fs);
    MergedAlike(w, fs, r);
    FixupsSubstituteEverywhere(w, fs, r);
    FixupsSubstituteEverywhere(w, Merged(w, fs), r);
  }
}
