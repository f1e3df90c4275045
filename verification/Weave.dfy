/**
 All revisions of a file at once: one ordered list of lines, each with the revision that
 introduced it and, if it is gone, the revision that deleted it. This is what a linelog
 stands for.
 */
module Weave {
  import opened Lists

  /** A line is named by its introducing revision and its number there. */
  datatype Id = Id(rev: nat, num: nat)

  datatype Line = Line(rev: nat, num: nat, gone: Option<nat>)

  type Lines = seq<Line>

  /** Is a line there in revision `at`, or, with no revision given, in the newest one? */
  predicate Visible(l: Line, at: Option<nat>) {
    match at
    case None => l.gone.None?
    case Some(r) => l.rev <= r && (l.gone.None? || r < l.gone.value)
  }

  function Ids(l: Line, at: Option<nat>): seq<Id> {
    if Visible(l, at) then [Id(l.rev, l.num)] else []
  }

  function Shown(w: Lines, at: Option<nat>): seq<Id> {
    if w == [] then [] else Ids(w[0], at) + Shown(w[1..], at)
  }

  /** The lines of revision `r`. */
  function Annotate(w: Lines, r: nat): seq<Id> {
    Shown(w, Some(r))
  }

  /** The lines that were never deleted: those of the newest revision. */
  function Live(w: Lines): seq<Id> {
    Shown(w, None)
  }

  /** The position of a live line among all lines; behind all of them for the line after the last. */
  function Offset(w: Lines, a: nat): (i: nat)
    ensures i <= |w|
  {
    if w == [] then 0
    else if w[0].gone.Some? then 1 + Offset(w[1..], a)
    else if a == 0 then 0
    else 1 + Offset(w[1..], a - 1)
  }

  /** Behind the last live line of a range, or at its start if it is empty. */
  function EndOffset(w: Lines, a1: nat, a2: nat): nat
    requires a1 <= a2
  {
    if a1 == a2 then Offset(w, a1) else Offset(w, a2 - 1) + 1
  }

  function Inserted(rev: nat, b1: nat, b2: nat): (r: Lines)
    requires b1 <= b2
    ensures |r| == b2 - b1 && forall i :: 0 <= i < |r| ==> r[i] == Line(rev, b1 + i, None)
  {
    seq(b2 - b1, i requires 0 <= i < b2 - b1 => Line(rev, b1 + i, None))
  }

  function DeletedAt(l: Line, rev: nat): Line {
    l.(gone := if l.gone.Some? && l.gone.value < rev then l.gone else Some(rev))
  }

  function Deleted(w: Lines, rev: nat): (r: Lines)
    ensures |r| == |w| && forall i :: 0 <= i < |w| ==> r[i] == DeletedAt(w[i], rev)
  {
    seq(|w|, i requires 0 <= i < |w| => DeletedAt(w[i], rev))
  }

  // ---------------------------------------------------------------------------------------
  // Reading parts of the list

  lemma {:induction false} ShownConcat(x: Lines, y: Lines, at: Option<nat>)
    ensures Shown(x + y, at) == Shown(x, at) + Shown(y, at)
  {
    if x == [] {
      assert x + y == y;
    } else {
      ShownConcat(x[1..], y, at);
      assert (x + y)[1..] == x[1..] + y;
      assert Ids(x[0], at) + (Shown(x[1..], at) + Shown(y, at)) == (Ids(x[0], at) + Shown(x[1..], at)) + Shown(y, at);
    }
  }

  lemma ShownSplit(w: Lines, i: nat, at: Option<nat>)
    requires i <= |w|
    ensures Shown(w, at) == Shown(w[..i], at) + Shown(w[i..], at)
  {
    assert w == w[..i] + w[i..];
    ShownConcat(w[..i], w[i..], at);
  }

  lemma {:induction false} OffsetCounts(w: Lines, a: nat)
    requires a <= |Live(w)|
    ensures |Live(w[..Offset(w, a)])| == a
    ensures a < |Live(w)| ==> Offset(w, a) < |w| && w[Offset(w, a)].gone.None?
  {
    if w != [] {
      var i := Offset(w, a);
      if i > 0 {
        OffsetCounts(w[1..], if w[0].gone.Some? then a else a - 1);
        assert w[..i][1..] == w[1..][..i - 1];
      }
    }
  }

  /** What lies before and from a live line on. */
  lemma LiveAt(w: Lines, a: nat)
    requires a <= |Live(w)|
    ensures Live(w[..Offset(w, a)]) == Live(w)[..a] && Live(w[Offset(w, a)..]) == Live(w)[a..]
    ensures a < |Live(w)| ==> Offset(w, a) < |w| && w[Offset(w, a)].gone.None?
    ensures a < |Live(w)| ==> Live(w)[a] == Id(w[Offset(w, a)].rev, w[Offset(w, a)].num)
  {
    OffsetCounts(w, a);
    ShownSplit(w, Offset(w, a), None);
  }

  lemma LiveAfter(w: Lines, a: nat)
    requires a < |Live(w)|
    ensures Offset(w, a) < |w| && Live(w[Offset(w, a) + 1..]) == Live(w)[a + 1..]
  {
    LiveAt(w, a);
    var tail := w[Offset(w, a)..];
    assert tail[1..] == w[Offset(w, a) + 1..];
    assert Live(tail) == [Live(w)[a]] + Live(tail[1..]);
  }

  lemma PrefixShows(w: Lines, i: nat, j: nat, at: Option<nat>)
    requires i <= j <= |w|
    ensures Shown(w[..j], at) == Shown(w[..i], at) + Shown(w[i..j], at)
  {
    ShownSplit(w[..j], i, at);
    assert w[..j][..i] == w[..i] && w[..j][i..] == w[i..j];
  }

  lemma OffsetsAscend(w: Lines, a: nat, b: nat)
    requires a <= b <= |Live(w)|
    ensures Offset(w, a) <= Offset(w, b)
    ensures a < b ==> Offset(w, a) < Offset(w, b)
  {
    OffsetCounts(w, a);
    OffsetCounts(w, b);
    if a < b && Offset(w, b) <= Offset(w, a) {
      PrefixShows(w, Offset(w, b), Offset(w, a), None);
    }
  }

  lemma EndIsBehind(w: Lines, a1: nat, a2: nat)
    requires a1 <= a2 <= |Live(w)|
    ensures Offset(w, a1) <= EndOffset(w, a1, a2) <= |w|
  {
    if a1 < a2 {
      OffsetCounts(w, a2 - 1);
      OffsetsAscend(w, a1, a2 - 1);
    }
  }

  lemma LiveBehind(w: Lines, a1: nat, a2: nat)
    requires a1 <= a2 <= |Live(w)|
    ensures EndOffset(w, a1, a2) <= |w| && Live(w[EndOffset(w, a1, a2)..]) == Live(w)[a2..]
  {
    if a1 == a2 {
      LiveAt(w, a1);
    } else {
      LiveAfter(w, a2 - 1);
    }
  }

  // ---------------------------------------------------------------------------------------
  // replacelines

  function Patched(w: Lines, p: nat, q: nat, rev: nat, b1: nat, b2: nat): Lines
    requires p <= q <= |w| && b1 <= b2
  {
    w[..p] + (Inserted(rev, b1, b2) + (Deleted(w[p..q], rev) + w[q..]))
  }

  /**
   `replacelines`: from revision `rev` on, lines `[b1, b2)` of it take the place of the live
   lines `[a1, a2)` and of whatever hidden lines lie between those.
   */
  function ReplaceLines(w: Lines, rev: nat, a1: nat, a2: nat, b1: nat, b2: nat): Lines
    requires a1 <= a2 <= |Live(w)| && b1 <= b2
  {
    var p, q := Offset(w, a1), EndOffset(w, a1, a2);
    EndIsBehind(w, a1, a2);
    Patched(w, p, q, rev, b1, b2)
  }

  lemma {:induction false} ShownInserted(rev: nat, b1: nat, b2: nat, at: Option<nat>)
    requires b1 <= b2
    ensures var ids := Shown(Inserted(rev, b1, b2), at);
            if at.Some? && at.value < rev then ids == []
            else |ids| == b2 - b1 && forall i :: 0 <= i < |ids| ==> ids[i] == Id(rev, b1 + i)
    decreases b2 - b1
  {
    if b1 < b2 {
      assert Inserted(rev, b1, b2)[1..] == Inserted(rev, b1 + 1, b2);
      ShownInserted(rev, b1 + 1, b2, at);
    }
  }

  lemma {:induction false} ShownDeleted(w: Lines, rev: nat, at: Option<nat>)
    ensures Shown(Deleted(w, rev), at) == if at.Some? && at.value < rev then Shown(w, at) else []
  {
    if w != [] {
      assert Deleted(w, rev)[1..] == Deleted(w[1..], rev);
      ShownDeleted(w[1..], rev, at);
    }
  }

  function NewIds(rev: nat, b1: nat, b2: nat): (r: seq<Id>)
    requires b1 <= b2
    ensures |r| == b2 - b1 && forall i :: 0 <= i < |r| ==> r[i] == Id(rev, b1 + i)
  {
    seq(b2 - b1, i requires 0 <= i < b2 - b1 => Id(rev, b1 + i))
  }

  /** Older revisions stay as they are; from `rev` on the range is replaced. */
  lemma ReplaceLinesShows(w: Lines, rev: nat, a1: nat, a2: nat, b1: nat, b2: nat, at: Option<nat>)
    requires a1 <= a2 <= |Live(w)| && b1 <= b2
    ensures Offset(w, a1) <= EndOffset(w, a1, a2) <= |w|
    ensures Shown(ReplaceLines(w, rev, a1, a2, b1, b2), at) ==
              if at.Some? && at.value < rev then Shown(w, at)
              else Shown(w[..Offset(w, a1)], at) + (NewIds(rev, b1, b2) + Shown(w[EndOffset(w, a1, a2)..], at))
  {
    EndIsBehind(w, a1, a2);
    PatchShows(w, Offset(w, a1), EndOffset(w, a1, a2), rev, b1, b2, at);
  }

  lemma PatchShows(w: Lines, p: nat, q: nat, rev: nat, b1: nat, b2: nat, at: Option<nat>)
    requires p <= q <= |w| && b1 <= b2
    ensures Shown(Patched(w, p, q, rev, b1, b2), at) ==
              if at.Some? && at.value < rev then Shown(w, at)
              else Shown(w[..p], at) + (NewIds(rev, b1, b2) + Shown(w[q..], at))
  {
    var x, y, z := Shown(w[..p], at), Shown(Deleted(w[p..q], rev), at), Shown(w[q..], at);
    assert Shown(Patched(w, p, q, rev, b1, b2), at) == x + (Shown(Inserted(rev, b1, b2), at) + (y + z)) by {
      ShownOfFour(w[..p], Inserted(rev, b1, b2), Deleted(w[p..q], rev), w[q..], at);
    }
    InsertedShows(rev, b1, b2, at);
    ShownDeleted(w[p..q], rev, at);
    if at.Some? && at.value < rev {
      assert Shown(w, at) == (x + y) + z by {
        WhenOlder(w, p, q, at);
      }
      ConcatAssociates(x, y, z);
    }
    ConcatAssociates(z, z, z);
    ConcatAssociates(y + z, z, z);
  }

  lemma WhenOlder(w: Lines, p: nat, q: nat, at: Option<nat>)
    requires p <= q <= |w|
    ensures Shown(w, at) == (Shown(w[..p], at) + Shown(w[p..q], at)) + Shown(w[q..], at)
  {
    ShownSplit(w, q, at);
    PrefixShows(w, p, q, at);
  }

  lemma ShownOfFour(a: Lines, b: Lines, c: Lines, d: Lines, at: Option<nat>)
    ensures Shown(a + (b + (c + d)), at) == Shown(a, at) + (Shown(b, at) + (Shown(c, at) + Shown(d, at)))
  {
    ShownConcat(a, b + (c + d), at);
    ShownConcat(b, c + d, at);
    ShownConcat(c, d, at);
  }

  lemma InsertedShows(rev: nat, b1: nat, b2: nat, at: Option<nat>)
    requires b1 <= b2
    ensures Shown(Inserted(rev, b1, b2), at) == if at.Some? && at.value < rev then [] else NewIds(rev, b1, b2)
  {
    ShownInserted(rev, b1, b2, at);
  }

  /** In the newest revision exactly the live lines `[a1, a2)` are replaced. */
  lemma ReplaceLinesLive(w: Lines, rev: nat, a1: nat, a2: nat, b1: nat, b2: nat)
    requires a1 <= a2 <= |Live(w)| && b1 <= b2
    ensures Live(ReplaceLines(w, rev, a1, a2, b1, b2)) == Live(w)[..a1] + (NewIds(rev, b1, b2) + Live(w)[a2..])
  {
    ReplaceLinesShows(w, rev, a1, a2, b1, b2, None);
    LiveAt(w, a1);
    LiveBehind(w, a1, a2);
  }
}
