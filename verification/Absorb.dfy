/**
 Absorb on one file: the linelog built from the revisions of a stack, the fixups derived from
 a diff between the newest of them and the target, and what applying the fixups does to every
 revision. Original contents have odd linelog revisions, fixups the even ones behind them.
 */
module Absorb {
  import opened Lists
  import opened Diff
  import opened Weave
  import opened Linelog

  type Text = seq<string>

  // ---------------------------------------------------------------------------------------
  // From line names to lines

  /** Odd revisions name lines of the stack, even ones lines of the target. */
  predicate HasLine(contents: seq<Text>, target: Text, id: Id) {
    if id.rev % 2 == 1 then id.rev / 2 < |contents| && id.num < |contents[id.rev / 2]| else id.num < |target|
  }

  /** `_getline`; the empty string stands for a line that is not there, where the source raises. */
  function GetLine(contents: seq<Text>, target: Text, id: Id): string {
    if !HasLine(contents, target, id) then ""
    else if id.rev % 2 == 1 then contents[id.rev / 2][id.num]
    else target[id.num]
  }

  predicate AllThere(contents: seq<Text>, target: Text, ids: seq<Id>) {
    forall i :: 0 <= i < |ids| ==> HasLine(contents, target, ids[i])
  }

  /** Every line of the linelog, deleted ones included, can be read. */
  ghost predicate Readable(contents: seq<Text>, target: Text, w: Lines) {
    forall l :: l in w ==> HasLine(contents, target, Id(l.rev, l.num))
  }

  lemma {:induction false} ShownAreThere(contents: seq<Text>, target: Text, w: Lines, at: Option<nat>)
    requires Readable(contents, target, w)
    ensures AllThere(contents, target, Shown(w, at))
  {
    if w != [] {
      assert w[0] in w && forall l :: l in w[1..] ==> l in w;
      ShownAreThere(contents, target, w[1..], at);
      assert Shown(w, at) == Ids(w[0], at) + Shown(w[1..], at);
    }
  }

  lemma ReplaceLinesReadable(contents: seq<Text>, target: Text, w: Lines, rev: nat, a1: nat, a2: nat, b1: nat, b2: nat)
    requires a1 <= a2 <= |Live(w)| && b1 <= b2 && Readable(contents, target, w)
    requires forall n :: b1 <= n < b2 ==> HasLine(contents, target, Id(rev, n))
    ensures Readable(contents, target, ReplaceLines(w, rev, a1, a2, b1, b2))
  {
    EndIsBehind(w, a1, a2);
    var p, q := Offset(w, a1), EndOffset(w, a1, a2);
    var w' := ReplaceLines(w, rev, a1, a2, b1, b2);
    forall i | 0 <= i < |w'|
      ensures HasLine(contents, target, Id(w'[i].rev, w'[i].num))
    {
      if i < p {
        assert w'[i] == w[i] && w[i] in w;
      } else if p + (b2 - b1) <= i {
        assert w[i - (b2 - b1)] in w;
      } else {
        assert w'[i].rev == rev && b1 <= w'[i].num < b2;
      }
    }
  }

  function GetLines(contents: seq<Text>, target: Text, ids: seq<Id>): (r: Text)
    ensures |r| == |ids| && forall i :: 0 <= i < |ids| ==> r[i] == GetLine(contents, target, ids[i])
  {
    seq(|ids|, i requires 0 <= i < |ids| => GetLine(contents, target, ids[i]))
  }

  function Checkout(contents: seq<Text>, target: Text, w: Lines, r: nat): Text {
    GetLines(contents, target, Annotate(w, r))
  }

  lemma GetLinesConcat(contents: seq<Text>, target: Text, a: seq<Id>, b: seq<Id>)
    ensures GetLines(contents, target, a + b) == GetLines(contents, target, a) + GetLines(contents, target, b)
  {
  }

  lemma NewLinesAre(contents: seq<Text>, target: Text, rev: nat, b1: nat, b2: nat)
    requires b1 <= b2
    ensures rev % 2 == 0 && b2 <= |target| ==> GetLines(contents, target, NewIds(rev, b1, b2)) == target[b1..b2]
    ensures rev % 2 == 1 && rev / 2 < |contents| && b2 <= |contents[rev / 2]| ==>
              GetLines(contents, target, NewIds(rev, b1, b2)) == contents[rev / 2][b1..b2]
  {
  }

  /** No line is newer than `top`, or was deleted later. */
  ghost predicate UpTo(w: Lines, top: nat) {
    forall l :: l in w ==> l.rev <= top && (l.gone.Some? ==> l.gone.value <= top)
  }

  /** All lines are original lines, none comes from a fixup. */
  ghost predicate Originals(w: Lines) {
    forall l :: l in w ==> l.rev % 2 == 1
  }

  lemma {:induction false} NewestIsLive(w: Lines, top: nat, r: nat)
    requires UpTo(w, top) && top <= r
    ensures Annotate(w, r) == Live(w)
  {
    if w != [] {
      assert w[0] in w;
      NewestIsLive(w[1..], top, r);
    }
  }

  lemma ReplaceLinesUpTo(w: Lines, rev: nat, a1: nat, a2: nat, b1: nat, b2: nat, top: nat)
    requires a1 <= a2 <= |Live(w)| && b1 <= b2 && UpTo(w, top) && rev <= top
    ensures UpTo(ReplaceLines(w, rev, a1, a2, b1, b2), top)
    ensures Originals(w) && rev % 2 == 1 ==> Originals(ReplaceLines(w, rev, a1, a2, b1, b2))
  {
    EndIsBehind(w, a1, a2);
    var p, q := Offset(w, a1), EndOffset(w, a1, a2);
    var w' := ReplaceLines(w, rev, a1, a2, b1, b2);
    forall i | 0 <= i < |w'|
      ensures w'[i].rev <= top && (w'[i].gone.Some? ==> w'[i].gone.value <= top)
      ensures Originals(w) && rev % 2 == 1 ==> w'[i].rev % 2 == 1
    {
      if i < p {
        assert w'[i] == w[i] && w[i] in w;
      } else if p + (b2 - b1) <= i {
        assert w[i - (b2 - b1)] in w;
      }
    }
  }

  ghost predicate OlderKept(w: Lines, w': Lines, rev: nat) {
    forall r: nat :: r < rev ==> Annotate(w', r) == Annotate(w, r)
  }

  // ---------------------------------------------------------------------------------------
  // _buildlinelog

  /** The linelog can be edited: it is sound, and what it has cached is the newest revision. */
  ghost predicate Ready(l: LineLog)
    reads l
  {
    l.Valid() && l.Current()
  }

  function Before(contents: seq<Text>, i: nat): Text
    requires i <= |contents|
  {
    if i == 0 then [] else contents[i - 1]
  }

  /** The contents of a stack, each with its diff against the one before. */
  datatype Revisions = Revisions(contents: seq<Text>, diffs: seq<seq<Chunk>>)

  type Stack = s: Revisions |
      && |s.diffs| == |s.contents|
      && forall i :: 0 <= i < |s.contents| ==> IsDiff(s.diffs[i], Before(s.contents, i), s.contents[i])
    witness Revisions([], [])

  /** How far the old text is untouched, and the new one not yet reached, when `k` chunks are left. */
  function LeftA(s: Stack, i: nat, k: nat): nat
    requires i < |s.contents| && k <= |s.diffs[i]|
  {
    if k == |s.diffs[i]| then |Before(s.contents, i)| else s.diffs[i][k].a1
  }

  function LeftB(s: Stack, i: nat, k: nat): nat
    requires i < |s.contents| && k <= |s.diffs[i]|
  {
    if k == |s.diffs[i]| then |s.contents[i]| else s.diffs[i][k].b1
  }

  lemma {:induction false} DiffLeft(s: Stack, i: nat, k: nat)
    requires i < |s.contents| && k <= |s.diffs[i]|
    ensures LeftA(s, i, k) <= |Before(s.contents, i)| && LeftB(s, i, k) <= |s.contents[i]|
    ensures IsDiff(s.diffs[i][..k], Before(s.contents, i)[..LeftA(s, i, k)], s.contents[i][..LeftB(s, i, k)])
    decreases |s.diffs[i]| - k
  {
    var chunks, a, b := s.diffs[i], Before(s.contents, i), s.contents[i];
    if k == |chunks| {
      assert chunks[..k] == chunks && a[..|a|] == a && b[..|b|] == b;
    } else {
      DiffLeft(s, i, k + 1);
      DiffFront(chunks, k + 1, a, b, LeftA(s, i, k + 1), LeftB(s, i, k + 1));
    }
  }

  /** The newest lines are the new text behind the `k` chunks that are left, and the old one up to there. */
  ghost predicate TextReached(s: Stack, i: nat, w: Lines, k: nat) {
    && i < |s.contents| && k <= |s.diffs[i]|
    && LeftA(s, i, k) <= |Before(s.contents, i)| && LeftB(s, i, k) <= |s.contents[i]|
    && GetLines(s.contents, [], Live(w)) == Before(s.contents, i)[..LeftA(s, i, k)] + s.contents[i][LeftB(s, i, k)..]
  }

  /** The diff is made, last chunk first; `k` chunks are left. */
  ghost predicate Halfway(s: Stack, i: nat, before: Lines, w: Lines, k: nat) {
    TextReached(s, i, w, k) && Grown(s.contents, before, w, 2 * i + 1)
  }

  /** Revision `rev` is being added: older ones are kept, and the lines are those of contents. */
  ghost predicate Grown(contents: seq<Text>, before: Lines, w: Lines, rev: nat) {
    UpTo(w, rev) && Originals(w) && OlderKept(before, w, rev) && Readable(contents, [], w)
  }

  lemma HalfwayStarts(s: Stack, i: nat, w: Lines)
    requires i < |s.contents| && HoldsStack(s.contents, w, i)
    ensures Halfway(s, i, w, w, |s.diffs[i]|)
  {
    var a, b := Before(s.contents, i), s.contents[i];
    UpToLater(w, 2 * i, 2 * i + 1);
    assert a[..|a|] + b[|b|..] == a;
  }

  lemma HalfwayEnds(s: Stack, i: nat, before: Lines, w: Lines)
    requires i < |s.contents| && HoldsStack(s.contents, before, i) && Halfway(s, i, before, w, 0)
    ensures HoldsStack(s.contents, w, i + 1)
  {
    EndOfDiff(s, i);
    OneMoreRevision(s.contents, before, w, i);
  }

  lemma EndOfDiff(s: Stack, i: nat)
    requires i < |s.contents|
    ensures LeftA(s, i, 0) <= |Before(s.contents, i)| && LeftB(s, i, 0) <= |s.contents[i]|
    ensures Before(s.contents, i)[..LeftA(s, i, 0)] + s.contents[i][LeftB(s, i, 0)..] == s.contents[i]
  {
    DiffLeft(s, i, 0);
    var b := s.contents[i];
    assert b[..LeftB(s, i, 0)] + b[LeftB(s, i, 0)..] == b;
  }

  lemma DiffFront(chunks: seq<Chunk>, k: nat, a: Text, b: Text, e: nat, f: nat)
    requires 0 < k <= |chunks| && e <= |a| && f <= |b| && IsDiff(chunks[..k], a[..e], b[..f])
    ensures var c := chunks[k - 1];
            && c.a1 <= c.a2 <= e && c.b1 <= c.b2 <= f && a[..e][c.a2..] == b[..f][c.b2..]
            && IsDiff(chunks[..k - 1], a[..c.a1], b[..c.b1])
  {
    var c := chunks[k - 1];
    assert chunks[..k][..k - 1] == chunks[..k - 1];
    assert a[..e][..c.a1] == a[..c.a1] && b[..f][..c.b1] == b[..c.b1];
  }

  /** Edits as of the newest revision never meet a newer line. */
  lemma NewestInOrder(w: Lines, maxrev: nat, rev: nat, a1: nat, a2: nat)
    requires UpTo(w, rev) && maxrev <= rev && a1 <= a2 <= |Live(w)|
    ensures InOrder(Live(w), maxrev, rev, a1, a2)
  {
    if a1 < |Live(w)| {
      LiveAt(w, a1);
      assert w[Offset(w, a1)] in w;
    }
  }

  method ReplaceChunk(s: Stack, l: LineLog, i: nat, k: nat, ghost before: Lines)
    requires Halfway(s, i, before, l.Contents(), k + 1) && Ready(l) && l.maxrev <= 2 * i + 1
    modifies l
    ensures Halfway(s, i, before, l.Contents(), k) && Ready(l) && l.maxrev <= 2 * i + 1
  {
    var c := s.diffs[i][k];
    HalfwayStep(s, i, before, l.Contents(), k);
    NewestInOrder(l.Contents(), l.maxrev, 2 * i + 1, c.a1, c.a2);
    l.ReplaceLines(2 * i + 1, c.a1, c.a2, c.b1, c.b2);
  }

  lemma HalfwayStep(s: Stack, i: nat, before: Lines, w: Lines, k: nat)
    requires Halfway(s, i, before, w, k + 1)
    ensures var c := s.diffs[i][k];
            && c.a1 <= c.a2 <= |Live(w)| && c.b1 <= c.b2
            && Halfway(s, i, before, ReplaceLines(w, 2 * i + 1, c.a1, c.a2, c.b1, c.b2), k)
  {
    NextChunkReplaced(s, i, w, k);
    StillGrown(s.contents, before, w, i, s.diffs[i][k]);
  }

  lemma StillGrown(contents: seq<Text>, before: Lines, w: Lines, i: nat, c: Chunk)
    requires c.a1 <= c.a2 <= |Live(w)| && i < |contents| && c.b1 <= c.b2 <= |contents[i]|
    requires Grown(contents, before, w, 2 * i + 1)
    ensures Grown(contents, before, ReplaceLines(w, 2 * i + 1, c.a1, c.a2, c.b1, c.b2), 2 * i + 1)
  {
    ReplaceLinesUpTo(w, 2 * i + 1, c.a1, c.a2, c.b1, c.b2, 2 * i + 1);
    OlderStaysKept(before, w, 2 * i + 1, c);
    ReplaceLinesReadable(contents, [], w, 2 * i + 1, c.a1, c.a2, c.b1, c.b2);
  }

  lemma NextChunkReplaced(s: Stack, i: nat, w: Lines, k: nat)
    requires TextReached(s, i, w, k + 1)
    ensures var c := s.diffs[i][k];
            && c.a1 <= c.a2 <= |Live(w)| && c.b1 <= c.b2 <= |s.contents[i]|
            && TextReached(s, i, ReplaceLines(w, 2 * i + 1, c.a1, c.a2, c.b1, c.b2), k)
  {
    DiffLeft(s, i, k + 1);
    DiffFront(s.diffs[i], k + 1, Before(s.contents, i), s.contents[i], LeftA(s, i, k + 1), LeftB(s, i, k + 1));
    ChunkTextReplaced(s.contents, w, i, s.diffs[i][k], Before(s.contents, i), LeftA(s, i, k + 1), LeftB(s, i, k + 1));
  }

  lemma OlderStaysKept(before: Lines, w: Lines, rev: nat, c: Chunk)
    requires c.a1 <= c.a2 <= |Live(w)| && c.b1 <= c.b2 && OlderKept(before, w, rev)
    ensures OlderKept(before, ReplaceLines(w, rev, c.a1, c.a2, c.b1, c.b2), rev)
  {
    forall r: nat | r < rev
      ensures Annotate(ReplaceLines(w, rev, c.a1, c.a2, c.b1, c.b2), r) == Annotate(before, r)
    {
      ReplaceLinesShows(w, rev, c.a1, c.a2, c.b1, c.b2, Some(r));
    }
  }

  lemma ChunkTextReplaced(contents: seq<Text>, w: Lines, i: nat, c: Chunk, a: Text, e: nat, f: nat)
    requires i < |contents| && e <= |a| && f <= |contents[i]| && c.a1 <= c.a2 <= e && c.b1 <= c.b2 <= f
    requires a[..e][c.a2..] == contents[i][..f][c.b2..]
    requires GetLines(contents, [], Live(w)) == a[..e] + contents[i][f..]
    ensures c.a2 <= |Live(w)|
    ensures GetLines(contents, [], Live(ReplaceLines(w, 2 * i + 1, c.a1, c.a2, c.b1, c.b2)))
         == a[..c.a1] + contents[i][c.b1..]
  {
    var text := a[..e] + contents[i][f..];
    ReplacedText(contents, w, i, c, text);
    ChunkText(c, a, contents[i], e, f);
  }

  lemma ChunkText(c: Chunk, a: Text, b: Text, e: nat, f: nat)
    requires e <= |a| && f <= |b| && c.a1 <= c.a2 <= e && c.b1 <= c.b2 <= f && a[..e][c.a2..] == b[..f][c.b2..]
    ensures var text := a[..e] + b[f..];
            text[..c.a1] + (b[c.b1..c.b2] + text[c.a2..]) == a[..c.a1] + b[c.b1..]
  {
    var text := a[..e] + b[f..];
    assert text[c.a2..] == a[..e][c.a2..] + b[f..] == b[c.b2..];
    assert text[..c.a1] == a[..c.a1];
    assert b[c.b1..c.b2] + b[c.b2..] == b[c.b1..];
  }

  lemma ReplacedText(contents: seq<Text>, w: Lines, i: nat, c: Chunk, text: Text)
    requires i < |contents| && c.b1 <= c.b2 <= |contents[i]|
    requires GetLines(contents, [], Live(w)) == text && c.a1 <= c.a2 <= |text|
    ensures GetLines(contents, [], Live(ReplaceLines(w, 2 * i + 1, c.a1, c.a2, c.b1, c.b2)))
         == text[..c.a1] + (contents[i][c.b1..c.b2] + text[c.a2..])
  {
    ReplaceLinesLive(w, 2 * i + 1, c.a1, c.a2, c.b1, c.b2);
    NewLinesAre(contents, [], 2 * i + 1, c.b1, c.b2);
  }

  /** In the linelog of a stack, revisions `2i+1` and `2i+2` are the i-th content. */
  ghost predicate HoldsStack(contents: seq<Text>, w: Lines, n: nat)
    requires n <= |contents|
  {
    && Originals(w) && UpTo(w, 2 * n) && Readable(contents, [], w)
    && GetLines(contents, [], Live(w)) == Before(contents, n)
    && forall i :: 0 <= i < n ==> HoldsAt(contents, w, i)
  }

  ghost predicate HoldsAt(contents: seq<Text>, w: Lines, i: nat)
    requires i < |contents|
  {
    && Checkout(contents, [], w, 2 * i + 1) == contents[i]
    && Checkout(contents, [], w, 2 * i + 2) == contents[i]
  }

  /** `_buildlinelog` */
  method BuildLinelog(s: Stack) returns (l: LineLog)
    ensures fresh(l) && Ready(l) && l.maxrev <= 2 * |s.contents|
    ensures HoldsStack(s.contents, l.Contents(), |s.contents|)
  {
    l := new LineLog();
    AddRevisions(s, l);
  }

  method AddRevisions(s: Stack, l: LineLog)
    requires Ready(l) && l.maxrev == 0 && l.Contents() == []
    modifies l
    ensures Ready(l) && l.maxrev <= 2 * |s.contents|
    ensures HoldsStack(s.contents, l.Contents(), |s.contents|)
  {
    for i := 0 to |s.contents|
      invariant Ready(l) && l.maxrev <= 2 * i
      invariant HoldsStack(s.contents, l.Contents(), i)
    {
      AddRevision(s, l, i);
    }
  }

  /** Applies the diff that leads to content `i`, last chunk first, as linelog revision `2i+1`. */
  method AddRevision(s: Stack, l: LineLog, i: nat)
    requires i < |s.contents| && Ready(l) && l.maxrev <= 2 * i && HoldsStack(s.contents, l.Contents(), i)
    modifies l
    ensures Ready(l) && l.maxrev <= 2 * (i + 1) && HoldsStack(s.contents, l.Contents(), i + 1)
  {
    ghost var w := l.Contents();
    HalfwayStarts(s, i, w);
    ReplaceChunks(s, l, i, w);
    HalfwayEnds(s, i, w, l.Contents());
  }

  method ReplaceChunks(s: Stack, l: LineLog, i: nat, ghost before: Lines)
    requires i < |s.contents| && Ready(l) && l.maxrev <= 2 * i + 1
    requires Halfway(s, i, before, l.Contents(), |s.diffs[i]|)
    modifies l
    ensures Ready(l) && l.maxrev <= 2 * i + 1
    ensures Halfway(s, i, before, l.Contents(), 0)
  {
    var k: nat := |s.diffs[i]|;
    while k > 0
      invariant Ready(l) && l.maxrev <= 2 * i + 1 && k <= |s.diffs[i]|
      invariant Halfway(s, i, before, l.Contents(), k)
    {
      k := k - 1;
      ReplaceChunk(s, l, i, k, before);
    }
  }

  lemma UpToLater(w: Lines, top: nat, later: nat)
    requires UpTo(w, top) && top <= later
    ensures UpTo(w, later)
  {
  }

  lemma OneMoreRevision(contents: seq<Text>, w: Lines, w': Lines, n: nat)
    requires n < |contents| && HoldsStack(contents, w, n)
    requires UpTo(w', 2 * n + 1) && Originals(w') && OlderKept(w, w', 2 * n + 1)
    requires Readable(contents, [], w') && GetLines(contents, [], Live(w')) == contents[n]
    ensures HoldsStack(contents, w', n + 1)
  {
    UpToLater(w', 2 * n + 1, 2 * (n + 1));
    NewestIsLive(w', 2 * n + 1, 2 * n + 1);
    NewestIsLive(w', 2 * n + 1, 2 * n + 2);
    forall i | 0 <= i < n
      ensures HoldsAt(contents, w', i)
    {
      assert HoldsAt(contents, w, i);
      assert Annotate(w', 2 * i + 1) == Annotate(w, 2 * i + 1);
      assert Annotate(w', 2 * i + 2) == Annotate(w, 2 * i + 2);
    }
    assert HoldsAt(contents, w', n);
  }
}
