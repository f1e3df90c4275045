/** Where in the order behind a linelog the live lines `[a1, a2)` are, and what replacing them does. */
module LinelogEdits {
  import opened Lists
  import opened Weave
  import opened LinelogSlots
  import opened LinelogPatch
  import opened LinelogProgram

  /**
   The order around the lines to be replaced: the slots before, the slot of the line `a1` (or the
   end), the slots to be skipped, and the rest. Of the slots to be skipped, `idle` come last;
   they hold only lines that are gone already.
   */
  datatype Cut = Cut(front: Slots, at: Slot, cut: Slots, idle: Slots, kept: Slots)

  function Whole(c: Cut): Slots {
    c.front + ([c.at] + ((c.cut + c.idle) + c.kept))
  }

  ghost predicate CutsAt(c: Cut, slots: Slots, a1: nat) {
    var infos := InfosAt(slots, None);
    && slots == Whole(c) && c.at.gone.None?
    && a1 <= |infos| && InfosAt(c.front, None) == infos[..a1]
    && |LinesOf(c.front)| == Offset(LinesOf(slots), a1)
    && if a1 < |infos| then c.at.inst.Emit? && infos[a1] == Info(c.at.inst.rev, c.at.inst.num, c.at.addr)
       else c.at.inst.Eof? && c.at.born == 0 && c.cut + c.idle + c.kept == []
  }

  // ---------------------------------------------------------------------------------------
  // Finding the place

  lemma {:induction false} OffsetAtEnd(w: Lines)
    ensures Offset(w, |Live(w)|) == |w|
  {
    if w != [] {
      OffsetAtEnd(w[1..]);
    }
  }

  lemma InfosSplit(slots: Slots, k: nat)
    requires k <= |slots|
    ensures InfosAt(slots, None) == InfosAt(slots[..k], None) + InfosAt(slots[k..], None)
    ensures LinesOf(slots) == LinesOf(slots[..k]) + LinesOf(slots[k..])
  {
    assert slots == slots[..k] + slots[k..];
    InfosAtConcat(slots[..k], slots[k..], None);
    LinesOfConcat(slots[..k], slots[k..]);
  }

  lemma CountLive(slots: Slots)
    requires BornRight(slots)
    ensures |InfosAt(slots, None)| == |Live(LinesOf(slots))|
  {
    InfosAreShown(slots, None);
  }

  lemma CutInsertion(slots: Slots, a: nat) returns (c: Cut)
    requires Ends(slots) && BornRight(slots) && a <= |InfosAt(slots, None)|
    ensures CutsAt(c, slots, a) && c.cut == [] && c.idle == []
    ensures a < |InfosAt(slots, None)| ==> InfosAt(c.kept, None) == InfosAt(slots, None)[a + 1..]
  {
    if a < |InfosAt(slots, None)| {
      c := CutAtLine(slots, a);
    } else {
      c := CutAtEnd(slots);
    }
  }

  lemma CutAtLine(slots: Slots, a: nat) returns (c: Cut)
    requires a < |InfosAt(slots, None)|
    ensures CutsAt(c, slots, a) && c.cut == [] && c.idle == []
    ensures InfosAt(c.kept, None) == InfosAt(slots, None)[a + 1..]
  {
    var p := Locate(slots, a);
    c := Cut(slots[..p], slots[p], [], [], slots[p + 1..]);
    CutWholeAt(slots, p);
    InfosSplit(slots, p);
    InfosOfCons(slots[p], slots[p + 1..], None);
  }

  lemma CutWholeAt(slots: Slots, p: nat)
    requires p < |slots|
    ensures slots[..p] + ([slots[p]] + (([] + []) + slots[p + 1..])) == slots
    ensures slots[p..] == [slots[p]] + slots[p + 1..]
  {
  }

  lemma CutAtEnd(slots: Slots) returns (c: Cut)
    requires Ends(slots) && BornRight(slots)
    ensures CutsAt(c, slots, |InfosAt(slots, None)|) && c.cut == [] && c.idle == []
  {
    var n := |slots| - 1;
    c := Cut(slots[..n], slots[n], [], [], []);
    assert Whole(c) == slots;
    InfosSplit(slots, n);
    assert slots[n..] == [slots[n]];
    InfosOfCons(slots[n], [], None);
    LinesOfCons(slots[n], []);
    CountLive(slots);
    OffsetAtEnd(LinesOf(slots));
  }

  /** A live line before another one has its slot before it. */
  lemma LocateOrder(slots: Slots, p: nat, q: nat)
    requires p < |slots| && q < |slots| && slots[q].inst.Emit? && slots[q].gone.None?
    requires |InfosAt(slots[..p], None)| <= |InfosAt(slots[..q], None)|
    ensures p <= q
  {
    if q < p {
      var mid := slots[..p][q + 1..];
      assert slots[..p] == slots[..q] + ([slots[q]] + mid);
      InfosAtConcat(slots[..q], [slots[q]] + mid, None);
      InfosOfCons(slots[q], mid, None);
    }
  }

  /** The address of a live line, or of the end. */
  function LineAddr(slots: Slots, a: nat): nat
    requires slots != [] && a <= |InfosAt(slots, None)|
  {
    if a < |InfosAt(slots, None)| then InfosAt(slots, None)[a].offset else slots[|slots| - 1].addr
  }

  /** The slot of the last line to be deleted. */
  ghost predicate LastAt(slots: Slots, a2: nat, q: nat) {
    && 0 < a2 <= |InfosAt(slots, None)| && q < |slots| && slots[q].inst.Emit? && slots[q].gone.None?
    && InfosAt(slots, None)[a2 - 1] == Info(slots[q].inst.rev, slots[q].inst.num, slots[q].addr)
    && |LinesOf(slots[..q + 1])| == Offset(LinesOf(slots), a2 - 1) + 1
    && |InfosAt(slots[..q + 1], None)| == a2
  }

  lemma CutLast(slots: Slots, a1: nat, a2: nat, p: nat) returns (q: nat)
    requires a1 < a2 <= |InfosAt(slots, None)| && p < |slots| && |InfosAt(slots[..p], None)| == a1
    ensures p <= q && LastAt(slots, a2, q)
  {
    q := Locate(slots, a2 - 1);
    LocateOrder(slots, p, q);
    assert slots[..q + 1] == slots[..q] + [slots[q]];
    InfosAtConcat(slots[..q], [slots[q]], None);
    LinesOfConcat(slots[..q], [slots[q]]);
    InfosOfCons(slots[q], [], None);
    LinesOfCons(slots[q], []);
  }

  /** Where the deleted lines end: behind the last one, or, in the newest revision, at the next live one. */
  lemma CutEnd(slots: Slots, a2: nat, q: nat, behind: bool) returns (e: nat)
    requires Ends(slots) && LastAt(slots, a2, q)
    ensures q < e < |slots| && (behind ==> e == q + 1)
    ensures |InfosAt(slots[..e], None)| == a2
    ensures !behind ==> slots[e].gone.None? && slots[e].addr == LineAddr(slots, a2)
  {
    assert slots[|slots| - 1].inst.Eof?;
    if behind {
      e := q + 1;
    } else if a2 < |InfosAt(slots, None)| {
      e := Locate(slots, a2);
      assert slots[..q + 1] == slots[..q] + [slots[q]];
      InfosAtConcat(slots[..q], [slots[q]], None);
      LocateOrder(slots, q, e);
    } else {
      e := |slots| - 1;
      InfosSplit(slots, e);
      assert slots[e..] == [slots[e]];
      InfosOfCons(slots[e], [], None);
    }
  }

  lemma CutDeletion(slots: Slots, a1: nat, a2: nat, behind: bool) returns (c: Cut, q: nat)
    requires Ends(slots) && a1 < a2 <= |InfosAt(slots, None)|
    ensures CutsAt(c, slots, a1) && c.kept != []
    ensures InfosAt(c.kept, None) == InfosAt(slots, None)[a2..] && InfosAt(c.idle, None) == []
    ensures EndOffset(LinesOf(slots), a1, a2) == |LinesOf(c.front + ([c.at] + c.cut))|
    ensures LastAt(slots, a2, q)
    ensures behind ==> c.idle == [] && q + 1 < |slots| && c.kept == slots[q + 1..]
    ensures !behind ==> c.kept[0].gone.None? && c.kept[0].addr == LineAddr(slots, a2)
  {
    var p, e;
    p := Locate(slots, a1);
    q := CutLast(slots, a1, a2, p);
    e := CutEnd(slots, a2, q, behind);
    c := CutParts(slots, p, q, e);
    InfosSplit(slots, p);
    LiveAround(slots, q + 1, e);
  }

  lemma CutParts(slots: Slots, p: nat, q: nat, e: nat) returns (c: Cut)
    requires p <= q < e < |slots|
    ensures Whole(c) == slots && c.front + ([c.at] + c.cut) == slots[..q + 1]
    ensures c.front == slots[..p] && c.at == slots[p] && c.idle == slots[q + 1..e] && c.kept == slots[e..]
    ensures e == q + 1 ==> c.idle == []
  {
    c := Cut(slots[..p], slots[p], slots[p + 1..q + 1], slots[q + 1..e], slots[e..]);
    CutWhole(slots, p, q, e);
  }

  lemma CutWhole(slots: Slots, p: nat, q: nat, e: nat)
    requires p <= q < e < |slots|
    ensures slots[..p] + ([slots[p]] + ((slots[p + 1..q + 1] + slots[q + 1..e]) + slots[e..])) == slots
    ensures slots[..p] + ([slots[p]] + slots[p + 1..q + 1]) == slots[..q + 1]
  {
  }

  /** Between places with as many live lines before them, there are none. */
  lemma LiveAround(slots: Slots, i: nat, e: nat)
    requires i <= e <= |slots| && |InfosAt(slots[..i], None)| == |InfosAt(slots[..e], None)|
    ensures InfosAt(slots[i..e], None) == []
    ensures |InfosAt(slots[..e], None)| <= |InfosAt(slots, None)|
    ensures InfosAt(slots[e..], None) == InfosAt(slots, None)[|InfosAt(slots[..e], None)|..]
  {
    InfosSplit(slots, e);
    InfosSplit(slots[..e], i);
    assert slots[..e][..i] == slots[..i] && slots[..e][i..] == slots[i..e];
  }

  // ---------------------------------------------------------------------------------------
  // The lines after the patch

  lemma {:induction false} IdleIsDeleted(slots: Slots, rev: nat, maxrev: nat)
    requires InfosAt(slots, None) == [] && Bounded(slots, maxrev) && maxrev <= rev
    ensures Deleted(LinesOf(slots), rev) == LinesOf(slots)
  {
    if slots != [] {
      assert slots[0] in slots && forall s :: s in slots[1..] ==> s in slots;
      IdleIsDeleted(slots[1..], rev, maxrev);
      DeletedConcat(LineOf(slots[0]), LinesOf(slots[1..]), rev);
      IdleLine(slots[0], rev, maxrev);
    }
  }

  lemma IdleLine(s: Slot, rev: nat, maxrev: nat)
    requires InfoAt(s, None) == [] && (s.gone.Some? ==> s.gone.value <= maxrev) && maxrev <= rev
    ensures Deleted(LineOf(s), rev) == LineOf(s)
  {
  }

  lemma DeletedConcat(x: Lines, y: Lines, rev: nat)
    ensures Deleted(x + y, rev) == Deleted(x, rev) + Deleted(y, rev)
  {
  }

  /** Replacing in a list given in parts. */
  lemma PatchedParts(f: Lines, l: Lines, k: Lines, rev: nat, b1: nat, b2: nat)
    requires b1 <= b2
    ensures Patched(f + (l + k), |f|, |f| + |l|, rev, b1, b2) == f + (Inserted(rev, b1, b2) + (Deleted(l, rev) + k))
  {
    var w := f + (l + k);
    assert w[..|f|] == f && w[|f|..|f| + |l|] == l && w[|f| + |l|..] == k;
  }

  lemma ReplaceLinesIs(w: Lines, f: Lines, l: Lines, k: Lines, rev: nat, a1: nat, a2: nat, b1: nat, b2: nat)
    requires w == f + (l + k) && a1 <= a2 <= |Live(w)| && b1 <= b2
    requires |f| == Offset(w, a1) && |f| + |l| == EndOffset(w, a1, a2)
    ensures ReplaceLines(w, rev, a1, a2, b1, b2) == f + (Inserted(rev, b1, b2) + (Deleted(l, rev) + k))
  {
    PatchedParts(f, l, k, rev, b1, b2);
  }

  lemma InsertionLines(slots: Slots, c: Cut, p: Patch, a: nat)
    requires CutsAt(c, slots, a) && c.cut == [] && c.idle == [] && BornRight(slots)
    requires p.at == c.at && p.b1 <= p.b2 && !p.del
    ensures a <= |Live(LinesOf(slots))|
    ensures LinesOf(WithPatch(c.front, p, c.cut + c.idle, c.kept))
         == ReplaceLines(LinesOf(slots), p.rev, a, a, p.b1, p.b2)
  {
    CountLive(slots);
    LinesOfPatched(c.front, p, c.cut + c.idle, c.kept);
    LinesOfConcat(c.front, [c.at] + ((c.cut + c.idle) + c.kept));
    assert (c.cut + c.idle) + c.kept == c.kept;
    LinesOfCons(c.at, c.kept);
    var f, k := LinesOf(c.front), LineOf(c.at) + LinesOf(c.kept);
    assert [] + k == k;
    ReplaceLinesIs(LinesOf(slots), f, [], k, p.rev, a, a, p.b1, p.b2);
    assert Deleted([], p.rev) == [] && [] + LinesOf(c.kept) == LinesOf(c.kept);
  }

  lemma DeletionLines(slots: Slots, c: Cut, p: Patch, a1: nat, a2: nat, maxrev: nat)
    requires CutsAt(c, slots, a1) && BornRight(slots) && a1 < a2 <= |InfosAt(slots, None)|
    requires EndOffset(LinesOf(slots), a1, a2) == |LinesOf(c.front + ([c.at] + c.cut))|
    requires InfosAt(c.idle, None) == [] && Bounded(slots, maxrev) && (c.idle == [] || maxrev <= p.rev)
    requires p.at == c.at && p.b1 <= p.b2 && p.del
    ensures a2 <= |Live(LinesOf(slots))|
    ensures LinesOf(WithPatch(c.front, p, c.cut + c.idle, c.kept))
         == ReplaceLines(LinesOf(slots), p.rev, a1, a2, p.b1, p.b2)
  {
    CountLive(slots);
    IdleStays(c, p.rev, maxrev);
    DeletionReplaces(slots, c, p.rev, a1, a2, p.b1, p.b2);
    DeletedLines(c, p, LinesOf(c.idle), LinesOf(c.kept));
    LinesOfPatched(c.front, p, c.cut + c.idle, c.kept);
  }

  lemma IdleStays(c: Cut, rev: nat, maxrev: nat)
    requires InfosAt(c.idle, None) == [] && Bounded(Whole(c), maxrev) && (c.idle == [] || maxrev <= rev)
    ensures Deleted(LinesOf(c.idle), rev) == LinesOf(c.idle)
  {
    if c.idle != [] {
      IdleBounded(c, maxrev);
      IdleIsDeleted(c.idle, rev, maxrev);
    }
  }

  lemma DeletionReplaces(slots: Slots, c: Cut, rev: nat, a1: nat, a2: nat, b1: nat, b2: nat)
    requires CutsAt(c, slots, a1) && a1 < a2 <= |Live(LinesOf(slots))| && b1 <= b2
    requires EndOffset(LinesOf(slots), a1, a2) == |LinesOf(c.front + ([c.at] + c.cut))|
    ensures ReplaceLines(LinesOf(slots), rev, a1, a2, b1, b2)
         == LinesOf(c.front) + (Inserted(rev, b1, b2)
                                + (Deleted(LineOf(c.at) + LinesOf(c.cut), rev) + (LinesOf(c.idle) + LinesOf(c.kept))))
  {
    LinesOfWhole(c);
    LinesOfConcat(c.front, [c.at] + c.cut);
    LinesOfCons(c.at, c.cut);
    ReplaceLinesIs(LinesOf(slots), LinesOf(c.front), LineOf(c.at) + LinesOf(c.cut), LinesOf(c.idle) + LinesOf(c.kept),
                   rev, a1, a2, b1, b2);
  }

  lemma IdleBounded(c: Cut, maxrev: nat)
    requires Bounded(Whole(c), maxrev)
    ensures Bounded(c.idle, maxrev)
  {
    assert forall s :: s in c.idle ==> s in Whole(c);
  }

  lemma LinesOfWhole(c: Cut)
    ensures LinesOf(Whole(c))
         == LinesOf(c.front) + ((LineOf(c.at) + LinesOf(c.cut)) + (LinesOf(c.idle) + LinesOf(c.kept)))
  {
    LinesOfConcat(c.front, [c.at] + ((c.cut + c.idle) + c.kept));
    LinesOfCons(c.at, (c.cut + c.idle) + c.kept);
    LinesOfConcat(c.cut + c.idle, c.kept);
    LinesOfConcat(c.cut, c.idle);
    ConcatAssociates(LinesOf(c.cut), LinesOf(c.idle), LinesOf(c.kept));
    ConcatAssociates(LineOf(c.at), LinesOf(c.cut), LinesOf(c.idle) + LinesOf(c.kept));
  }

  lemma DeletedLines(c: Cut, p: Patch, m: Lines, k: Lines)
    requires p.at == c.at && p.b1 <= p.b2 && p.del && c.at.gone.None?
    requires m == LinesOf(c.idle) && Deleted(m, p.rev) == m
    ensures LineOf(Moved(p)) + (Deleted(LinesOf(c.cut + c.idle), p.rev) + k)
         == Deleted(LineOf(c.at) + LinesOf(c.cut), p.rev) + (m + k)
  {
    LinesOfConcat(c.cut, c.idle);
    DeletedConcat(LinesOf(c.cut), m, p.rev);
    DeletedConcat(LineOf(c.at), LinesOf(c.cut), p.rev);
    assert LineOf(Moved(p)) == Deleted(LineOf(c.at), p.rev);
    FourParts(LineOf(Moved(p)), Deleted(LinesOf(c.cut), p.rev), m, k);
  }

  lemma FourParts(x: Lines, y: Lines, m: Lines, k: Lines)
    ensures x + ((y + m) + k) == (x + y) + (m + k)
  {
  }

  // ---------------------------------------------------------------------------------------
  // The cached annotation after the patch

  /** What `replacelines` makes of the cached lines. */
  function NewCache(lines: seq<Info>, a1: nat, a2: nat, infos: seq<Info>, moved: nat): seq<Info>
    requires a1 <= a2 <= |lines|
  {
    var l := if a1 < |lines| then lines[a1 := lines[a1].(offset := moved)] else lines;
    l[..a1] + (infos + l[a2..])
  }

  lemma CacheIsLive(slots: Slots, c: Cut, p: Patch, a1: nat, a2: nat)
    requires CutsAt(c, slots, a1) && a1 <= a2 <= |InfosAt(slots, None)|
    requires p.at == c.at && p.b1 <= p.b2 && (p.del <==> a1 < a2)
    requires a1 < a2 ==> InfosAt(c.kept, None) == InfosAt(slots, None)[a2..]
    requires a1 == a2 < |InfosAt(slots, None)| ==> InfosAt(c.kept, None) == InfosAt(slots, None)[a2 + 1..]
    ensures InfosAt(WithPatch(c.front, p, c.cut + c.idle, c.kept), None)
         == NewCache(InfosAt(slots, None), a1, a2, NewInfos(p.rev, p.b1, p.b2, p.base + 1), MovedAddr(p))
  {
    LiveOfPatched(c.front, p, c.cut + c.idle, c.kept);
    NewCacheParts(InfosAt(slots, None), a1, a2, NewInfos(p.rev, p.b1, p.b2, p.base + 1), MovedAddr(p),
                  InfoAt(Moved(p), None), InfosAt(c.kept, None));
  }

  lemma NewCacheParts(infos: seq<Info>, a1: nat, a2: nat, added: seq<Info>, addr: nat, moved: seq<Info>,
      kept: seq<Info>)
    requires a1 <= a2 <= |infos|
    requires if a1 == a2 < |infos| then moved == [infos[a1].(offset := addr)] && kept == infos[a2 + 1..]
             else moved == [] && kept == infos[a2..]
    ensures NewCache(infos, a1, a2, added, addr) == infos[..a1] + (added + (moved + kept))
  {
    var l := if a1 < |infos| then infos[a1 := infos[a1].(offset := addr)] else infos;
    assert l[..a1] == infos[..a1];
    assert l[a2..] == moved + kept;
  }
}
