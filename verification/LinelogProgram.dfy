/**
 A linelog: a program of conditional jumps that, run for a revision, emits that revision's lines.
 Lines are replaced by appending instructions and patching a single jump in. The program is
 proved to stand for a weave: it emits what the weave shows, and changes as the weave does.
 */
module LinelogProgram {
  import opened Lists
  import opened LinelogSlots
  import opened LinelogPatch

  type Program = seq<Inst>

  ghost predicate Always(s: Slot) {
    s.born == 0 && s.gone.None?
  }

  ghost predicate Stored(program: Program, slots: Slots) {
    forall s :: s in slots ==> 0 < s.addr < |program| && program[s.addr] == s.inst
  }

  ghost predicate Bounded(slots: Slots, maxrev: nat) {
    forall s :: s in slots ==> s.born <= maxrev && (s.gone.Some? ==> s.gone.value <= maxrev)
  }

  ghost predicate Ends(slots: Slots) {
    && slots != [] && slots[0].addr == 1 && Always(slots[0])
    && Always(slots[|slots| - 1]) && forall i :: 0 <= i < |slots| ==> (slots[i].inst.Eof? <==> i == |slots| - 1)
  }

  /** The program runs along these slots. */
  ghost predicate Woven(program: Program, slots: Slots, maxrev: nat) {
    && Ends(slots) && Stored(program, slots) && DistinctAddrs(slots)
    && Linked(slots) && Adjacent(slots) && BornRight(slots) && Bounded(slots, maxrev)
  }

  datatype Log = Log(program: Program, slots: Slots, maxrev: nat)

  type WovenLog = l: Log | Woven(l.program, l.slots, l.maxrev)
    witness Log([Eof, Eof], [Slot(1, Eof, 0, None)], 0)

  // ---------------------------------------------------------------------------------------
  // Running

  /** Slot `k` is the one to be executed next in revision `r`. */
  ghost predicate At(slots: Slots, r: nat, k: nat, pc: nat) {
    k < |slots| && slots[k].addr == pc && Alive(slots[k], r)
  }

  lemma {:induction false} NextSlot(slots: Slots, r: nat) returns (j: nat)
    requires FirstAlive(slots, r).Some?
    ensures j < |slots| && Alive(slots[j], r) && slots[j].addr == FirstAlive(slots, r).value
    ensures InfosAt(slots[..j], Some(r)) == []
  {
    if Alive(slots[0], r) {
      j := 0;
    } else {
      j := NextSlot(slots[1..], r);
      assert slots[..j + 1][0] == slots[0] && slots[..j + 1][1..] == slots[1..][..j];
      j := j + 1;
    }
  }

  lemma LinkedAt(slots: Slots, k: nat)
    requires Linked(slots) && k < |slots|
    ensures StepsOn(slots[k], slots[k + 1..])
  {
    assert slots == slots[..k] + slots[k..];
    LinkedBehind(slots[..k], slots[k..]);
    assert slots[k..][1..] == slots[k + 1..];
  }

  /** One step of a run: it ends at the last slot, and else comes to a later one. */
  lemma Step(slots: Slots, r: nat, k: nat, pc: nat) returns (j: nat)
    requires Linked(slots) && Ends(slots) && At(slots, r, k, pc)
    ensures slots[k].inst.Eof? <==> k == |slots| - 1
    ensures Execute(slots[k].inst, r, pc).None? <==> k == |slots| - 1
    ensures k < |slots| - 1 ==> k < j && At(slots, r, j, Execute(slots[k].inst, r, pc).value)
    ensures k < |slots| - 1 ==>
              InfosAt(slots[..j], Some(r)) == InfosAt(slots[..k], Some(r)) + InfoAt(slots[k], Some(r))
  {
    LinkedAt(slots, k);
    j := k;
    if k < |slots| - 1 {
      var i := NextSlot(slots[k + 1..], r);
      j := k + 1 + i;
      NothingBetween(slots, r, k, i);
    }
  }

  lemma NothingBetween(slots: Slots, r: nat, k: nat, i: nat)
    requires k < |slots| && i <= |slots| - k - 1 && InfosAt(slots[k + 1..][..i], Some(r)) == []
    ensures InfosAt(slots[..k + 1 + i], Some(r)) == InfosAt(slots[..k], Some(r)) + InfoAt(slots[k], Some(r))
  {
    var mid := slots[k + 1..][..i];
    assert slots[..k + 1 + i] == slots[..k] + ([slots[k]] + mid);
    InfosAtConcat(slots[..k], [slots[k]] + mid, Some(r));
    assert ([slots[k]] + mid)[1..] == mid;
    assert InfoAt(slots[k], Some(r)) + [] == InfoAt(slots[k], Some(r));
  }

  lemma SlotsFit(program: Program, slots: Slots)
    requires Stored(program, slots) && DistinctAddrs(slots) && slots != []
    ensures |slots| < |program|
  {
    var addrs := seq(|slots|, i requires 0 <= i < |slots| => slots[i].addr);
    DistinctCount(addrs);
    assert slots[0] in slots;
    forall a | a in addrs
      ensures a in AddrsBelow(|program|)
    {
      var i :| 0 <= i < |addrs| && addrs[i] == a;
      assert slots[i] in slots;
      AddrsBelowHolds(|program|, a);
    }
    assert Elements(addrs) <= AddrsBelow(|program|);
    SmallerSet(Elements(addrs), AddrsBelow(|program|));
  }

  ghost function AddrsBelow(n: nat): (s: set<nat>)
    ensures n > 0 ==> |s| < n
  {
    if n <= 1 then {} else AddrsBelow(n - 1) + {n - 1}
  }

  lemma {:induction false} AddrsBelowHolds(n: nat, a: nat)
    ensures a in AddrsBelow(n) <==> 0 < a < n
  {
    if n > 1 {
      AddrsBelowHolds(n - 1, a);
    }
  }

  // ---------------------------------------------------------------------------------------
  // Patching

  function Insts(slots: Slots): (r: seq<Inst>)
    ensures |r| == |slots| && forall i :: 0 <= i < |r| ==> r[i] == slots[i].inst
  {
    seq(|slots|, i requires 0 <= i < |slots| => slots[i].inst)
  }

  /** The program after `p`: instructions appended, and a jump to them patched in. */
  ghost function PatchedProgram(program: Program, p: Patch): Program
    requires p.b1 <= p.b2 && p.at.addr < |program|
  {
    program[p.at.addr := Jump(p.base)] + Insts(Appended(p))
  }

  lemma InPatched(front: Slots, p: Patch, cut: Slots, kept: Slots, s: Slot)
    requires p.b1 <= p.b2 && s in WithPatch(front, p, cut, kept)
    ensures s in front || s == Head(p) || s in Appended(p) || s in kept || exists t :: t in cut && s == Capped(t, p.rev)
  {
    if s in Cap(cut, p.rev) {
      var i :| 0 <= i < |cut| && s == Cap(cut, p.rev)[i];
      assert cut[i] in cut;
    }
  }

  lemma OtherAddr(front: Slots, at: Slot, rest: Slots, t: Slot)
    requires DistinctAddrs(front + ([at] + rest)) && (t in front || t in rest)
    ensures t.addr != at.addr && t in front + ([at] + rest)
  {
    var slots := front + ([at] + rest);
    assert slots[|front|] == at;
    if t in front {
      var i :| 0 <= i < |front| && front[i] == t;
      assert slots[i] == t;
    } else {
      var i :| 0 <= i < |rest| && rest[i] == t;
      assert slots[|front| + 1 + i] == t;
    }
  }

  lemma PatchedStored(program: Program, front: Slots, p: Patch, cut: Slots, kept: Slots)
    requires p.b1 <= p.b2 && p.base == |program| && p.at.addr < |program|
    requires Stored(program, front + ([p.at] + (cut + kept))) && DistinctAddrs(front + ([p.at] + (cut + kept)))
    ensures Stored(PatchedProgram(program, p), WithPatch(front, p, cut, kept))
  {
    var program' := PatchedProgram(program, p);
    assert p.at in front + ([p.at] + (cut + kept));
    forall s | s in WithPatch(front, p, cut, kept)
      ensures 0 < s.addr < |program'| && program'[s.addr] == s.inst
    {
      InPatched(front, p, cut, kept, s);
      if s in Appended(p) {
        AppendedStored(program, p, s);
      } else if s != Head(p) {
        var t := if s in front || s in kept then s else var t :| t in cut && s == Capped(t, p.rev); t;
        OtherAddr(front, p.at, cut + kept, t);
        OthersStayStored(program, p, t);
      }
    }
  }

  lemma AppendedStored(program: Program, p: Patch, s: Slot)
    requires p.b1 <= p.b2 && 0 < p.base == |program| && p.at.addr < |program| && s in Appended(p)
    ensures 0 < s.addr < |PatchedProgram(program, p)| && PatchedProgram(program, p)[s.addr] == s.inst
  {
    AppendedConsecutive(p);
    var i :| 0 <= i < |Appended(p)| && Appended(p)[i] == s;
    assert PatchedProgram(program, p)[p.base + i] == Insts(Appended(p))[i];
  }

  lemma OthersStayStored(program: Program, p: Patch, t: Slot)
    requires p.b1 <= p.b2 && p.at.addr < |program|
    requires 0 < t.addr < |program| && program[t.addr] == t.inst && t.addr != p.at.addr
    ensures t.addr < |PatchedProgram(program, p)| && PatchedProgram(program, p)[t.addr] == t.inst
  {
  }

  lemma PatchedBounded(front: Slots, p: Patch, cut: Slots, kept: Slots, maxrev: nat)
    requires p.b1 <= p.b2 && Bounded(front + ([p.at] + (cut + kept)), maxrev)
             && BornRight(front + ([p.at] + (cut + kept)))
    ensures Bounded(WithPatch(front, p, cut, kept), if p.rev > maxrev then p.rev else maxrev)
    ensures p.at.born <= p.rev ==> BornRight(WithPatch(front, p, cut, kept))
  {
    var slots := front + ([p.at] + (cut + kept));
    assert p.at in slots;
    forall s | s in WithPatch(front, p, cut, kept)
      ensures s.born <= (if p.rev > maxrev then p.rev else maxrev)
      ensures s.gone.Some? ==> s.gone.value <= if p.rev > maxrev then p.rev else maxrev
      ensures s.inst.Emit? && p.at.born <= p.rev ==> s.born == s.inst.rev
    {
      InPatched(front, p, cut, kept, s);
      if s in Appended(p) {
        AppendedBounds(p, s);
      } else if s != Head(p) {
        var t := if s in front || s in kept then s else var t :| t in cut && s == Capped(t, p.rev); t;
        assert t in slots;
      }
    }
  }

  lemma AppendedBounds(p: Patch, s: Slot)
    requires p.b1 <= p.b2 && s in Appended(p)
    ensures s.born == p.at.born || s.born == p.rev
    ensures s.gone.Some? ==> s.gone.value == p.rev
    ensures s.inst.Emit? ==> s == Moved(p) || (s.born == NewBorn(p) && s.inst.rev == p.rev)
    ensures s.inst.Eof? ==> s == Moved(p)
  {
    if s in Insertion(p) {
      assert s == Insertion(p)[0] || s in NewEmits(p);
    }
  }

  lemma SameAddrs(x: Slots, y: Slots)
    requires |x| == |y| && DistinctAddrs(x) && forall i :: 0 <= i < |y| ==> y[i].addr == x[i].addr
    ensures DistinctAddrs(y)
  {
  }

  lemma SameAddrAt(front: Slots, p: Patch, cut: Slots, kept: Slots, i: nat)
    requires i < |front| + 1 + |cut| + |kept|
    ensures ((front + [Head(p)]) + (Cap(cut, p.rev) + kept))[i].addr == (front + ([p.at] + (cut + kept)))[i].addr
  {
    if |front| < i {
      var k := i - |front| - 1;
      assert (Cap(cut, p.rev) + kept)[k].addr == (cut + kept)[k].addr;
    }
  }

  lemma InsertedDistinct(x: Slots, y: Slots, added: Slots, base: nat)
    requires DistinctAddrs(x + y) && Consecutive(added, base) && forall s :: s in x + y ==> s.addr < base
    ensures DistinctAddrs(x + (added + y))
  {
    var z := x + (added + y);
    forall i, j | 0 <= i < j < |z|
      ensures z[i].addr != z[j].addr
    {
      InsertedAddr(x, y, added, base, i);
      InsertedAddr(x, y, added, base, j);
    }
  }

  lemma InsertedAddr(x: Slots, y: Slots, added: Slots, base: nat, i: nat)
    requires Consecutive(added, base) && i < |x| + |added| + |y| && forall s :: s in x + y ==> s.addr < base
    ensures var z := x + (added + y);
            if |x| <= i < |x| + |added| then z[i].addr == base + (i - |x|)
            else z[i] == (x + y)[if i < |x| then i else i - |added|] && z[i].addr < base
  {
    if i < |x| {
      assert (x + y)[i] in x + y;
    } else if |x| + |added| <= i {
      assert (x + y)[i - |added|] in x + y;
    }
  }

  lemma CappedDistinct(front: Slots, p: Patch, cut: Slots, kept: Slots)
    requires DistinctAddrs(front + ([p.at] + (cut + kept)))
    requires forall s :: s in front + ([p.at] + (cut + kept)) ==> s.addr < p.base
    ensures DistinctAddrs((front + [Head(p)]) + (Cap(cut, p.rev) + kept))
    ensures forall s :: s in (front + [Head(p)]) + (Cap(cut, p.rev) + kept) ==> s.addr < p.base
  {
    var added, before := (front + [Head(p)]) + (Cap(cut, p.rev) + kept), front + ([p.at] + (cut + kept));
    assert |added| == |before|;
    forall i: nat | i < |added|
      ensures added[i].addr == before[i].addr < p.base
    {
      SameAddrAt(front, p, cut, kept, i);
      assert before[i] in before;
    }
    SameAddrs(before, added);
  }

  lemma PatchedDistinct(front: Slots, p: Patch, cut: Slots, kept: Slots)
    requires p.b1 <= p.b2 && DistinctAddrs(front + ([p.at] + (cut + kept)))
    requires forall s :: s in front + ([p.at] + (cut + kept)) ==> s.addr < p.base
    ensures DistinctAddrs(WithPatch(front, p, cut, kept))
  {
    var rest := Cap(cut, p.rev) + kept;
    CappedDistinct(front, p, cut, kept);
    AppendedConsecutive(p);
    InsertedDistinct(front + [Head(p)], rest, Appended(p), p.base);
    ConcatAssociates(front, [Head(p)], Appended(p) + rest);
  }

  lemma PatchedEnds(front: Slots, p: Patch, cut: Slots, kept: Slots)
    requires p.b1 <= p.b2 && p.at.gone.None? && (p.at.inst.Eof? ==> !p.del && cut + kept == [])
    requires Ends(front + ([p.at] + (cut + kept)))
    requires kept == [] ==> cut == [] && p.at.inst.Eof?
    ensures Ends(WithPatch(front, p, cut, kept))
  {
    var before, added := front + ([p.at] + (cut + kept)), WithPatch(front, p, cut, kept);
    var n := |Appended(p)|;
    AppendedEnds(p);
    assert before[|front|] == p.at;
    assert added[0] == if front == [] then Head(p) else front[0];
    if kept != [] {
      assert added[|added| - 1] == kept[|kept| - 1] == before[|before| - 1];
    }
    forall i | 0 <= i < |added|
      ensures added[i].inst.Eof? <==> i == |added| - 1
    {
      InstInPatched(front, p, cut, kept, i);
    }
  }

  lemma InstInPatched(front: Slots, p: Patch, cut: Slots, kept: Slots, i: nat)
    requires p.b1 <= p.b2 && i < |WithPatch(front, p, cut, kept)|
    ensures var before, added, n := front + ([p.at] + (cut + kept)), WithPatch(front, p, cut, kept), |Appended(p)|;
            && |added| == |before| + n
            && added[i].inst == if i < |front| then before[i].inst
                               else if i == |front| then Jump(p.base)
                               else if i <= |front| + n then Appended(p)[i - |front| - 1].inst
                               else before[i - n].inst
  {
    var rest, n := Cap(cut, p.rev) + kept, |Appended(p)|;
    if |front| < i <= |front| + n {
      assert (Appended(p) + rest)[i - |front| - 1] == Appended(p)[i - |front| - 1];
    } else if |front| + n < i {
      assert (Appended(p) + rest)[i - |front| - 1] == rest[i - |front| - 1 - n];
      assert rest[i - |front| - 1 - n].inst == (cut + kept)[i - |front| - 1 - n].inst;
    }
  }

  lemma AppendedEnds(p: Patch)
    requires p.b1 <= p.b2
    ensures Appended(p) != []
    ensures !p.at.inst.Eof? ==> forall i :: 0 <= i < |Appended(p)| ==> !Appended(p)[i].inst.Eof?
    ensures p.at.inst.Eof? ==> Appended(p)[|Appended(p)| - 1] == Moved(p)
    ensures p.at.inst.Eof? ==> forall i :: 0 <= i < |Appended(p)| - 1 ==> !Appended(p)[i].inst.Eof?
  {
    assert forall i :: 0 <= i < |Insertion(p)| ==> !Insertion(p)[i].inst.Eof?;
    assert Appended(p) == (Insertion(p) + Skip(p)) + ([Moved(p)] + Return(p));
  }

  /** Where and how a patch may be made. */
  ghost predicate PatchOk(program: Program, front: Slots, p: Patch, cut: Slots, kept: Slots) {
    && p.base == |program| && (kept == [] ==> cut == [] && p.at.inst.Eof?)
    && (p.at.inst.Eof? ==> !p.del && cut + kept == [])
    && Fits(p, cut, kept)
  }

  /** Running the program visits the slots that are executed in the revision, one after the other. */
  ghost predicate RunsAlong(program: Program, slots: Slots) {
    Ends(slots) && Stored(program, slots) && DistinctAddrs(slots) && Linked(slots)
  }

  lemma PatchedRunsAlong(program: Program, slots: Slots, front: Slots, p: Patch, cut: Slots, kept: Slots)
    requires RunsAlong(program, slots) && slots == front + ([p.at] + (cut + kept))
    requires PatchOk(program, front, p, cut, kept)
    ensures p.at.addr < |program|
    ensures RunsAlong(PatchedProgram(program, p), WithPatch(front, p, cut, kept))
  {
    assert p.at in slots;
    PatchedLinked(front, p, cut, kept);
    PatchedStored(program, front, p, cut, kept);
    PatchedDistinct(front, p, cut, kept);
    PatchedEnds(front, p, cut, kept);
  }

  /** A patch that inserts before a line that is not newer keeps the program well woven. */
  lemma PatchedWoven(program: Program, slots: Slots, front: Slots, p: Patch, cut: Slots, kept: Slots, maxrev: nat)
    requires Woven(program, slots, maxrev) && slots == front + ([p.at] + (cut + kept))
    requires PatchOk(program, front, p, cut, kept) && p.at.born <= p.rev
    ensures p.at.addr < |program|
    ensures Woven(PatchedProgram(program, p), WithPatch(front, p, cut, kept), if p.rev > maxrev then p.rev else maxrev)
  {
    PatchedRunsAlong(program, slots, front, p, cut, kept);
    PatchedAdjacent(front, p, cut, kept);
    PatchedBounded(front, p, cut, kept, maxrev);
  }
}
