/** What `replacelines` does to the order behind a program, and that execution still follows it. */
module LinelogPatch {
  import opened Lists
  import opened Weave
  import opened LinelogSlots

  /**
   A patch at the slot `at`, with the instructions appended from address `base` on: revision
   `rev` inserts its lines `[b1, b2)`, and if `del`, skips ahead to address `end`.
   */
  datatype Patch = Patch(at: Slot, base: nat, rev: nat, b1: nat, b2: nat, del: bool, end: nat)

  function Emits(rev: nat, b1: nat, b2: nat, base: nat, born: nat): (s: Slots)
    requires b1 <= b2
    ensures |s| == b2 - b1 && forall i :: 0 <= i < |s| ==> s[i] == Slot(base + i, Emit(rev, b1 + i), born, None)
  {
    seq(b2 - b1, i requires 0 <= i < b2 - b1 => Slot(base + i, Emit(rev, b1 + i), born, None))
  }

  /** New lines are there from their revision on, but not before the line they are inserted at. */
  function NewBorn(p: Patch): nat {
    if p.at.born > p.rev then p.at.born else p.rev
  }

  function NewEmits(p: Patch): Slots
    requires p.b1 <= p.b2
  {
    Emits(p.rev, p.b1, p.b2, p.base + 1, NewBorn(p))
  }

  function Insertion(p: Patch): Slots
    requires p.b1 <= p.b2
  {
    if p.b1 == p.b2 then []
    else [Slot(p.base, Jl(p.rev, p.base + (p.b2 - p.b1 + 1)), p.at.born, None)] + NewEmits(p)
  }

  function SkipAddr(p: Patch): nat
    requires p.b1 <= p.b2
  {
    p.base + if p.b1 == p.b2 then 0 else p.b2 - p.b1 + 1
  }

  function Skip(p: Patch): Slots
    requires p.b1 <= p.b2
  {
    if p.del then [Slot(SkipAddr(p), Jge(p.rev, p.end), p.at.born, None)] else []
  }

  function MovedAddr(p: Patch): nat
    requires p.b1 <= p.b2
  {
    SkipAddr(p) + if p.del then 1 else 0
  }

  function Moved(p: Patch): Slot
    requires p.b1 <= p.b2
  {
    Slot(MovedAddr(p), p.at.inst, p.at.born, if p.del then Some(p.rev) else None)
  }

  function Return(p: Patch): Slots
    requires p.b1 <= p.b2
  {
    if p.at.inst.Emit? then [Slot(MovedAddr(p) + 1, Jump(p.at.addr + 1), p.at.born, Moved(p).gone)] else []
  }

  function Appended(p: Patch): Slots
    requires p.b1 <= p.b2
  {
    Insertion(p) + (Skip(p) + ([Moved(p)] + Return(p)))
  }

  function Head(p: Patch): Slot {
    Slot(p.at.addr, Jump(p.base), p.at.born, None)
  }

  // ---------------------------------------------------------------------------------------
  // Execution

  /** What comes behind the patched slot: slots to be skipped, then slots to be kept. */
  ghost predicate Fits(p: Patch, cut: Slots, kept: Slots) {
    && p.b1 <= p.b2 && p.at.gone.None? && (p.del ==> p.at.born <= p.rev) && (p.at.inst.Emit? || p.at.inst.Eof?)
    && Linked([p.at] + (cut + kept))
    && (!p.del ==> cut == [])
    && (p.del ==> kept != [] && kept[0].addr == p.end && forall r: nat :: r >= p.rev ==> Alive(kept[0], r))
  }

  /** Execution starts at this address from revision `born` on, and else as given. */
  ghost predicate StartsAt(slots: Slots, addr: nat, born: nat, otherwise: Slots) {
    forall r: nat :: FirstAlive(slots, r) == if r >= born then Some(addr) else FirstAlive(otherwise, r)
  }

  lemma FitsParts(p: Patch, cut: Slots, kept: Slots)
    requires Fits(p, cut, kept)
    ensures StepsOn(p.at, cut + kept) && Linked(cut + kept)
  {
    assert ([p.at] + (cut + kept))[1..] == cut + kept;
  }

  lemma RestCapped(p: Patch, cut: Slots, kept: Slots, r: nat)
    requires Fits(p, cut, kept)
    ensures FirstAlive(Cap(cut, p.rev) + kept, r) ==
              if p.del && r >= p.rev then Some(p.end) else FirstAlive(cut + kept, r)
  {
    FirstAliveConcat(Cap(cut, p.rev), kept, r);
    FirstAliveConcat(cut, kept, r);
    FirstAliveCapped(cut, p.rev, r);
  }

  lemma LinkedCons(s: Slot, rest: Slots)
    requires Linked(rest) && StepsOn(s, rest)
    ensures Linked([s] + rest)
  {
    assert ([s] + rest)[1..] == rest;
  }

  lemma FirstAliveCons(s: Slot, rest: Slots, r: nat)
    ensures FirstAlive([s] + rest, r) == if Alive(s, r) then Some(s.addr) else FirstAlive(rest, r)
  {
    assert ([s] + rest)[1..] == rest;
  }

  lemma ReturnLinked(p: Patch, cut: Slots, kept: Slots)
    requires Fits(p, cut, kept)
    ensures Linked(Return(p) + (Cap(cut, p.rev) + kept))
    ensures StepsOn(Moved(p), Return(p) + (Cap(cut, p.rev) + kept))
  {
    var rest := Cap(cut, p.rev) + kept;
    FitsParts(p, cut, kept);
    LinkedCapped(cut, kept, p.rev);
    forall r: nat | Alive(Moved(p), r)
      ensures Execute(p.at.inst, r, p.at.addr) == FirstAlive(rest, r)
    {
      assert Alive(p.at, r);
      RestCapped(p, cut, kept, r);
    }
    if p.at.inst.Emit? {
      var back := Return(p)[0];
      LinkedCons(back, rest);
      assert Return(p) == [back];
      forall r: nat
        ensures Alive(back, r) ==> FirstAlive([back] + rest, r) == Some(back.addr)
      {
        FirstAliveCons(back, rest, r);
      }
    } else {
      assert [] + rest == rest;
    }
  }

  lemma MovedLinked(p: Patch, cut: Slots, kept: Slots)
    requires Fits(p, cut, kept)
    ensures var z := [Moved(p)] + (Return(p) + (Cap(cut, p.rev) + kept));
            && Linked(z)
            && forall r: nat :: FirstAlive(z, r) ==
                                  if p.del && r >= p.rev then Some(p.end)
                                  else if r >= p.at.born then Some(MovedAddr(p))
                                  else FirstAlive(cut + kept, r)
  {
    var rest := Return(p) + (Cap(cut, p.rev) + kept);
    ReturnLinked(p, cut, kept);
    LinkedCons(Moved(p), rest);
    forall r: nat
      ensures FirstAlive([Moved(p)] + rest, r) ==
                if p.del && r >= p.rev then Some(p.end)
                else if r >= p.at.born then Some(MovedAddr(p)) else FirstAlive(cut + kept, r)
    {
      FirstAliveCons(Moved(p), rest, r);
      FirstAliveConcat(Return(p), Cap(cut, p.rev) + kept, r);
      RestCapped(p, cut, kept, r);
      if p.at.inst.Emit? {
        assert Return(p)[1..] == [];
      }
    }
  }

  lemma SkipLinked(p: Patch, cut: Slots, kept: Slots)
    requires Fits(p, cut, kept)
    ensures var z := Skip(p) + ([Moved(p)] + (Return(p) + (Cap(cut, p.rev) + kept)));
            Linked(z) && StartsAt(z, SkipAddr(p), p.at.born, cut + kept)
  {
    var rest := [Moved(p)] + (Return(p) + (Cap(cut, p.rev) + kept));
    MovedLinked(p, cut, kept);
    if p.del {
      var s := Skip(p)[0];
      assert Skip(p) == [s];
      LinkedCons(s, rest);
      forall r: nat
        ensures FirstAlive([s] + rest, r) == if r >= p.at.born then Some(SkipAddr(p)) else FirstAlive(cut + kept, r)
      {
        FirstAliveCons(s, rest, r);
      }
    } else {
      assert [] + rest == rest;
    }
  }

  lemma {:induction false} EmitsLinked(rev: nat, b1: nat, b2: nat, base: nat, born: nat, z: Slots)
    requires b1 <= b2 && Linked(z) && forall r: nat :: r >= born ==> FirstAlive(z, r) == Some(base + (b2 - b1))
    ensures Linked(Emits(rev, b1, b2, base, born) + z)
    ensures forall r: nat :: FirstAlive(Emits(rev, b1, b2, base, born) + z, r) ==
                               if r >= born && b1 < b2 then Some(base) else FirstAlive(z, r)
    decreases b2 - b1
  {
    var es := Emits(rev, b1, b2, base, born);
    if b1 == b2 {
      assert es + z == z;
    } else {
      EmitsLinked(rev, b1 + 1, b2, base + 1, born, z);
      var rest := Emits(rev, b1 + 1, b2, base + 1, born) + z;
      assert es + z == [es[0]] + rest;
      LinkedCons(es[0], rest);
      forall r: nat
        ensures FirstAlive(es + z, r) == if r >= born then Some(base) else FirstAlive(z, r)
      {
        FirstAliveCons(es[0], rest, r);
      }
    }
  }

  lemma InsertionLinked(p: Patch, z: Slots, otherwise: Slots)
    requires p.b1 <= p.b2 && Linked(z) && StartsAt(z, SkipAddr(p), p.at.born, otherwise)
    ensures Linked(Insertion(p) + z) && StartsAt(Insertion(p) + z, p.base, p.at.born, otherwise)
  {
    if p.b1 == p.b2 {
      assert Insertion(p) + z == z;
    } else {
      var es, jl := NewEmits(p), Insertion(p)[0];
      EmitsLinked(p.rev, p.b1, p.b2, p.base + 1, NewBorn(p), z);
      assert Insertion(p) + z == [jl] + (es + z);
      LinkedCons(jl, es + z);
      forall r: nat
        ensures FirstAlive([jl] + (es + z), r) == if r >= p.at.born then Some(p.base) else FirstAlive(otherwise, r)
      {
        FirstAliveCons(jl, es + z, r);
      }
    }
  }

  lemma Regroup<T>(a: seq<T>, b: seq<T>, c: seq<T>, d: seq<T>, e: seq<T>)
    ensures (a + (b + (c + d))) + e == a + (b + (c + (d + e)))
  {
  }

  /** Execution follows the patched order, and comes to it as it came to the unpatched one. */
  lemma PatchLinked(p: Patch, cut: Slots, kept: Slots)
    requires Fits(p, cut, kept)
    ensures var z := [Head(p)] + (Appended(p) + (Cap(cut, p.rev) + kept));
            Linked(z) && SameStart([p.at] + (cut + kept), z)
  {
    SkipLinked(p, cut, kept);
    var z := Skip(p) + ([Moved(p)] + (Return(p) + (Cap(cut, p.rev) + kept)));
    InsertionLinked(p, z, cut + kept);
    Regroup(Insertion(p), Skip(p), [Moved(p)], Return(p), Cap(cut, p.rev) + kept);
    LinkedCons(Head(p), Insertion(p) + z);
    forall r: nat
      ensures FirstAlive([p.at] + (cut + kept), r) == FirstAlive([Head(p)] + (Insertion(p) + z), r)
    {
      FirstAliveCons(p.at, cut + kept, r);
      FirstAliveCons(Head(p), Insertion(p) + z, r);
    }
  }

  /** The whole order with the patch made. */
  function WithPatch(front: Slots, p: Patch, cut: Slots, kept: Slots): Slots
    requires p.b1 <= p.b2
  {
    front + ([Head(p)] + (Appended(p) + (Cap(cut, p.rev) + kept)))
  }

  lemma PatchedLinked(front: Slots, p: Patch, cut: Slots, kept: Slots)
    requires Linked(front + ([p.at] + (cut + kept)))
    requires Linked([p.at] + (cut + kept)) ==> Fits(p, cut, kept)
    ensures p.b1 <= p.b2 && Linked(WithPatch(front, p, cut, kept))
  {
    LinkedBehind(front, [p.at] + (cut + kept));
    PatchLinked(p, cut, kept);
    LinkedFront(front, [p.at] + (cut + kept), [Head(p)] + (Appended(p) + (Cap(cut, p.rev) + kept)));
  }

  // ---------------------------------------------------------------------------------------
  // Lines

  lemma {:induction false} LinesOfEmits(rev: nat, b1: nat, b2: nat, base: nat, born: nat)
    requires b1 <= b2
    ensures LinesOf(Emits(rev, b1, b2, base, born)) == Inserted(rev, b1, b2)
    decreases b2 - b1
  {
    if b1 < b2 {
      assert Emits(rev, b1, b2, base, born)[1..] == Emits(rev, b1 + 1, b2, base + 1, born);
      LinesOfEmits(rev, b1 + 1, b2, base + 1, born);
      assert Inserted(rev, b1, b2) == [Line(rev, b1, None)] + Inserted(rev, b1 + 1, b2);
    }
  }

  lemma LinesOfCons(s: Slot, rest: Slots)
    ensures LinesOf([s] + rest) == LineOf(s) + LinesOf(rest)
    ensures LinesOf([s]) == LineOf(s)
  {
    assert ([s] + rest)[1..] == rest && [s][1..] == [];
  }

  lemma LinesOfInsertion(p: Patch)
    requires p.b1 <= p.b2
    ensures LinesOf(Insertion(p)) == Inserted(p.rev, p.b1, p.b2)
  {
    if p.b1 < p.b2 {
      LinesOfCons(Insertion(p)[0], NewEmits(p));
      LinesOfEmits(p.rev, p.b1, p.b2, p.base + 1, NewBorn(p));
    }
  }

  lemma LinesOfAppended(p: Patch)
    requires p.b1 <= p.b2
    ensures LinesOf(Appended(p)) == Inserted(p.rev, p.b1, p.b2) + LineOf(Moved(p))
  {
    LinesOfInsertion(p);
    LinesOfReturn(p);
    LinesOfCons(Moved(p), Return(p));
    LinesOfConcat(Skip(p), [Moved(p)] + Return(p));
    LinesOfConcat(Insertion(p), Skip(p) + ([Moved(p)] + Return(p)));
  }

  lemma LinesOfReturn(p: Patch)
    requires p.b1 <= p.b2
    ensures LinesOf(Return(p)) == [] && LinesOf(Skip(p)) == []
  {
    if p.at.inst.Emit? {
      LinesOfCons(Return(p)[0], []);
    }
    if p.del {
      LinesOfCons(Skip(p)[0], []);
    }
  }

  /** The lines in the order with the patch made. */
  lemma LinesOfPatched(front: Slots, p: Patch, cut: Slots, kept: Slots)
    requires p.b1 <= p.b2
    ensures LinesOf(WithPatch(front, p, cut, kept))
         == LinesOf(front) + (Inserted(p.rev, p.b1, p.b2)
                              + (LineOf(Moved(p)) + (Deleted(LinesOf(cut), p.rev) + LinesOf(kept))))
  {
    LinesOfConcat(front, [Head(p)] + (Appended(p) + (Cap(cut, p.rev) + kept)));
    LinesOfPatch(p, cut, kept);
  }

  lemma LinesOfPatch(p: Patch, cut: Slots, kept: Slots)
    requires p.b1 <= p.b2
    ensures LinesOf([Head(p)] + (Appended(p) + (Cap(cut, p.rev) + kept)))
         == Inserted(p.rev, p.b1, p.b2) + (LineOf(Moved(p)) + (Deleted(LinesOf(cut), p.rev) + LinesOf(kept)))
  {
    var rest := Cap(cut, p.rev) + kept;
    LinesOfCons(Head(p), Appended(p) + rest);
    assert LineOf(Head(p)) + LinesOf(Appended(p) + rest) == LinesOf(Appended(p) + rest);
    LinesOfConcat(Appended(p), rest);
    LinesOfAppended(p);
    LinesOfRest(cut, kept, p.rev);
    ConcatAssociates(Inserted(p.rev, p.b1, p.b2), LineOf(Moved(p)), LinesOf(rest));
  }

  lemma LinesOfRest(cut: Slots, kept: Slots, rev: nat)
    ensures LinesOf(Cap(cut, rev) + kept) == Deleted(LinesOf(cut), rev) + LinesOf(kept)
  {
    LinesOfConcat(Cap(cut, rev), kept);
    LinesOfCapped(cut, rev);
  }

  // ---------------------------------------------------------------------------------------
  // The live lines and where they are

  function NewInfos(rev: nat, b1: nat, b2: nat, base: nat): (r: seq<Info>)
    requires b1 <= b2
    ensures |r| == b2 - b1 && forall i :: 0 <= i < |r| ==> r[i] == Info(rev, b1 + i, base + i)
  {
    seq(b2 - b1, i requires 0 <= i < b2 - b1 => Info(rev, b1 + i, base + i))
  }

  lemma {:induction false} InfosOfEmits(rev: nat, b1: nat, b2: nat, base: nat, born: nat, at: Option<nat>)
    requires b1 <= b2
    ensures InfosAt(Emits(rev, b1, b2, base, born), at)
         == if at.Some? && at.value < born then [] else NewInfos(rev, b1, b2, base)
    decreases b2 - b1
  {
    if b1 < b2 {
      assert Emits(rev, b1, b2, base, born)[1..] == Emits(rev, b1 + 1, b2, base + 1, born);
      InfosOfEmits(rev, b1 + 1, b2, base + 1, born, at);
      assert NewInfos(rev, b1, b2, base) == [Info(rev, b1, base)] + NewInfos(rev, b1 + 1, b2, base + 1);
    }
  }

  lemma InfosOfCons(s: Slot, rest: Slots, at: Option<nat>)
    ensures InfosAt([s] + rest, at) == InfoAt(s, at) + InfosAt(rest, at)
    ensures InfosAt([s], at) == InfoAt(s, at)
  {
    assert ([s] + rest)[1..] == rest && [s][1..] == [];
  }

  lemma InfosOfInsertion(p: Patch, at: Option<nat>)
    requires p.b1 <= p.b2
    ensures InfosAt(Insertion(p), at) == InfosOfNew(p, at)
  {
    if p.b1 < p.b2 {
      InfosOfCons(Insertion(p)[0], NewEmits(p), at);
      InfosOfEmits(p.rev, p.b1, p.b2, p.base + 1, NewBorn(p), at);
    }
  }

  function InfosOfNew(p: Patch, at: Option<nat>): seq<Info>
    requires p.b1 <= p.b2
  {
    if at.Some? && at.value < NewBorn(p) then [] else NewInfos(p.rev, p.b1, p.b2, p.base + 1)
  }

  lemma InfosOfReturn(p: Patch, at: Option<nat>)
    requires p.b1 <= p.b2
    ensures InfosAt(Return(p), at) == [] && InfosAt(Skip(p), at) == []
  {
    if p.at.inst.Emit? {
      InfosOfCons(Return(p)[0], [], at);
    }
    if p.del {
      InfosOfCons(Skip(p)[0], [], at);
    }
  }

  lemma InfosOfAppended(p: Patch, at: Option<nat>)
    requires p.b1 <= p.b2
    ensures InfosAt(Appended(p), at) == InfosOfNew(p, at) + InfoAt(Moved(p), at)
  {
    InfosOfInsertion(p, at);
    InfosOfReturn(p, at);
    InfosOfCons(Moved(p), Return(p), at);
    InfosAtConcat(Skip(p), [Moved(p)] + Return(p), at);
    InfosAtConcat(Insertion(p), Skip(p) + ([Moved(p)] + Return(p)), at);
  }

  /** The lines executed in a revision, or live, in the order with the patch made. */
  lemma InfosOfPatched(front: Slots, p: Patch, cut: Slots, kept: Slots, at: Option<nat>)
    requires p.b1 <= p.b2
    ensures InfosAt(WithPatch(front, p, cut, kept), at)
         == InfosAt(front, at) + (InfosOfNew(p, at)
                                  + (InfoAt(Moved(p), at) + (InfosAt(Cap(cut, p.rev), at) + InfosAt(kept, at))))
  {
    InfosAtConcat(front, [Head(p)] + (Appended(p) + (Cap(cut, p.rev) + kept)), at);
    InfosOfPatch(p, cut, kept, at);
  }

  lemma InfosOfPatch(p: Patch, cut: Slots, kept: Slots, at: Option<nat>)
    requires p.b1 <= p.b2
    ensures InfosAt([Head(p)] + (Appended(p) + (Cap(cut, p.rev) + kept)), at)
         == InfosOfNew(p, at) + (InfoAt(Moved(p), at) + (InfosAt(Cap(cut, p.rev), at) + InfosAt(kept, at)))
  {
    var rest := Cap(cut, p.rev) + kept;
    InfosOfCons(Head(p), Appended(p) + rest, at);
    assert InfoAt(Head(p), at) + InfosAt(Appended(p) + rest, at) == InfosAt(Appended(p) + rest, at);
    InfosAtConcat(Appended(p), rest, at);
    InfosOfAppended(p, at);
    InfosAtConcat(Cap(cut, p.rev), kept, at);
    ConcatAssociates(InfosOfNew(p, at), InfoAt(Moved(p), at), InfosAt(rest, at));
  }

  /** The live lines in the order with the patch made. */
  lemma LiveOfPatched(front: Slots, p: Patch, cut: Slots, kept: Slots)
    requires p.b1 <= p.b2
    ensures InfosAt(WithPatch(front, p, cut, kept), None)
         == InfosAt(front, None) + (NewInfos(p.rev, p.b1, p.b2, p.base + 1)
                                    + (InfoAt(Moved(p), None) + InfosAt(kept, None)))
  {
    InfosOfPatched(front, p, cut, kept, None);
    NothingLiveIsCapped(cut, p.rev);
    assert [] + InfosAt(kept, None) == InfosAt(kept, None);
  }

  // ---------------------------------------------------------------------------------------
  // Addresses

  ghost predicate Consecutive(slots: Slots, base: nat) {
    forall i :: 0 <= i < |slots| ==> slots[i].addr == base + i
  }

  lemma AppendedConsecutive(p: Patch)
    requires p.b1 <= p.b2
    ensures Consecutive(Appended(p), p.base) && Appended(p) != []
    ensures p.at.inst.Emit? ==> After(Appended(p)[|Appended(p)| - 1]) == p.at.addr + 1
    ensures forall i :: 0 <= i < |Appended(p)| - 1 && !p.at.inst.Jump? ==> !Appended(p)[i].inst.Jump?
  {
    assert |Insertion(p)| == SkipAddr(p) - p.base && Consecutive(Insertion(p), p.base);
    assert |Skip(p)| == MovedAddr(p) - SkipAddr(p) && Consecutive(Skip(p), SkipAddr(p));
    ConsecutiveJoin([Moved(p)], Return(p), MovedAddr(p));
    ConsecutiveJoin(Skip(p), [Moved(p)] + Return(p), SkipAddr(p));
    ConsecutiveJoin(Insertion(p), Skip(p) + ([Moved(p)] + Return(p)), p.base);
  }

  lemma ConsecutiveJoin(x: Slots, y: Slots, base: nat)
    requires Consecutive(x, base) && Consecutive(y, base + |x|)
    ensures Consecutive(x + y, base)
  {
  }

  lemma {:induction false} ConsecutiveAdjacent(slots: Slots, base: nat)
    requires Consecutive(slots, base) && forall i :: 0 <= i < |slots| - 1 ==> !slots[i].inst.Jump?
    ensures Adjacent(slots)
  {
    if slots != [] {
      assert forall i :: 0 <= i < |slots| - 1 ==> slots[1..][i] == slots[i + 1];
      ConsecutiveAdjacent(slots[1..], base + 1);
    }
  }

  lemma PatchedAdjacent(front: Slots, p: Patch, cut: Slots, kept: Slots)
    requires p.b1 <= p.b2 && (p.at.inst.Emit? || (p.at.inst.Eof? && cut + kept == []))
    requires Adjacent(front + ([p.at] + (cut + kept)))
    ensures Adjacent(WithPatch(front, p, cut, kept))
  {
    var rest := Cap(cut, p.rev) + kept;
    AdjacentSplit(front, [p.at] + (cut + kept));
    AdjacentSplit([p.at], cut + kept);
    AdjacentSplit(cut, kept);
    AdjacentCapped(cut, p.rev);
    AdjacentJoin(Cap(cut, p.rev), kept);
    AppendedConsecutive(p);
    ConsecutiveAdjacent(Appended(p), p.base);
    AdjacentJoin(Appended(p), rest);
    AdjacentJoin([Head(p)], Appended(p) + rest);
    AdjacentJoin(front, [Head(p)] + (Appended(p) + rest));
  }
}
