/**
 The order behind a linelog program. Every instruction that is reached in some revision has a
 slot; the slots stand in the order of the file's lines, and each knows in which revisions it is
 executed. In any revision, execution goes from each such slot to the next.
 */
module LinelogSlots {
  import opened Lists
  import opened Weave

  datatype Inst = Jge(rev: nat, target: nat) | Jl(rev: nat, target: nat) | Jump(target: nat) | Eof
      | Emit(rev: nat, num: nat)

  /** The next program counter; none at the end. */
  function Execute(inst: Inst, rev: nat, pc: nat): Option<nat> {
    match inst
    case Jge(cmp, target) => Some(if rev >= cmp then target else pc + 1)
    case Jl(cmp, target) => Some(if rev < cmp then target else pc + 1)
    case Jump(target) => Some(target)
    case Eof => None
    case Emit(_, _) => Some(pc + 1)
  }

  datatype Slot = Slot(addr: nat, inst: Inst, born: nat, gone: Option<nat>)

  type Slots = seq<Slot>

  predicate Alive(s: Slot, r: nat) {
    s.born <= r && (s.gone.None? || r < s.gone.value)
  }

  function FirstAlive(slots: Slots, r: nat): Option<nat> {
    if slots == [] then None
    else if Alive(slots[0], r) then Some(slots[0].addr)
    else FirstAlive(slots[1..], r)
  }

  /** Wherever the slot is executed, execution goes on with the next slot that is. */
  ghost predicate StepsOn(s: Slot, rest: Slots) {
    forall r: nat :: Alive(s, r) ==> Execute(s.inst, r, s.addr) == FirstAlive(rest, r)
  }

  ghost predicate Linked(slots: Slots) {
    slots == [] || (StepsOn(slots[0], slots[1..]) && Linked(slots[1..]))
  }

  /** The next address if no revision is asked for: conditional jumps are not taken. */
  function After(s: Slot): nat {
    if s.inst.Jump? then s.inst.target else s.addr + 1
  }

  ghost predicate Adjacent(slots: Slots) {
    |slots| <= 1 || (After(slots[0]) == slots[1].addr && Adjacent(slots[1..]))
  }

  ghost predicate DistinctAddrs(slots: Slots) {
    forall i, j :: 0 <= i < j < |slots| ==> slots[i].addr != slots[j].addr
  }

  // ---------------------------------------------------------------------------------------
  // Lines

  datatype Info = Info(rev: nat, num: nat, offset: nat)

  function LineOf(s: Slot): Lines {
    if s.inst.Emit? then [Line(s.inst.rev, s.inst.num, s.gone)] else []
  }

  /** The weave a program stands for. */
  function LinesOf(slots: Slots): Lines {
    if slots == [] then [] else LineOf(slots[0]) + LinesOf(slots[1..])
  }

  function InfoAt(s: Slot, at: Option<nat>): seq<Info> {
    if s.inst.Emit? && (if at.None? then s.gone.None? else Alive(s, at.value))
    then [Info(s.inst.rev, s.inst.num, s.addr)] else []
  }

  function InfosAt(slots: Slots, at: Option<nat>): seq<Info> {
    if slots == [] then [] else InfoAt(slots[0], at) + InfosAt(slots[1..], at)
  }

  function IdsOf(infos: seq<Info>): (r: seq<Id>)
    ensures |r| == |infos| && forall i :: 0 <= i < |r| ==> r[i] == Id(infos[i].rev, infos[i].num)
  {
    seq(|infos|, i requires 0 <= i < |infos| => Id(infos[i].rev, infos[i].num))
  }

  ghost predicate BornRight(slots: Slots) {
    forall s :: s in slots && s.inst.Emit? ==> s.born == s.inst.rev
  }

  /** The lines executed in a revision are those the weave shows there. */
  lemma {:induction false} InfosAreShown(slots: Slots, at: Option<nat>)
    requires BornRight(slots)
    ensures IdsOf(InfosAt(slots, at)) == Shown(LinesOf(slots), at)
  {
    if slots != [] {
      var s := slots[0];
      assert s in slots && forall t :: t in slots[1..] ==> t in slots;
      InfosAreShown(slots[1..], at);
      ShownConcat(LineOf(s), LinesOf(slots[1..]), at);
      OneInfoIsShown(s, at);
      IdsOfConcat(InfoAt(s, at), InfosAt(slots[1..], at));
    }
  }

  lemma OneInfoIsShown(s: Slot, at: Option<nat>)
    requires s.inst.Emit? ==> s.born == s.inst.rev
    ensures IdsOf(InfoAt(s, at)) == Shown(LineOf(s), at)
  {
    if s.inst.Emit? {
      var l := Line(s.inst.rev, s.inst.num, s.gone);
      assert [l][1..] == [];
      assert Shown([l], at) == Ids(l, at) + [] == Ids(l, at);
    }
  }

  lemma IdsOfConcat(a: seq<Info>, b: seq<Info>)
    ensures IdsOf(a + b) == IdsOf(a) + IdsOf(b)
  {
  }

  lemma {:induction false} LinesOfConcat(x: Slots, y: Slots)
    ensures LinesOf(x + y) == LinesOf(x) + LinesOf(y)
  {
    if x == [] {
      assert x + y == y;
    } else {
      LinesOfConcat(x[1..], y);
      assert (x + y)[1..] == x[1..] + y;
      ConcatAssociates(LineOf(x[0]), LinesOf(x[1..]), LinesOf(y));
    }
  }

  lemma {:induction false} InfosAtConcat(x: Slots, y: Slots, at: Option<nat>)
    ensures InfosAt(x + y, at) == InfosAt(x, at) + InfosAt(y, at)
  {
    if x == [] {
      assert x + y == y;
    } else {
      InfosAtConcat(x[1..], y, at);
      assert (x + y)[1..] == x[1..] + y;
      ConcatAssociates(InfoAt(x[0], at), InfosAt(x[1..], at), InfosAt(y, at));
    }
  }

  /** The slot of a live line. */
  lemma {:induction false} Locate(slots: Slots, a: nat) returns (p: nat)
    requires a < |InfosAt(slots, None)|
    ensures p < |slots| && slots[p].inst.Emit? && slots[p].gone.None?
    ensures InfosAt(slots, None)[a] == Info(slots[p].inst.rev, slots[p].inst.num, slots[p].addr)
    ensures |InfosAt(slots[..p], None)| == a && |LinesOf(slots[..p])| == Offset(LinesOf(slots), a)
  {
    var s := slots[0];
    if s.inst.Emit? && s.gone.None? && a == 0 {
      p := 0;
    } else {
      var before := |InfoAt(s, None)|;
      var k := Locate(slots[1..], a - before);
      p := k + 1;
      assert slots[..p][0] == s && slots[..p][1..] == slots[1..][..k];
      OffsetBehind(LineOf(s), LinesOf(slots[1..]), a);
    }
  }

  lemma OffsetBehind(l: Lines, w: Lines, a: nat)
    requires |l| <= 1 && (l != [] && l[0].gone.None? ==> a > 0)
    ensures Offset(l + w, a) == |l| + Offset(w, if l != [] && l[0].gone.None? then a - 1 else a)
  {
    if l == [] {
      assert l + w == w;
    } else {
      assert (l + w)[1..] == w;
    }
  }

  // ---------------------------------------------------------------------------------------
  // Replacing parts of the order

  lemma {:induction false} FirstAliveConcat(x: Slots, y: Slots, r: nat)
    ensures FirstAlive(x + y, r) == if FirstAlive(x, r).Some? then FirstAlive(x, r) else FirstAlive(y, r)
  {
    if x == [] {
      assert x + y == y;
    } else {
      assert (x + y)[1..] == x[1..] + y;
      FirstAliveConcat(x[1..], y, r);
    }
  }

  ghost predicate SameStart(y: Slots, z: Slots) {
    forall r: nat :: FirstAlive(y, r) == FirstAlive(z, r)
  }

  /** What comes behind can be exchanged for anything that starts alike. */
  lemma {:induction false} LinkedFront(x: Slots, y: Slots, z: Slots)
    requires Linked(x + y) && Linked(z) && SameStart(y, z)
    ensures Linked(x + z)
  {
    if x == [] {
      assert x + z == z;
    } else {
      assert (x + y)[1..] == x[1..] + y && (x + z)[1..] == x[1..] + z;
      LinkedFront(x[1..], y, z);
      forall r: nat
        ensures FirstAlive(x[1..] + y, r) == FirstAlive(x[1..] + z, r)
      {
        FirstAliveConcat(x[1..], y, r);
        FirstAliveConcat(x[1..], z, r);
      }
    }
  }

  lemma {:induction false} LinkedBehind(x: Slots, y: Slots)
    requires Linked(x + y)
    ensures Linked(y)
  {
    if x == [] {
      assert x + y == y;
    } else {
      assert (x + y)[1..] == x[1..] + y;
      LinkedBehind(x[1..], y);
    }
  }

  function Capped(s: Slot, rev: nat): Slot {
    s.(gone := if s.gone.Some? && s.gone.value < rev then s.gone else Some(rev))
  }

  /** From revision `rev` on, these slots are executed no more. */
  function Cap(slots: Slots, rev: nat): (c: Slots)
    ensures |c| == |slots| && forall i :: 0 <= i < |c| ==> c[i] == Capped(slots[i], rev)
  {
    seq(|slots|, i requires 0 <= i < |slots| => Capped(slots[i], rev))
  }

  lemma {:induction false} FirstAliveCapped(slots: Slots, rev: nat, r: nat)
    ensures FirstAlive(Cap(slots, rev), r) == if r < rev then FirstAlive(slots, r) else None
  {
    if slots != [] {
      assert Cap(slots, rev)[1..] == Cap(slots[1..], rev);
      FirstAliveCapped(slots[1..], rev, r);
    }
  }

  lemma {:induction false} LinkedCapped(x: Slots, y: Slots, rev: nat)
    requires Linked(x + y)
    ensures Linked(Cap(x, rev) + y)
  {
    if x == [] {
      assert Cap(x, rev) + y == x + y;
    } else {
      assert (x + y)[1..] == x[1..] + y && (Cap(x, rev) + y)[1..] == Cap(x[1..], rev) + y;
      LinkedCapped(x[1..], y, rev);
      forall r: nat | r < rev
        ensures FirstAlive(Cap(x[1..], rev) + y, r) == FirstAlive(x[1..] + y, r)
      {
        FirstAliveConcat(x[1..], y, r);
        FirstAliveConcat(Cap(x[1..], rev), y, r);
        FirstAliveCapped(x[1..], rev, r);
      }
    }
  }

  lemma {:induction false} LinesOfCapped(slots: Slots, rev: nat)
    ensures LinesOf(Cap(slots, rev)) == Deleted(LinesOf(slots), rev)
  {
    if slots != [] {
      assert Cap(slots, rev)[1..] == Cap(slots[1..], rev);
      LinesOfCapped(slots[1..], rev);
    }
  }

  lemma {:induction false} NothingLiveIsCapped(slots: Slots, rev: nat)
    ensures InfosAt(Cap(slots, rev), None) == []
  {
    if slots != [] {
      assert Cap(slots, rev)[1..] == Cap(slots[1..], rev);
      NothingLiveIsCapped(slots[1..], rev);
    }
  }

  lemma {:induction false} AdjacentJoin(x: Slots, y: Slots)
    requires Adjacent(x) && Adjacent(y) && (x != [] && y != [] ==> After(x[|x| - 1]) == y[0].addr)
    ensures Adjacent(x + y)
  {
    if x == [] {
      assert x + y == y;
    } else {
      assert (x + y)[1..] == x[1..] + y;
      AdjacentJoin(x[1..], y);
    }
  }

  lemma {:induction false} AdjacentSplit(x: Slots, y: Slots)
    requires Adjacent(x + y)
    ensures Adjacent(x) && Adjacent(y) && (x != [] && y != [] ==> After(x[|x| - 1]) == y[0].addr)
  {
    if x == [] {
      assert x + y == y;
    } else {
      assert (x + y)[1..] == x[1..] + y;
      AdjacentSplit(x[1..], y);
    }
  }

  lemma {:induction false} AdjacentAt(slots: Slots, k: nat)
    requires Adjacent(slots) && k + 1 < |slots|
    ensures After(slots[k]) == slots[k + 1].addr
  {
    if k > 0 {
      AdjacentAt(slots[1..], k - 1);
    }
  }

  lemma {:induction false} AdjacentCapped(slots: Slots, rev: nat)
    requires Adjacent(slots)
    ensures Adjacent(Cap(slots, rev))
  {
    if slots != [] {
      assert Cap(slots, rev)[1..] == Cap(slots[1..], rev);
      AdjacentCapped(slots[1..], rev);
    }
  }
}
