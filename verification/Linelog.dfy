/** The linelog as its callers see it: run it for a revision, or replace lines of the newest one. */
module Linelog {
  import opened Lists
  import opened Weave
  import opened LinelogSlots
  import opened LinelogPatch
  import opened LinelogProgram
  import opened LinelogEdits

  /** The result of a run: the lines with the addresses of their instructions, and that of the end. */
  datatype Annotated = Annotated(lines: seq<Info>, eof: nat)

  ghost function AnnotatedAt(slots: Slots, at: Option<nat>): Annotated
    requires slots != []
  {
    Annotated(InfosAt(slots, at), slots[|slots| - 1].addr)
  }

  lemma {:induction false} NewestInfos(slots: Slots, maxrev: nat, r: nat)
    requires Bounded(slots, maxrev) && maxrev <= r
    ensures InfosAt(slots, Some(r)) == InfosAt(slots, None)
  {
    if slots != [] {
      assert slots[0] in slots && forall s :: s in slots[1..] ==> s in slots;
      NewestInfos(slots[1..], maxrev, r);
    }
  }

  /** The run loop of `annotate`. */
  method Run(program: Program, rev: nat, ghost slots: Slots) returns (ok: bool, result: Annotated)
    requires RunsAlong(program, slots)
    ensures ok && result == AnnotatedAt(slots, Some(rev))
  {
    var pc: Option<nat>, lastpc: nat, executed: nat, lines: seq<Info> := Some(1), 1, 0, [];
    ghost var k: nat := 0;
    SlotsFit(program, slots);
    while pc.Some? && executed < |program|
      invariant pc.Some? ==> At(slots, rev, k, pc.value) && executed <= k && lines == InfosAt(slots[..k], Some(rev))
      invariant pc.None? ==> lines == InfosAt(slots, Some(rev)) && lastpc == slots[|slots| - 1].addr
      decreases pc.Some?, |slots| - k
    {
      assert slots[k] in slots;
      var inst := program[pc.value];
      lastpc := pc.value;
      ghost var j := Step(slots, rev, k, pc.value);
      lines := lines + Emitted(inst, lastpc);
      if k == |slots| - 1 {
        LastSlot(slots, rev);
      }
      pc := Execute(inst, rev, lastpc);
      executed, k := executed + 1, j;
    }
    ok, result := pc.None?, Annotated(lines, lastpc);
  }

  function Emitted(inst: Inst, pc: nat): seq<Info> {
    if inst.Emit? then [Info(inst.rev, inst.num, pc)] else []
  }

  lemma LastSlot(slots: Slots, rev: nat)
    requires Ends(slots)
    ensures InfosAt(slots, Some(rev)) == InfosAt(slots[..|slots| - 1], Some(rev))
    ensures slots[|slots| - 1].inst.Eof?
  {
    var n := |slots| - 1;
    assert slots == slots[..n] + [slots[n]];
    InfosAtConcat(slots[..n], [slots[n]], Some(rev));
    assert [slots[n]][1..] == [];
  }

  /** The instructions of a patch, appended, and the jump to them patched in. */
  method Append(program: Program, inst: Inst, offset: nat, rev: nat, b1: nat, b2: nat, del: bool, end: nat,
      ghost p: Patch)
    returns (program': Program, infos: seq<Info>, instpc: nat)
    requires b1 <= b2 && 0 < offset < |program| && (inst.Emit? || inst.Eof?)
    requires p == Patch(Slot(offset, inst, p.at.born, p.at.gone), |program|, rev, b1, b2, del, end)
    ensures program' == PatchedProgram(program, p)
    ensures infos == NewInfos(rev, b1, b2, |program| + 1) && instpc == MovedAddr(p)
  {
    program', infos := AppendInsertion(program, rev, b1, b2, p);
    program' := AppendSkip(program', rev, del, end, p);
    instpc := |program'|;
    program' := AppendMoved(program', inst, offset, p);
    InstsOfAppended(p, program);
    program' := program'[offset := Jump(|program|)];
  }

  method AppendSkip(program: Program, rev: nat, del: bool, end: nat, ghost p: Patch) returns (program': Program)
    requires p.rev == rev && p.del == del && p.end == end && p.b1 <= p.b2
    ensures program' == program + Insts(Skip(p))
  {
    program' := program;
    if del {
      program' := program' + [Jge(rev, end)];
    }
  }

  method AppendMoved(program: Program, inst: Inst, offset: nat, ghost p: Patch) returns (program': Program)
    requires inst == p.at.inst && offset == p.at.addr && (inst.Emit? || inst.Eof?) && p.b1 <= p.b2
    ensures program' == program + Insts([Moved(p)] + Return(p))
  {
    program' := program + [inst];
    if inst.Emit? {
      program' := program' + [Jump(offset + 1)];
    }
  }

  lemma InstsOfAppended(p: Patch, program: Program)
    requires p.b1 <= p.b2 && p.base == |program|
    ensures program + Insts(Insertion(p)) + Insts(Skip(p)) + Insts([Moved(p)] + Return(p)) ==
            program + Insts(Appended(p))
    ensures |program + Insts(Insertion(p)) + Insts(Skip(p))| == MovedAddr(p)
  {
    InstsConcat(Skip(p), [Moved(p)] + Return(p));
    InstsConcat(Insertion(p), Skip(p) + ([Moved(p)] + Return(p)));
    FourParts(program, Insts(Insertion(p)), Insts(Skip(p)), Insts([Moved(p)] + Return(p)));
  }

  lemma InstsConcat(x: Slots, y: Slots)
    ensures Insts(x + y) == Insts(x) + Insts(y)
  {
  }

  lemma FourParts<T>(a: seq<T>, b: seq<T>, c: seq<T>, d: seq<T>)
    ensures ((a + b) + c) + d == a + (b + (c + d))
  {
  }

  method AppendInsertion(program: Program, rev: nat, b1: nat, b2: nat, ghost p: Patch)
    returns (program': Program, infos: seq<Info>)
    requires b1 <= b2 && p.base == |program| && p.rev == rev && p.b1 == b1 && p.b2 == b2
    ensures program' == program + Insts(Insertion(p)) && infos == NewInfos(rev, b1, b2, |program| + 1)
  {
    program', infos := program, [];
    if b1 < b2 {
      program', infos := AppendLines(program, rev, b1, b2, p);
    }
  }

  method AppendLines(program: Program, rev: nat, b1: nat, b2: nat, ghost p: Patch)
    returns (program': Program, infos: seq<Info>)
    requires b1 < b2 && p.base == |program| && p.rev == rev && p.b1 == b1 && p.b2 == b2
    ensures program' == program + Insts(Insertion(p)) && infos == NewInfos(rev, b1, b2, |program| + 1)
  {
    program' := program + [Jl(rev, |program| + (b2 - b1 + 1))];
    infos := [];
    for linenum := b1 to b2
      invariant |program'| == |program| + 1 + (linenum - b1)
      invariant program' == program + Insts(Insertion(p))[..1 + (linenum - b1)]
      invariant infos == NewInfos(rev, b1, linenum, |program| + 1)
    {
      infos := infos + [Info(rev, linenum, |program'|)];
      program' := program' + [Emit(rev, linenum)];
    }
  }

  // ---------------------------------------------------------------------------------------
  // Where a replacement goes

  /**
   Lines may be replaced as of an older revision if those concerned are not newer: the line that
   an insertion goes before and the last line deleted. As of the newest revision they never are.
   */
  ghost predicate InOrder(live: seq<Id>, maxrev: nat, rev: nat, a1: nat, a2: nat) {
    && a1 <= a2 <= |live|
    && (a1 < |live| ==> live[a1].rev <= rev)
    && (a1 < a2 ==> rev >= maxrev || live[a2 - 1].rev <= rev)
  }

  /** Where execution goes on behind the deleted lines. */
  function EndAddr(ar: Annotated, maxrev: nat, rev: nat, a2: nat): nat
    requires 0 < a2 <= |ar.lines|
  {
    if rev < maxrev then ar.lines[a2 - 1].offset + 1
    else if a2 == |ar.lines| then ar.eof else ar.lines[a2].offset
  }

  lemma FirstIsAlive(slots: Slots, r: nat)
    requires slots != [] && DistinctAddrs(slots) && FirstAlive(slots, r) == Some(slots[0].addr)
    ensures Alive(slots[0], r)
  {
    var j := NextSlot(slots, r);
  }

  /** Behind a live line, the next slot is executed whenever that line is. */
  lemma BehindLine(program: Program, slots: Slots, maxrev: nat, q: nat, r: nat)
    requires Woven(program, slots, maxrev) && q + 1 < |slots| && slots[q].inst.Emit? && slots[q].gone.None?
    requires r >= slots[q].inst.rev
    ensures slots[q + 1].addr == slots[q].addr + 1 && Alive(slots[q + 1], r)
  {
    LinkedAt(slots, q);
    assert slots[q] in slots;
    AdjacentAt(slots, q);
    DistinctTail(slots, q + 1);
    FirstIsAlive(slots[q + 1..], r);
  }

  lemma DistinctTail(slots: Slots, k: nat)
    requires DistinctAddrs(slots) && k <= |slots|
    ensures DistinctAddrs(slots[k..])
  {
    var rest := slots[k..];
    forall i, j | 0 <= i < j < |rest|
      ensures rest[i].addr != rest[j].addr
    {
      assert rest[i] == slots[k + i] && rest[j] == slots[k + j];
    }
  }

  /** All about one replacement: where it goes, that it may go there, and what comes of it. */
  ghost predicate Planned(program: Program, slots: Slots, maxrev: nat, c: Cut, p: Patch, rev: nat, a1: nat, a2: nat,
      b1: nat, b2: nat) {
    && slots == c.front + ([c.at] + ((c.cut + c.idle) + c.kept)) && slots != []
    && a1 <= a2 <= |InfosAt(slots, None)| && a2 <= |Live(LinesOf(slots))| && b1 <= b2
    && p.at == c.at && p.base == |program| && p.rev == rev && p.b1 == b1 && p.b2 == b2 && (p.del <==> a1 < a2)
    && p.end == (if a1 < a2 then EndAddr(AnnotatedAt(slots, None), maxrev, rev, a2) else 0)
    && PatchOk(program, c.front, p, c.cut + c.idle, c.kept) && p.at.born <= p.rev
    && (if a1 < |InfosAt(slots, None)|
        then c.at.inst.Emit? && c.at.addr == InfosAt(slots, None)[a1].offset
        else c.at.inst.Eof? && c.at.addr == slots[|slots| - 1].addr)
    && LinesOf(WithPatch(c.front, p, c.cut + c.idle, c.kept)) == ReplaceLines(LinesOf(slots), rev, a1, a2, b1, b2)
    && InfosAt(WithPatch(c.front, p, c.cut + c.idle, c.kept), None)
       == NewCache(InfosAt(slots, None), a1, a2, NewInfos(rev, b1, b2, p.base + 1), MovedAddr(p))
  }

  lemma AtIsThere(program: Program, slots: Slots, maxrev: nat, c: Cut, a1: nat)
    requires Woven(program, slots, maxrev) && CutsAt(c, slots, a1)
    ensures Linked([c.at] + ((c.cut + c.idle) + c.kept))
    ensures c.at in slots && (c.at.inst.Emit? ==> c.at.born == c.at.inst.rev)
    ensures c.at.inst.Eof? ==> c.at.addr == slots[|slots| - 1].addr
    ensures c.at.inst.Eof? ==> (c.cut + c.idle) + c.kept == []
  {
    LinkedBehind(c.front, [c.at] + ((c.cut + c.idle) + c.kept));
    assert slots[|c.front|] == c.at;
    if c.at.inst.Eof? {
      assert slots[|c.front|].inst.Eof? <==> |c.front| == |slots| - 1;
      assert |slots| == |c.front| + 1 + |(c.cut + c.idle) + c.kept|;
    }
  }

  lemma PlanInsertion(program: Program, slots: Slots, maxrev: nat, rev: nat, a: nat, b1: nat, b2: nat)
    returns (c: Cut, p: Patch)
    requires Woven(program, slots, maxrev) && a <= |InfosAt(slots, None)| && b1 <= b2
    requires a < |InfosAt(slots, None)| ==> InfosAt(slots, None)[a].rev <= rev
    ensures Planned(program, slots, maxrev, c, p, rev, a, a, b1, b2)
  {
    c := CutInsertion(slots, a);
    p := Patch(c.at, |program|, rev, b1, b2, false, 0);
    AtIsThere(program, slots, maxrev, c, a);
    InsertionLines(slots, c, p, a);
    CacheIsLive(slots, c, p, a, a);
    if c.kept == [] {
      KeptEnds(slots, c);
    }
  }

  /** If nothing is kept behind it, the patched slot is the end. */
  lemma KeptEnds(slots: Slots, c: Cut)
    requires Ends(slots) && slots == Whole(c) && c.kept == [] && c.cut + c.idle == []
    ensures c.at.inst.Eof?
  {
    assert slots[|slots| - 1] == c.at;
  }

  lemma PlanDeletion(program: Program, slots: Slots, maxrev: nat, rev: nat, a1: nat, a2: nat, b1: nat, b2: nat)
    returns (c: Cut, p: Patch)
    requires Woven(program, slots, maxrev) && a1 < a2 <= |InfosAt(slots, None)| && b1 <= b2
    requires InfosAt(slots, None)[a1].rev <= rev
    requires rev >= maxrev || InfosAt(slots, None)[a2 - 1].rev <= rev
    ensures Planned(program, slots, maxrev, c, p, rev, a1, a2, b1, b2)
  {
    var q;
    c, q := CutDeletion(slots, a1, a2, rev < maxrev);
    p := Patch(c.at, |program|, rev, b1, b2, true, EndAddr(AnnotatedAt(slots, None), maxrev, rev, a2));
    DeletionFits(program, slots, maxrev, c, p, q, a1, a2);
    DeletionLines(slots, c, p, a1, a2, maxrev);
    CacheIsLive(slots, c, p, a1, a2);
  }

  lemma DeletionFits(program: Program, slots: Slots, maxrev: nat, c: Cut, p: Patch, q: nat, a1: nat, a2: nat)
    requires Woven(program, slots, maxrev) && CutsAt(c, slots, a1) && c.kept != [] && a1 < a2 && LastAt(slots, a2, q)
    requires p.at == c.at && p.base == |program| && p.b1 <= p.b2 && p.del
    requires p.end == EndAddr(AnnotatedAt(slots, None), maxrev, p.rev, a2)
    requires InfosAt(slots, None)[a1].rev <= p.rev
    requires p.rev >= maxrev || InfosAt(slots, None)[a2 - 1].rev <= p.rev
    requires p.rev < maxrev ==> q + 1 < |slots| && c.kept == slots[q + 1..]
    requires p.rev >= maxrev ==> c.kept[0].gone.None? && c.kept[0].addr == LineAddr(slots, a2)
    ensures PatchOk(program, c.front, p, c.cut + c.idle, c.kept)
  {
    AtIsThere(program, slots, maxrev, c, a1);
    EndIsAlive(program, slots, maxrev, c, q, p.rev, a2);
  }

  lemma EndIsAlive(program: Program, slots: Slots, maxrev: nat, c: Cut, q: nat, rev: nat, a2: nat)
    requires Woven(program, slots, maxrev) && LastAt(slots, a2, q) && c.kept != [] && slots == Whole(c)
    requires rev >= maxrev || InfosAt(slots, None)[a2 - 1].rev <= rev
    requires rev < maxrev ==> q + 1 < |slots| && c.kept == slots[q + 1..]
    requires rev >= maxrev ==> c.kept[0].gone.None? && c.kept[0].addr == LineAddr(slots, a2)
    ensures c.kept[0].addr == EndAddr(AnnotatedAt(slots, None), maxrev, rev, a2)
    ensures forall r: nat :: r >= rev ==> Alive(c.kept[0], r)
  {
    assert c.kept[0] in slots;
    if rev < maxrev {
      forall r: nat | r >= rev
        ensures Alive(c.kept[0], r) && c.kept[0].addr == slots[q].addr + 1
      {
        BehindLine(program, slots, maxrev, q, r);
      }
      BehindLine(program, slots, maxrev, q, rev);
    }
  }

  lemma Plan(program: Program, slots: Slots, maxrev: nat, rev: nat, a1: nat, a2: nat, b1: nat, b2: nat)
    returns (c: Cut, p: Patch)
    requires Woven(program, slots, maxrev) && b1 <= b2
    requires InOrder(Live(LinesOf(slots)), maxrev, rev, a1, a2)
    ensures Planned(program, slots, maxrev, c, p, rev, a1, a2, b1, b2)
  {
    InfosAreShown(slots, None);
    if a1 == a2 {
      c, p := PlanInsertion(program, slots, maxrev, rev, a1, b1, b2);
    } else {
      c, p := PlanDeletion(program, slots, maxrev, rev, a1, a2, b1, b2);
    }
  }

  lemma AtIsStored(program: Program, slots: Slots, c: Cut)
    requires Stored(program, slots) && slots == Whole(c)
    ensures 0 < c.at.addr < |program| && program[c.at.addr] == c.at.inst
  {
    assert c.at in slots;
  }

  /** The end stays where it is, unless it is what was moved. */
  lemma PatchedEof(front: Slots, p: Patch, cut: Slots, kept: Slots, slots: Slots)
    requires p.b1 <= p.b2 && slots == front + ([p.at] + (cut + kept))
    requires p.at.inst.Eof? ==> cut + kept == []
    requires !p.at.inst.Eof? ==> kept != []
    ensures var s := WithPatch(front, p, cut, kept);
            s != [] && s[|s| - 1].addr == if p.at.inst.Eof? then MovedAddr(p) else slots[|slots| - 1].addr
  {
    AppendedEnds(p);
  }

  /** The order after a planned replacement. */
  ghost function OrderAfter(c: Cut, p: Patch): Slots
    requires p.b1 <= p.b2
  {
    WithPatch(c.front, p, c.cut + c.idle, c.kept)
  }

  lemma PlanKeepsWoven(program: Program, slots: Slots, maxrev: nat, rev: nat, a1: nat, a2: nat, b1: nat, b2: nat,
      c: Cut, p: Patch)
    requires Woven(program, slots, maxrev) && Planned(program, slots, maxrev, c, p, rev, a1, a2, b1, b2)
    ensures p.at.addr < |program|
    ensures Woven(PatchedProgram(program, p), OrderAfter(c, p), if rev > maxrev then rev else maxrev)
  {
    PatchedWoven(program, slots, c.front, p, c.cut + c.idle, c.kept, maxrev);
  }

  lemma PlanKeepsCache(program: Program, slots: Slots, maxrev: nat, rev: nat, a1: nat, a2: nat, b1: nat, b2: nat,
      c: Cut, p: Patch)
    requires Planned(program, slots, maxrev, c, p, rev, a1, a2, b1, b2)
    ensures OrderAfter(c, p) != []
            && CacheAfter(p, AnnotatedAt(slots, None), a1, a2) == AnnotatedAt(OrderAfter(c, p), None)
  {
    PatchedEof(c.front, p, c.cut + c.idle, c.kept, slots);
  }

  /** The patch, as far as its parts matter to the program text. */
  ghost predicate Describes(p: Patch, program: Program, ar: Annotated, maxrev: nat, rev: nat, a1: nat, a2: nat,
      b1: nat, b2: nat) {
    && a1 <= a2 <= |ar.lines| && b1 <= b2
    && p.base == |program| && p.rev == rev && p.b1 == b1 && p.b2 == b2 && (p.del <==> a1 < a2)
    && p.end == (if a1 < a2 then EndAddr(ar, maxrev, rev, a2) else 0)
    && 0 < p.at.addr < |program| && program[p.at.addr] == p.at.inst
    && (if a1 < |ar.lines| then p.at.inst.Emit? && p.at.addr == ar.lines[a1].offset
        else p.at.inst.Eof? && p.at.addr == ar.eof)
  }

  lemma PlanDescribes(program: Program, slots: Slots, maxrev: nat, rev: nat, a1: nat, a2: nat, b1: nat, b2: nat,
      c: Cut, p: Patch)
    requires Woven(program, slots, maxrev) && Planned(program, slots, maxrev, c, p, rev, a1, a2, b1, b2)
    ensures Describes(p, program, AnnotatedAt(slots, None), maxrev, rev, a1, a2, b1, b2)
  {
    AtIsStored(program, slots, c);
  }

  ghost function CacheAfter(p: Patch, ar: Annotated, a1: nat, a2: nat): Annotated
    requires a1 <= a2 <= |ar.lines| && p.b1 <= p.b2
  {
    Annotated(NewCache(ar.lines, a1, a2, NewInfos(p.rev, p.b1, p.b2, p.base + 1), MovedAddr(p)),
              if p.at.inst.Eof? then MovedAddr(p) else ar.eof)
  }

  method MakePatch(program: Program, ar: Annotated, maxrev: nat, rev: nat, a1: nat, a2: nat, b1: nat, b2: nat,
      ghost p: Patch)
    returns (program': Program, cache: Annotated)
    requires Describes(p, program, ar, maxrev, rev, a1, a2, b1, b2)
    ensures program' == PatchedProgram(program, p) && cache == CacheAfter(p, ar, a1, a2)
  {
    var inst, offset := Eof, ar.eof;
    if a1 < |ar.lines| {
      offset := ar.lines[a1].offset;
      inst := program[offset];
    }
    var end := if a1 < a2 then EndAddr(ar, maxrev, rev, a2) else 0;
    var infos, instpc;
    program', infos, instpc := Append(program, inst, offset, rev, b1, b2, a1 < a2, end, p);
    cache := Annotated(NewCache(ar.lines, a1, a2, infos, instpc), if a1 < |ar.lines| then ar.eof else instpc);
  }

  method Replace(program: Program, ar: Annotated, maxrev: nat, rev: nat, a1: nat, a2: nat, b1: nat, b2: nat,
      ghost log: WovenLog)
    returns (program': Program, cache: Annotated, ghost log': WovenLog)
    requires program == log.program && maxrev == log.maxrev && ar == AnnotatedAt(log.slots, None)
    requires b1 <= b2 && InOrder(Live(LinesOf(log.slots)), maxrev, rev, a1, a2)
    ensures program' == log'.program && log'.maxrev == (if rev > maxrev then rev else maxrev)
    ensures cache == AnnotatedAt(log'.slots, None)
    ensures LinesOf(log'.slots) == ReplaceLines(LinesOf(log.slots), rev, a1, a2, b1, b2)
  {
    ghost var c, p := Plan(program, log.slots, maxrev, rev, a1, a2, b1, b2);
    PlanDescribes(program, log.slots, maxrev, rev, a1, a2, b1, b2, c, p);
    program', cache := MakePatch(program, ar, maxrev, rev, a1, a2, b1, b2, p);
    log' := LogAfter(log, rev, a1, a2, b1, b2, c, p);
  }

  lemma LogAfter(log: WovenLog, rev: nat, a1: nat, a2: nat, b1: nat, b2: nat, c: Cut, p: Patch) returns (log': WovenLog)
    requires Planned(log.program, log.slots, log.maxrev, c, p, rev, a1, a2, b1, b2)
    ensures p.at.addr < |log.program|
    ensures log'.program == PatchedProgram(log.program, p)
            && log'.maxrev == (if rev > log.maxrev then rev else log.maxrev)
    ensures CacheAfter(p, AnnotatedAt(log.slots, None), a1, a2) == AnnotatedAt(log'.slots, None)
    ensures LinesOf(log'.slots) == ReplaceLines(LinesOf(log.slots), rev, a1, a2, b1, b2)
  {
    PlanKeepsWoven(log.program, log.slots, log.maxrev, rev, a1, a2, b1, b2, c, p);
    PlanKeepsCache(log.program, log.slots, log.maxrev, rev, a1, a2, b1, b2, c, p);
    log' := Log(PatchedProgram(log.program, p), OrderAfter(c, p), if rev > log.maxrev then rev else log.maxrev);
  }

  // ---------------------------------------------------------------------------------------
  // Exactly when an insertion is seen as it should be

  /** What a run of a program emits in a revision. */
  ghost function Emissions(slots: Slots, r: nat): seq<Id> {
    IdsOf(InfosAt(slots, Some(r)))
  }

  /** The new lines are emitted from the first revision on that has the line they were inserted before. */
  lemma EmittedAfterInsertion(slots: Slots, c: Cut, p: Patch, r: nat)
    requires BornRight(slots) && slots == Whole(c) && c.cut == [] && c.idle == []
    requires p.at == c.at && p.b1 <= p.b2 && !p.del && c.at.gone.None?
    ensures Emissions(OrderAfter(c, p), r)
         == Shown(LinesOf(c.front), Some(r))
            + ((if r < NewBorn(p) then [] else NewIds(p.rev, p.b1, p.b2)) + Shown(LinesOf([c.at] + c.kept), Some(r)))
  {
    var at := Some(r);
    PartsBornRight(slots, c);
    InfosAreShown(c.front, at);
    InfosAfterInsertion(c, p, at);
    IdsOfFour(InfosAt(c.front, at), InfosOfNew(p, at), InfoAt(Moved(p), at), InfosAt(c.kept, at));
    IdsOfNew(p, r);
    IdsOfMoved(c, p, at);
  }

  lemma InfosAfterInsertion(c: Cut, p: Patch, at: Option<nat>)
    requires c.cut == [] && c.idle == [] && p.b1 <= p.b2
    ensures InfosAt(OrderAfter(c, p), at)
         == InfosAt(c.front, at) + (InfosOfNew(p, at) + (InfoAt(Moved(p), at) + InfosAt(c.kept, at)))
  {
    InfosOfPatched(c.front, p, c.cut + c.idle, c.kept, at);
    assert InfosAt(Cap(c.cut + c.idle, p.rev), at) == [] && [] + InfosAt(c.kept, at) == InfosAt(c.kept, at);
  }

  lemma IdsOfNew(p: Patch, r: nat)
    requires p.b1 <= p.b2
    ensures IdsOf(InfosOfNew(p, Some(r))) == if r < NewBorn(p) then [] else NewIds(p.rev, p.b1, p.b2)
  {
  }

  /** Moving a line to another address does not change what is emitted for it. */
  lemma IdsOfMoved(c: Cut, p: Patch, at: Option<nat>)
    requires BornRight([c.at] + c.kept) && p.at == c.at && p.b1 <= p.b2 && !p.del && c.at.gone.None?
    ensures IdsOf(InfoAt(Moved(p), at)) + IdsOf(InfosAt(c.kept, at)) == Shown(LinesOf([c.at] + c.kept), at)
  {
    InfosAreShown([c.at] + c.kept, at);
    InfosOfCons(c.at, c.kept, at);
    IdsOfConcat(InfoAt(c.at, at), InfosAt(c.kept, at));
    assert IdsOf(InfoAt(Moved(p), at)) == IdsOf(InfoAt(c.at, at));
  }

  lemma IdsOfFour(a: seq<Info>, b: seq<Info>, c: seq<Info>, d: seq<Info>)
    ensures IdsOf(a + (b + (c + d))) == IdsOf(a) + (IdsOf(b) + (IdsOf(c) + IdsOf(d)))
  {
    IdsOfConcat(a, b + (c + d));
    IdsOfConcat(b, c + d);
    IdsOfConcat(c, d);
  }

  lemma PartsBornRight(slots: Slots, c: Cut)
    requires BornRight(slots) && slots == Whole(c)
    ensures BornRight(c.front) && BornRight([c.at] + c.kept)
  {
    assert forall s :: s in c.front || s in [c.at] + c.kept ==> s in slots;
  }

  lemma WantedAfterInsertion(slots: Slots, c: Cut, p: Patch, a: nat, r: nat)
    requires BornRight(slots) && CutsAt(c, slots, a) && c.cut == [] && c.idle == [] && p.b1 <= p.b2
    ensures a <= |Live(LinesOf(slots))|
    ensures Weave.Annotate(ReplaceLines(LinesOf(slots), p.rev, a, a, p.b1, p.b2), r)
         == Shown(LinesOf(c.front), Some(r))
            + ((if r < p.rev then [] else NewIds(p.rev, p.b1, p.b2)) + Shown(LinesOf([c.at] + c.kept), Some(r)))
  {
    var w := LinesOf(slots);
    CountLive(slots);
    assert (c.cut + c.idle) + c.kept == c.kept;
    LinesOfConcat(c.front, [c.at] + c.kept);
    assert w[..Offset(w, a)] == LinesOf(c.front) && w[Offset(w, a)..] == LinesOf([c.at] + c.kept);
    ReplaceLinesShows(w, p.rev, a, a, p.b1, p.b2, Some(r));
    ShownSplit(w, Offset(w, a), Some(r));
    assert [] + Shown(LinesOf([c.at] + c.kept), Some(r)) == Shown(LinesOf([c.at] + c.kept), Some(r));
  }

  /** All revisions are as the weave has them. */
  ghost predicate AsWanted(slots: Slots, c: Cut, p: Patch, a: nat)
    requires a <= |Live(LinesOf(slots))| && p.b1 <= p.b2
  {
    forall r: nat ::
      Emissions(OrderAfter(c, p), r) == Weave.Annotate(ReplaceLines(LinesOf(slots), p.rev, a, a, p.b1, p.b2), r)
  }

  /**
   Inserting lines as of any revision keeps the program runnable. It does in all revisions what
   it should exactly if nothing is inserted, or the insertion is at the end or before a line that
   is not newer.
   */
  lemma InsertionIsSeenIff(log: WovenLog, rev: nat, a: nat, b1: nat, b2: nat) returns (c: Cut, p: Patch)
    requires a <= |Live(LinesOf(log.slots))| && b1 <= b2
    ensures a <= |AnnotatedAt(log.slots, None).lines|
    ensures Describes(p, log.program, AnnotatedAt(log.slots, None), log.maxrev, rev, a, a, b1, b2)
    ensures RunsAlong(PatchedProgram(log.program, p), OrderAfter(c, p))
    ensures AsWanted(log.slots, c, p, a) <==>
              b1 == b2 || a == |Live(LinesOf(log.slots))| || Live(LinesOf(log.slots))[a].rev <= rev
  {
    InfosAreShown(log.slots, None);
    c := CutInsertion(log.slots, a);
    p := Patch(c.at, |log.program|, rev, b1, b2, false, 0);
    AtIsThere(log.program, log.slots, log.maxrev, c, a);
    AtIsStored(log.program, log.slots, c);
    if c.kept == [] {
      KeptEnds(log.slots, c);
    }
    PatchedRunsAlong(log.program, log.slots, c.front, p, c.cut + c.idle, c.kept);
    SeenIffBorn(log.slots, c, p, a);
  }

  lemma SeenIffBorn(slots: Slots, c: Cut, p: Patch, a: nat)
    requires BornRight(slots) && CutsAt(c, slots, a) && c.cut == [] && c.idle == []
    requires p.at == c.at && p.b1 <= p.b2 && !p.del
    ensures a <= |Live(LinesOf(slots))|
    ensures AsWanted(slots, c, p, a) <==> p.b1 == p.b2 || c.at.born <= p.rev
  {
    CountLive(slots);
    forall r: nat
      ensures Emissions(OrderAfter(c, p), r) == Weave.Annotate(ReplaceLines(LinesOf(slots), p.rev, a, a, p.b1, p.b2), r)
         <==> p.b1 == p.b2 || (r < NewBorn(p) <==> r < p.rev)
    {
      EmittedAfterInsertion(slots, c, p, r);
      WantedAfterInsertion(slots, c, p, a, r);
    }
    if p.b1 < p.b2 && p.rev < c.at.born {
      assert Emissions(OrderAfter(c, p), p.rev)
          != Weave.Annotate(ReplaceLines(LinesOf(slots), p.rev, a, a, p.b1, p.b2), p.rev);
    }
  }

  /** The instructions executed in a revision, followed for a number of steps. */
  ghost function Output(program: Program, r: nat, pc: nat, steps: nat): Option<seq<Id>>
    decreases steps
  {
    if steps == 0 || pc >= |program| then None
    else
      var next := Execute(program[pc], r, pc);
      if next.None? then Some([])
      else
        var rest := Output(program, r, next.value, steps - 1);
        if rest.None? then None
        else if program[pc].Emit? then Some([Id(program[pc].rev, program[pc].num)] + rest.value)
        else rest
  }

  /**
   A line of revision 2, and before it one inserted as of revision 1: in revision 1 the program
   emits nothing, although the new line should be there.
   */
  lemma EarlyInsertionIsLost()
    ensures var program := [Eof, Jump(2), Jl(2, 4), Emit(2, 0), Eof];
            var p := Patch(Slot(3, Emit(2, 0), 2, None), 5, 1, 0, 1, false, 0);
            && Output(program, 2, 1, 5) == Some([Id(2, 0)])
            && Output(PatchedProgram(program, p), 1, 1, 9) == Some([])
            && Weave.Annotate(ReplaceLines([Line(2, 0, None)], 1, 0, 0, 0, 1), 1) == [Id(1, 0)]
  {
    var program := [Eof, Jump(2), Jl(2, 4), Emit(2, 0), Eof];
    var p := Patch(Slot(3, Emit(2, 0), 2, None), 5, 1, 0, 1, false, 0);
    assert Output(program, 2, 4, 2) == Some([]);
    assert program[3] == Emit(2, 0) && [Id(2, 0)] + [] == [Id(2, 0)];
    assert Output(program, 2, 3, 3) == Some([Id(2, 0)]);
    assert Output(program, 2, 2, 4) == Some([Id(2, 0)]);
    var patched := PatchedProgram(program, p);
    assert patched[1] == Jump(2) && patched[2] == Jl(2, 4) && patched[4] == Eof;
    assert Output(patched, 1, 4, 7) == Some([]);
    assert Output(patched, 1, 2, 8) == Some([]);
    var w := [Line(2, 0, None)];
    assert w[1..] == [] && Live(w) == [Id(2, 0)];
    ReplaceLinesShows(w, 1, 0, 0, 0, 1, Some(1));
    assert Shown(w[0..], Some(1)) == [] && Shown(w[..0], Some(1)) == [];
  }

  class LineLog {
    var program: Program
    var maxrev: nat
    var lastannotate: Option<Annotated>
    ghost var log: WovenLog

    ghost predicate Valid()
      reads this
    {
      program == log.program && maxrev == log.maxrev
    }

    /** The weave the program stands for. */
    ghost function Contents(): Lines
      reads this
    {
      LinesOf(log.slots)
    }

    /** The cached annotation, if there is one, is of the newest revision. */
    ghost predicate Current()
      reads this
    {
      lastannotate.None? || lastannotate.value == AnnotatedAt(log.slots, None)
    }

    constructor ()
      ensures Valid() && Current() && Contents() == [] && maxrev == 0 && lastannotate.None?
    {
      program, maxrev, lastannotate := [Eof, Eof], 0, None;
      log := Log([Eof, Eof], [Slot(1, Eof, 0, None)], 0);
    }

    /** Runs the program; what it emits are the lines the weave shows. */
    method Annotate(rev: nat) returns (ok: bool, lines: seq<Id>)
      requires Valid()
      modifies this`lastannotate
      ensures ok && lines == Weave.Annotate(Contents(), rev)
      ensures lastannotate.Some?
      ensures rev >= maxrev ==> lines == Live(Contents()) && Current()
    {
      var result;
      ok, result := Run(program, rev, log.slots);
      lastannotate := Some(result);
      lines := IdsOf(result.lines);
      EmittedIsShown(log, rev);
    }

    /**
     Replaces the live lines `[a1, a2)` by the lines `[b1, b2)` of revision `rev`, as the weave
     does. The cached annotation is brought up to date along with the program.
     */
    method ReplaceLines(rev: nat, a1: nat, a2: nat, b1: nat, b2: nat)
      requires Valid() && Current() && (lastannotate.None? ==> rev >= maxrev)
      requires b1 <= b2 && InOrder(Live(Contents()), maxrev, rev, a1, a2)
      modifies this
      ensures Valid() && Current() && lastannotate.Some?
      ensures a2 <= |Live(old(Contents()))|
      ensures Contents() == Weave.ReplaceLines(old(Contents()), rev, a1, a2, b1, b2)
      ensures maxrev == if rev > old(maxrev) then rev else old(maxrev)
    {
      if lastannotate.None? {
        var ok, lines := Annotate(rev);
      }
      var cache;
      program, cache, log := Replace(program, lastannotate.value, maxrev, rev, a1, a2, b1, b2, log);
      lastannotate := Some(cache);
      maxrev := if rev > maxrev then rev else maxrev;
    }

    method GetOffset(line: nat) returns (offset: nat)
      requires lastannotate.Some? && line < |lastannotate.value.lines|
      ensures offset == lastannotate.value.lines[line].offset
    {
      offset := lastannotate.value.lines[line].offset;
    }

    /**
     All lines that ever were between two places, in the order of the program; from place 0 it
     is from the first one on, and to a place that does not follow it is up to the end.
     */
    method GetAllLines(start: nat, end: nat, ghost i: nat, ghost j: nat) returns (ok: bool, lines: seq<Id>)
      requires Valid() && i < |log.slots| && log.slots[i].addr == (if start == 0 then 1 else start)
      requires EndsAt(log.slots, i, j, end)
      ensures ok && lines == IdsOfLines(LinesOf(log.slots[i..j]))
    {
      ok, lines := LinesBetweenPlaces(program, if start == 0 then 1 else start, end, log.slots, i, j);
    }
  }

  /** Execution that starts at place `i` comes to the address `end` at place `j`, or never. */
  ghost predicate EndsAt(slots: Slots, i: nat, j: nat, end: nat) {
    && i < j <= |slots|
    && if j < |slots| then slots[j].addr == end else forall k :: i < k < |slots| ==> slots[k].addr != end
  }

  /** From place 0 to place 0 the lines are all those that ever were. */
  lemma WholeProgram(log: WovenLog)
    ensures log.slots != [] && log.slots[0].addr == 1 && EndsAt(log.slots, 0, |log.slots|, 0)
    ensures log.slots[0..|log.slots|] == log.slots
  {
    assert forall k :: 0 <= k < |log.slots| ==> log.slots[k] in log.slots;
  }

  /** The loop of `getalllines`; it takes no more steps than there are instructions. */
  method LinesBetweenPlaces(program: Program, start: nat, end: nat, ghost slots: Slots, ghost i: nat, ghost j: nat)
    returns (ok: bool, lines: seq<Id>)
    requires Ends(slots) && Stored(program, slots) && DistinctAddrs(slots) && Adjacent(slots)
    requires i < |slots| && slots[i].addr == start && EndsAt(slots, i, j, end)
    ensures ok && lines == IdsOfLines(LinesOf(slots[i..j]))
  {
    lines := [];
    var pc := start;
    ghost var k := i;
    SlotsFit(program, slots);
    for step := 0 to |program|
      invariant k == i + step < j && pc == slots[k].addr && lines == IdsOfLines(LinesOf(slots[i..k]))
    {
      AtPlace(program, slots, i, j, k, end);
      var inst := program[pc];
      var nextpc := if inst.Jump? then inst.target else pc + 1;
      if inst.Eof? {
        return true, lines;
      }
      if inst.Emit? {
        lines := lines + [Id(inst.rev, inst.num)];
      }
      if nextpc == end {
        return true, lines;
      }
      pc, k := nextpc, k + 1;
    }
    assert false;
    return false, lines;
  }

  /** What the loop finds at place `k`, and where it goes from there. */
  lemma AtPlace(program: Program, slots: Slots, i: nat, j: nat, k: nat, end: nat)
    requires Ends(slots) && Stored(program, slots) && DistinctAddrs(slots) && Adjacent(slots)
    requires EndsAt(slots, i, j, end) && i <= k < j
    ensures slots[k].addr < |program| && program[slots[k].addr] == slots[k].inst
    ensures slots[k].inst.Eof? ==> j == k + 1
    ensures !slots[k].inst.Eof? ==>
              k + 1 < |slots| && After(slots[k]) == slots[k + 1].addr && (After(slots[k]) == end <==> j == k + 1)
    ensures IdsOfLines(LinesOf(slots[i..k + 1])) == IdsOfLines(LinesOf(slots[i..k]))
              + if slots[k].inst.Emit? then [Id(slots[k].inst.rev, slots[k].inst.num)] else []
  {
    InstAt(program, slots, k);
    OneMoreLine(slots, i, k);
    if !slots[k].inst.Eof? {
      NextPlace(slots, i, j, k, end);
    }
  }

  lemma InstAt(program: Program, slots: Slots, k: nat)
    requires Stored(program, slots) && Ends(slots) && k < |slots|
    ensures slots[k].addr < |program| && program[slots[k].addr] == slots[k].inst
    ensures slots[k].inst.Eof? <==> k == |slots| - 1
  {
    assert slots[k] in slots;
  }

  lemma NextPlace(slots: Slots, i: nat, j: nat, k: nat, end: nat)
    requires EndsAt(slots, i, j, end) && i <= k < j && k + 1 < |slots| && Adjacent(slots) && DistinctAddrs(slots)
    ensures After(slots[k]) == slots[k + 1].addr
    ensures After(slots[k]) == end <==> j == k + 1
  {
    AdjacentAt(slots, k);
  }

  lemma EmittedIsShown(log: WovenLog, rev: nat)
    ensures IdsOf(InfosAt(log.slots, Some(rev))) == Weave.Annotate(LinesOf(log.slots), rev)
    ensures rev >= log.maxrev ==>
              && IdsOf(InfosAt(log.slots, Some(rev))) == Live(LinesOf(log.slots))
              && AnnotatedAt(log.slots, Some(rev)) == AnnotatedAt(log.slots, None)
  {
    InfosAreShown(log.slots, Some(rev));
    if rev >= log.maxrev {
      NewestInfos(log.slots, log.maxrev, rev);
      InfosAreShown(log.slots, None);
    }
  }

  function IdsOfLines(w: Lines): (r: seq<Id>)
    ensures |r| == |w| && forall i :: 0 <= i < |r| ==> r[i] == Id(w[i].rev, w[i].num)
  {
    seq(|w|, i requires 0 <= i < |w| => Id(w[i].rev, w[i].num))
  }

  lemma OneMoreLine(slots: Slots, i: nat, k: nat)
    requires i <= k < |slots|
    ensures IdsOfLines(LinesOf(slots[i..k + 1])) == IdsOfLines(LinesOf(slots[i..k]))
              + if slots[k].inst.Emit? then [Id(slots[k].inst.rev, slots[k].inst.num)] else []
  {
    LinesOfOneMore(slots, i, k);
    IdsOfMoreLines(LinesOf(slots[i..k]), LineOf(slots[k]));
  }

  lemma LinesOfOneMore(slots: Slots, i: nat, k: nat)
    requires i <= k < |slots|
    ensures LinesOf(slots[i..k + 1]) == LinesOf(slots[i..k]) + LineOf(slots[k])
  {
    assert slots[i..k + 1] == slots[i..k] + [slots[k]];
    LinesOfConcat(slots[i..k], [slots[k]]);
    LinesOfCons(slots[k], []);
  }

  lemma IdsOfMoreLines(w: Lines, more: Lines)
    requires |more| <= 1
    ensures IdsOfLines(w + more) == IdsOfLines(w) + if more == [] then [] else [Id(more[0].rev, more[0].num)]
  {
  }

  /** Between the places of two live lines lie as many lines as their positions are apart. */
  lemma LinesBetween(slots: Slots, a1: nat, a2: nat, more: nat) returns (i: nat, j: nat)
    requires a1 < a2 < |InfosAt(slots, None)| && more <= 1
    requires Ends(slots) && Adjacent(slots) && BornRight(slots)
    ensures i < j < |slots|
    ensures slots[i].addr == InfosAt(slots, None)[a1].offset && slots[j].addr == InfosAt(slots, None)[a2].offset + more
    ensures |LinesOf(slots[i..j])| == Offset(LinesOf(slots), a2) + more - Offset(LinesOf(slots), a1)
  {
    i := Locate(slots, a1);
    var q := Locate(slots, a2);
    LocateOrder(slots, i, q);
    j := q + more;
    PlaceBehind(slots, q, more);
    assert slots[..j] == slots[..i] + slots[i..j];
    LinesOfConcat(slots[..i], slots[i..j]);
  }

  lemma PlaceBehind(slots: Slots, q: nat, more: nat)
    requires Ends(slots) && Adjacent(slots) && q < |slots| && slots[q].inst.Emit? && more <= 1
    ensures q + more < |slots| && slots[q + more].addr == slots[q].addr + more
    ensures |LinesOf(slots[..q + more])| == |LinesOf(slots[..q])| + more
  {
    assert slots[|slots| - 1].inst.Eof?;
    if more == 1 {
      AdjacentAt(slots, q);
      assert slots[..q + 1] == slots[..q] + [slots[q]];
      LinesOfConcat(slots[..q], [slots[q]]);
      LinesOfCons(slots[q], []);
    }
  }
}
