/**
 A histedit session: the plan it was given, the commit it has reached, and the replacements
 it has recorded. Commits are abstract ids; committing, merging and the user's own commands
 are the `Turn`s and `WorkingCopy`s they leave behind.
 */
module HisteditSession {
  import opened Lists
  import opened Digraph
  import opened Replacements

  datatype Verb = Pick | Edit | Fold | Roll | MultiFold | Base | Drop | Mess

  datatype Action<N> = Action(verb: Verb, node: N)

  datatype Session<N> = Session(
    parent: N, topmost: N, keep: bool, actions: seq<Action<N>>,
    replacements: seq<Replacement<N>>, backup: Option<string>)

  /**
   The working copy when an action is concluded: its parent commit, whether that is a strict
   descendant of the session's parent, and the commits between the two in the order in which
   the set of them happens to be listed.
   */
  datatype WorkingCopy<N> = WorkingCopy(dot: N, descends: bool, internal: seq<N>)

  /** How the world answers one action. */
  datatype Turn<N> = Turn(stops: bool, inPlace: bool, wc: WorkingCopy<N>, folded: N)

  predicate Folds(v: Verb) {
    v == Fold || v == Roll || v == MultiFold
  }

  // ---------------------------------------------------------------------------------------
  // What an action does to the session

  function ReplacedBy<N>(ns: seq<N>, into: N): (r: seq<Replacement<N>>)
    ensures |r| == |ns| && forall i :: 0 <= i < |ns| ==> r[i] == Replacement(ns[i], [into])
  {
    seq(|ns|, i requires 0 <= i < |ns| => Replacement(ns[i], [into]))
  }

  /** `continueclean`: the new parent, and the replacements to record. */
  function ContinueClean<N(==)>(a: Action<N>, parent: N, wc: WorkingCopy<N>, folded: N): (N, seq<Replacement<N>>) {
    if a.verb == Base then
      (wc.dot, [])
    else if Folds(a.verb) then
      if wc.dot == parent then (wc.dot, [Replacement(a.node, [parent])])
      else if !wc.descends then (wc.dot, [Replacement(a.node, [wc.dot])])
      else FinishFold(a.node, parent, wc, folded)
    else
      if wc.dot == parent then (wc.dot, [Replacement(a.node, [])])
      else if wc.dot == a.node then (wc.dot, [])
      else (wc.dot, [Replacement(a.node, [wc.dot])])
  }

  function FinishFold<N>(node: N, parent: N, wc: WorkingCopy<N>, folded: N): (N, seq<Replacement<N>>) {
    (folded,
     [Replacement(node, [wc.dot])]
     + ([Replacement(parent, [folded])] + ([Replacement(wc.dot, [folded])] + ReplacedBy(wc.internal, folded))))
  }

  /** `run`, when it is not stopped. */
  function RunAction<N(==)>(a: Action<N>, parent: N, t: Turn<N>): (N, seq<Replacement<N>>) {
    match a.verb
    case Drop => (parent, [Replacement(a.node, [])])
    case Base => (a.node, [])
    case Pick => if t.inPlace then (a.node, []) else ContinueClean(a, parent, t.wc, t.folded)
    case _ => ContinueClean(a, parent, t.wc, t.folded)
  }

  function Advance<N>(s: Session<N>, r: (N, seq<Replacement<N>>)): Session<N>
    requires s.actions != []
  {
    s.(parent := r.0, replacements := s.replacements + r.1, actions := s.actions[1..])
  }

  function RunStep<N(==)>(s: Session<N>, t: Turn<N>): Session<N> {
    if s.actions == [] then s else Advance(s, RunAction(s.actions[0], s.parent, t))
  }

  /** `bootstrapcontinue` */
  function ResumeStep<N(==)>(s: Session<N>, wc: WorkingCopy<N>, folded: N): Session<N> {
    if s.actions == [] then s else Advance(s, ContinueClean(s.actions[0], s.parent, wc, folded))
  }

  // ---------------------------------------------------------------------------------------
  // The invariant of a session

  ghost predicate InPlan<N>(actions: seq<Action<N>>, n: N) {
    exists a :: a in actions && a.verb != Base && a.node == n
  }

  ghost predicate Planned<N>(actions: seq<Action<N>>) {
    && (forall i, j :: 0 <= i < j < |actions| && actions[i].verb != Base && actions[j].verb != Base
                       ==> actions[i].node != actions[j].node)
    && (forall a :: a in actions && a.verb == Base ==> !InPlan(actions, a.node))
  }

  /** No edge leads to a node that is its own source or was replaced at or before that edge. */
  ghost predicate Ordered<N>(reps: seq<Replacement<N>>) {
    forall i, j :: 0 <= i <= j < |reps| ==> reps[i].prec !in reps[j].succs
  }

  ghost function Mentioned<N>(s: Session<N>): set<N> {
    {s.parent} + (set a | a in s.actions :: a.node) + OldNodes(s.replacements) + NewNodes(s.replacements)
  }

  ghost predicate Sound<N>(s: Session<N>, known: set<N>) {
    && Mentioned(s) <= known
    && Planned(s.actions)
    && Ordered(s.replacements)
    && s.parent !in OldNodes(s.replacements)
    && !InPlan(s.actions, s.parent)
    && (forall a :: a in s.actions && a.verb != Base ==> a.node !in OldNodes(s.replacements))
  }

  /** Position of the first replacement of a node; it grows along every edge of an ordered list. */
  ghost function FirstReplaced<N>(reps: seq<Replacement<N>>, n: N): (i: nat)
    requires n in OldNodes(reps)
    ensures i < |reps| && reps[i].prec == n && forall j :: 0 <= j < i ==> reps[j].prec != n
  {
    if reps[0].prec == n then 0 else 1 + FirstReplaced(reps[1..], n)
  }

  lemma OrderedIsAcyclic<N(!new)>(reps: seq<Replacement<N>>)
    requires Ordered(reps)
    ensures Acyclic(Recorded(reps))
  {
    var g := Recorded(reps);
    forall x | x in g
      ensures !Reaches(g, x, x)
    {
      if Reaches(g, x, x) {
        var p :| Joins(g, p, x, x);
        for k := 0 to |p| - 1
          invariant p[k] in g
          invariant FirstReplaced(reps, x) + k <= FirstReplaced(reps, p[k])
        {
          assert Edge(g, p[k], p[k + 1]);
          if k + 1 < |p| - 1 {
            assert Edge(g, p[k + 1], p[k + 2]);
          }
          EdgeIsOrdered(reps, p[k], p[k + 1]);
        }
      }
    }
  }

  lemma EdgeIsOrdered<N>(reps: seq<Replacement<N>>, a: N, b: N)
    requires Ordered(reps) && Edge(Recorded(reps), a, b) && b in OldNodes(reps)
    ensures FirstReplaced(reps, a) < FirstReplaced(reps, b)
  {
    var r :| r in reps && r.prec == a && b in r.succs;
    var j :| 0 <= j < |reps| && reps[j] == r;
    var i := FirstReplaced(reps, b);
  }

  // ---------------------------------------------------------------------------------------
  // Exactly which answers of the world keep the invariant

  ghost predicate TargetsUnreplaced<N>(later: seq<Replacement<N>>, earlier: seq<Replacement<N>>) {
    forall n :: n in NewNodes(later) ==> n !in OldNodes(earlier)
  }

  lemma OrderedConcat<N>(a: seq<Replacement<N>>, b: seq<Replacement<N>>)
    ensures Ordered(a + b) <==> Ordered(a) && Ordered(b) && TargetsUnreplaced(b, a)
  {
    var c := a + b;
    if Ordered(c) {
      assert forall i :: 0 <= i < |a| ==> c[i] == a[i];
      assert forall i :: 0 <= i < |b| ==> c[|a| + i] == b[i];
      forall r, q | r in a && q in b
        ensures r.prec !in q.succs
      {
        var i :| 0 <= i < |a| && a[i] == r;
        var j :| 0 <= j < |b| && b[j] == q;
        assert c[i].prec !in c[|a| + j].succs;
      }
    }
    if Ordered(a) && Ordered(b) && TargetsUnreplaced(b, a) {
      forall i, j | 0 <= i <= j < |c|
        ensures c[i].prec !in c[j].succs
      {
        if i < |a| <= j {
          assert c[i].prec in OldNodes(a);
          assert b[j - |a|] in b;
        }
      }
    }
  }

  lemma RecordedNodesConcat<N>(a: seq<Replacement<N>>, b: seq<Replacement<N>>)
    ensures OldNodes(a + b) == OldNodes(a) + OldNodes(b)
    ensures NewNodes(a + b) == NewNodes(a) + NewNodes(b)
  {
    assert forall r :: r in a + b <==> r in a || r in b;
  }

  /** What a new parent and new replacements must satisfy for the session to stay sound. */
  ghost predicate Admissible<N>(s: Session<N>, p: N, reps: seq<Replacement<N>>)
    requires s.actions != []
  {
    && Ordered(reps)
    && TargetsUnreplaced(reps, s.replacements)
    && p !in OldNodes(s.replacements)
    && p !in OldNodes(reps)
    && !InPlan(s.actions[1..], p)
    && forall n :: n in OldNodes(reps) ==> !InPlan(s.actions[1..], n)
  }

  lemma PlannedTail<N>(actions: seq<Action<N>>)
    requires actions != [] && Planned(actions)
    ensures Planned(actions[1..])
    ensures forall a :: a in actions[1..] ==> a in actions
  {
    var rest := actions[1..];
    assert forall i :: 0 <= i < |rest| ==> rest[i] == actions[i + 1];
  }

  lemma AdvanceMentions<N>(s: Session<N>, p: N, reps: seq<Replacement<N>>)
    requires s.actions != []
    ensures Mentioned(Advance(s, (p, reps))) <= Mentioned(s) + {p} + OldNodes(reps) + NewNodes(reps)
  {
    RecordedNodesConcat(s.replacements, reps);
    assert forall a :: a in s.actions[1..] ==> a in s.actions;
  }

  lemma AdvanceKeepsSoundIff<N>(s: Session<N>, known: set<N>, p: N, reps: seq<Replacement<N>>, known': set<N>)
    requires s.actions != [] && Sound(s, known)
    requires known <= known' && {p} + OldNodes(reps) + NewNodes(reps) <= known'
    ensures Sound(Advance(s, (p, reps)), known') <==> Admissible(s, p, reps)
  {
    AdvanceMentions(s, p, reps);
    PlannedTail(s.actions);
    ConcatNodes(s.replacements, reps);
    var rest := s.actions[1..];
    assert (forall a :: a in rest && a.verb != Base ==> a.node !in OldNodes(s.replacements) + OldNodes(reps))
      <==> (forall n :: n in OldNodes(reps) ==> !InPlan(rest, n));
  }

  lemma HeadLeavesPlan<N>(s: Session<N>, known: set<N>)
    requires s.actions != [] && Sound(s, known)
    ensures s.actions[0].node in known && s.parent in known
    ensures !InPlan(s.actions[1..], s.parent) && !InPlan(s.actions[1..], s.actions[0].node)
    ensures s.actions[0].verb != Base ==> s.actions[0].node !in OldNodes(s.replacements)
    ensures s.actions[0].verb != Base ==> s.actions[0].node != s.parent
    ensures forall n :: InPlan(s.actions[1..], n) ==> n in known
  {
    var rest := s.actions[1..];
    assert forall b :: b in rest ==> b in s.actions;
    assert forall i :: 0 <= i < |rest| ==> rest[i] == s.actions[i + 1];
    assert s.actions[0] in s.actions;
  }

  ghost predicate Usable<N>(s: Session<N>, n: N)
    requires s.actions != []
  {
    n !in OldNodes(s.replacements) && !InPlan(s.actions[1..], n)
  }

  /** Where '.' may be when the first action is resumed. */
  ghost predicate ResumableAt<N>(s: Session<N>, wc: WorkingCopy<N>)
    requires s.actions != []
  {
    var a := s.actions[0];
    || wc.dot == s.parent
    || (!Folds(a.verb) && a.verb != Base && wc.dot == a.node)
    || (Usable(s, wc.dot) && (Folds(a.verb) ==>
          && wc.dot != a.node
          && (wc.descends ==> forall n :: n in wc.internal ==> !InPlan(s.actions[1..], n))))
  }

  ghost function NowKnown<N>(known: set<N>, wc: WorkingCopy<N>, folded: N): set<N> {
    known + {wc.dot, folded} + Elements(wc.internal)
  }

  ghost predicate FreshFold<N>(known: set<N>, wc: WorkingCopy<N>, folded: N) {
    folded !in known && folded != wc.dot && folded !in wc.internal
  }

  lemma SingleReplacement<N>(r: Replacement<N>)
    ensures OldNodes([r]) == {r.prec} && NewNodes([r]) == Elements(r.succs)
    ensures Ordered([r]) <==> r.prec !in r.succs
  {
    assert [r][0].prec !in [r][0].succs <==> r.prec !in r.succs;
  }

  lemma ReplacedByNodes<N>(ns: seq<N>, into: N)
    requires into !in ns
    ensures OldNodes(ReplacedBy(ns, into)) == Elements(ns)
    ensures NewNodes(ReplacedBy(ns, into)) <= {into}
    ensures Ordered(ReplacedBy(ns, into))
  {
    var reps := ReplacedBy(ns, into);
    forall n | n in ns
      ensures n in OldNodes(reps)
    {
      var i :| 0 <= i < |ns| && ns[i] == n;
      assert reps[i] in reps;
    }
  }

  lemma ConcatNodes<N>(a: seq<Replacement<N>>, b: seq<Replacement<N>>)
    ensures OldNodes(a + b) == OldNodes(a) + OldNodes(b)
    ensures NewNodes(a + b) == NewNodes(a) + NewNodes(b)
    ensures Ordered(a + b) <==> Ordered(a) && Ordered(b) && TargetsUnreplaced(b, a)
  {
    RecordedNodesConcat(a, b);
    OrderedConcat(a, b);
  }

  lemma OneMoreEdge<N>(prec: N, into: N, reps: seq<Replacement<N>>)
    ensures OldNodes([Replacement(prec, [into])] + reps) == {prec} + OldNodes(reps)
    ensures NewNodes([Replacement(prec, [into])] + reps) == {into} + NewNodes(reps)
    ensures Ordered([Replacement(prec, [into])] + reps) <==> Ordered(reps) && prec != into && prec !in NewNodes(reps)
  {
    var r := Replacement(prec, [into]);
    SingleReplacement(r);
    ConcatNodes([r], reps);
    assert Elements([into]) == {into};
    assert TargetsUnreplaced(reps, [r]) <==> prec !in NewNodes(reps);
  }

  lemma FinishFoldNodes<N>(node: N, parent: N, wc: WorkingCopy<N>, folded: N)
    requires folded !in {node, parent, wc.dot} + Elements(wc.internal)
    ensures var reps := FinishFold(node, parent, wc, folded).1;
            && OldNodes(reps) == {node, parent, wc.dot} + Elements(wc.internal)
            && NewNodes(reps) == {wc.dot, folded}
            && (Ordered(reps) <==> wc.dot != node)
  {
    var tail := ReplacedBy(wc.internal, folded);
    ReplacedByNodes(wc.internal, folded);
    var two := [Replacement(wc.dot, [folded])] + tail;
    OneMoreEdge(wc.dot, folded, tail);
    assert OldNodes(two) == {wc.dot} + Elements(wc.internal) && NewNodes(two) == {folded};
    var one := [Replacement(parent, [folded])] + two;
    OneMoreEdge(parent, folded, two);
    assert OldNodes(one) == {parent, wc.dot} + Elements(wc.internal) && NewNodes(one) == {folded};
    OneMoreEdge(node, wc.dot, one);
  }

  lemma FoldAdmissibleIff<N>(s: Session<N>, known: set<N>, wc: WorkingCopy<N>, folded: N)
    requires s.actions != [] && Sound(s, known) && FreshFold(known, wc, folded)
    requires Folds(s.actions[0].verb) && wc.dot != s.parent && wc.descends
    ensures Admissible(s, folded, FinishFold(s.actions[0].node, s.parent, wc, folded).1) <==> ResumableAt(s, wc)
  {
    HeadLeavesPlan(s, known);
    FinishFoldNodes(s.actions[0].node, s.parent, wc, folded);
  }

  lemma OneEdgeAdmissibleIff<N>(s: Session<N>, known: set<N>, p: N, succs: seq<N>)
    requires s.actions != [] && Sound(s, known) && s.actions[0].verb != Base
    requires (succs == [] && p == s.parent) || succs == [p]
    ensures Admissible(s, p, [Replacement(s.actions[0].node, succs)])
       <==> p == s.parent || (p != s.actions[0].node && Usable(s, p))
  {
    HeadLeavesPlan(s, known);
    SingleReplacement(Replacement(s.actions[0].node, succs));
    assert Elements(succs) == if succs == [] then {} else {p};
  }

  lemma NoEdgeAdmissibleIff<N>(s: Session<N>, p: N)
    requires s.actions != []
    ensures Admissible(s, p, []) <==> Usable(s, p)
  {
  }

  /** Resuming keeps a session sound exactly if the user left '.' where it may be. */
  lemma ResumeKeepsSoundIff<N>(s: Session<N>, known: set<N>, wc: WorkingCopy<N>, folded: N)
    requires s.actions != [] && Sound(s, known) && FreshFold(known, wc, folded)
    ensures Sound(ResumeStep(s, wc, folded), NowKnown(known, wc, folded)) <==> ResumableAt(s, wc)
  {
    var a := s.actions[0];
    var r := ContinueClean(a, s.parent, wc, folded);
    HeadLeavesPlan(s, known);
    if Folds(a.verb) && wc.dot != s.parent && wc.descends {
      FinishFoldNodes(a.node, s.parent, wc, folded);
      FoldAdmissibleIff(s, known, wc, folded);
    } else if r.1 == [] {
      NoEdgeAdmissibleIff(s, r.0);
    } else {
      var succs := r.1[0].succs;
      OneEdgeAdmissibleIff(s, known, r.0, succs);
      SingleReplacement(r.1[0]);
      assert r.1 == [r.1[0]];
    }
    AdvanceKeepsSoundIff(s, known, r.0, r.1, NowKnown(known, wc, folded));
  }

  /** Likewise for an action that runs to its end: only a base revision can already be gone. */
  ghost predicate RunnableWith<N>(s: Session<N>, t: Turn<N>)
    requires s.actions != []
  {
    var a := s.actions[0];
    match a.verb
    case Drop => true
    case Base => a.node !in OldNodes(s.replacements)
    case Pick => t.inPlace || ResumableAt(s, t.wc)
    case _ => ResumableAt(s, t.wc)
  }

  lemma RunKeepsSoundIff<N>(s: Session<N>, known: set<N>, t: Turn<N>)
    requires s.actions != [] && Sound(s, known) && FreshFold(known, t.wc, t.folded)
    ensures Sound(RunStep(s, t), NowKnown(known, t.wc, t.folded)) <==> RunnableWith(s, t)
  {
    var a := s.actions[0];
    var r := RunAction(a, s.parent, t);
    HeadLeavesPlan(s, known);
    if a.verb == Drop {
      OneEdgeAdmissibleIff(s, known, s.parent, []);
      SingleReplacement(Replacement(a.node, []));
      AdvanceKeepsSoundIff(s, known, r.0, r.1, NowKnown(known, t.wc, t.folded));
    } else if a.verb == Base || (a.verb == Pick && t.inPlace) {
      NoEdgeAdmissibleIff(s, a.node);
      AdvanceKeepsSoundIff(s, known, r.0, r.1, NowKnown(known, t.wc, t.folded));
    } else {
      ResumeKeepsSoundIff(s, known, t.wc, t.folded);
    }
  }

  // ---------------------------------------------------------------------------------------
  // What is recorded, action by action

  ghost function Edges<N(!new)>(reps: seq<Replacement<N>>): iset<(N, N)> {
    iset a, b | Edge(Recorded(reps), a, b) :: (a, b)
  }

  /** The step takes one action off the plan, goes to `parent`, and records that `gone` became what `edges` say. */
  ghost predicate Records<N(!new)>(s: Session<N>, s': Session<N>, parent: N, gone: set<N>, edges: iset<(N, N)>)
    requires s.actions != []
  {
    && s'.actions == s.actions[1..] && s'.parent == parent
    && s.replacements <= s'.replacements
    && OldNodes(s'.replacements) == OldNodes(s.replacements) + gone
    && Edges(s'.replacements) == Edges(s.replacements) + edges
  }

  lemma EdgesConcat<N(!new)>(a: seq<Replacement<N>>, b: seq<Replacement<N>>)
    ensures Edges(a + b) == Edges(a) + Edges(b)
  {
    assert forall r :: r in a + b <==> r in a || r in b;
    forall x, y
      ensures (x, y) in Edges(a + b) <==> (x, y) in Edges(a) || (x, y) in Edges(b)
    {
      EdgeIsRecorded(a, x, y);
      EdgeIsRecorded(b, x, y);
      EdgeIsRecorded(a + b, x, y);
    }
  }

  lemma EdgeIsRecorded<N(!new)>(reps: seq<Replacement<N>>, x: N, y: N)
    ensures (x, y) in Edges(reps) <==> exists r :: r in reps && r.prec == x && y in r.succs
  {
  }

  lemma EdgesOfOne<N(!new)>(prec: N, into: N)
    ensures Edges([Replacement(prec, [into])]) == iset{(prec, into)}
  {
    var r := Replacement(prec, [into]);
    forall x, y
      ensures (x, y) in Edges([r]) <==> x == prec && y == into
    {
      EdgeIsRecorded([r], x, y);
      assert r in [r];
    }
  }

  lemma EdgesOfNone<N(!new)>(prec: N)
    ensures Edges([Replacement(prec, [])]) == iset{}
  {
    var r := Replacement(prec, []);
    forall x, y
      ensures (x, y) !in Edges([r])
    {
      EdgeIsRecorded([r], x, y);
    }
  }

  lemma EdgesOfReplacedBy<N(!new)>(ns: seq<N>, into: N)
    ensures Edges(ReplacedBy(ns, into)) == iset n | n in ns :: (n, into)
    ensures OldNodes(ReplacedBy(ns, into)) == Elements(ns)
  {
    var reps := ReplacedBy(ns, into);
    forall n | n in ns
      ensures Replacement(n, [into]) in reps
    {
      var i :| 0 <= i < |ns| && ns[i] == n;
      assert reps[i] == Replacement(n, [into]);
    }
    forall x, y
      ensures (x, y) in Edges(reps) <==> x in ns && y == into
    {
      EdgeIsRecorded(reps, x, y);
    }
  }

  lemma AdvanceRecords<N(!new)>(s: Session<N>, p: N, reps: seq<Replacement<N>>)
    requires s.actions != []
    ensures Records(s, Advance(s, (p, reps)), p, OldNodes(reps), Edges(reps))
  {
    RecordedNodesConcat(s.replacements, reps);
    EdgesConcat(s.replacements, reps);
  }

  lemma OneBundleRecords<N(!new)>(s: Session<N>, p: N, prec: N, succs: seq<N>)
    requires s.actions != [] && |succs| <= 1
    ensures Records(s, Advance(s, (p, [Replacement(prec, succs)])), p, {prec},
                    if succs == [] then iset{} else iset{(prec, succs[0])})
  {
    AdvanceRecords(s, p, [Replacement(prec, succs)]);
    SingleReplacement(Replacement(prec, succs));
    if succs == [] {
      EdgesOfNone(prec);
    } else {
      assert succs == [succs[0]];
      EdgesOfOne(prec, succs[0]);
    }
  }

  /** A drop leaves the parent alone, and its changeset becomes nothing. */
  lemma DropRecords<N(!new)>(s: Session<N>, t: Turn<N>)
    requires s.actions != [] && s.actions[0].verb == Drop
    ensures Records(s, RunStep(s, t), s.parent, {s.actions[0].node}, iset{})
    ensures RunStep(s, t).replacements == s.replacements + [Replacement(s.actions[0].node, [])]
  {
    OneBundleRecords(s, s.parent, s.actions[0].node, []);
  }

  /** A base, and a pick that is in place already, make their changeset the parent and record nothing. */
  lemma InPlaceRecords<N(!new)>(s: Session<N>, t: Turn<N>)
    requires s.actions != [] && (s.actions[0].verb == Base || (s.actions[0].verb == Pick && t.inPlace))
    ensures Records(s, RunStep(s, t), s.actions[0].node, {}, iset{})
    ensures RunStep(s, t).replacements == s.replacements
  {
    AdvanceRecords(s, s.actions[0].node, []);
    EdgesOfReplacedBy<N>([], s.parent);
    assert ReplacedBy<N>([], s.parent) == [];
    assert Edges<N>([]) == iset{};
  }

  /** Every other action that runs to its end records what it would record when it is resumed. */
  lemma OthersRunAsResumed<N(!new)>(s: Session<N>, t: Turn<N>)
    requires s.actions != [] && s.actions[0].verb != Drop && s.actions[0].verb != Base
    requires s.actions[0].verb == Pick ==> !t.inPlace
    ensures RunStep(s, t) == ResumeStep(s, t.wc, t.folded)
  {
  }

  /**
   A changeset that was picked or edited becomes the commit made for it, or nothing if no commit
   was made; it stays if the user went back to it.
   */
  lemma CommitRecords<N(!new)>(s: Session<N>, wc: WorkingCopy<N>, folded: N)
    requires s.actions != [] && !Folds(s.actions[0].verb) && s.actions[0].verb != Base
    ensures var node, s' := s.actions[0].node, ResumeStep(s, wc, folded);
            if wc.dot == s.parent then Records(s, s', s.parent, {node}, iset{})
            else if wc.dot == node then Records(s, s', node, {}, iset{})
            else Records(s, s', wc.dot, {node}, iset{(node, wc.dot)})
  {
    var node := s.actions[0].node;
    if wc.dot == s.parent {
      OneBundleRecords(s, s.parent, node, []);
    } else if wc.dot == node {
      AdvanceRecords(s, node, []);
      assert Edges<N>([]) == iset{};
    } else {
      OneBundleRecords(s, wc.dot, node, [wc.dot]);
    }
  }

  /**
   A folded changeset becomes the parent if it added nothing. If there are commits on top of the
   parent they all, the parent and the folded changeset become the one commit that is made of them.
   */
  lemma FoldRecords<N(!new)>(s: Session<N>, wc: WorkingCopy<N>, folded: N)
    requires s.actions != [] && Folds(s.actions[0].verb)
    ensures var node, s' := s.actions[0].node, ResumeStep(s, wc, folded);
            if wc.dot == s.parent then Records(s, s', s.parent, {node}, iset{(node, s.parent)})
            else if !wc.descends then Records(s, s', wc.dot, {node}, iset{(node, wc.dot)})
            else Records(s, s', folded, {node, s.parent, wc.dot} + Elements(wc.internal),
                         iset{(node, wc.dot), (s.parent, folded), (wc.dot, folded)}
                         + iset n | n in wc.internal :: (n, folded))
  {
    var node := s.actions[0].node;
    if wc.dot == s.parent || !wc.descends {
      OneBundleRecords(s, wc.dot, node, [wc.dot]);
    } else {
      AdvanceRecords(s, folded, FinishFold(node, s.parent, wc, folded).1);
      FinishedFoldRecords(node, s.parent, wc, folded);
    }
  }

  lemma FinishedFoldRecords<N(!new)>(node: N, parent: N, wc: WorkingCopy<N>, folded: N)
    ensures var reps := FinishFold(node, parent, wc, folded).1;
            && OldNodes(reps) == {node, parent, wc.dot} + Elements(wc.internal)
            && Edges(reps) == iset{(node, wc.dot), (parent, folded), (wc.dot, folded)}
                              + iset n | n in wc.internal :: (n, folded)
  {
    var tail := ReplacedBy(wc.internal, folded);
    EdgesOfReplacedBy(wc.internal, folded);
    var two := [Replacement(wc.dot, [folded])] + tail;
    OneMoreBundle(wc.dot, folded, tail);
    var one := [Replacement(parent, [folded])] + two;
    OneMoreBundle(parent, folded, two);
    OneMoreBundle(node, wc.dot, one);
    ThreeMore({node}, {parent}, {wc.dot}, OldNodes(tail));
    ThreeMoreEdges((node, wc.dot), (parent, folded), (wc.dot, folded), Edges(tail));
  }

  lemma ThreeMore<T>(x: set<T>, y: set<T>, z: set<T>, rest: set<T>)
    ensures x + (y + (z + rest)) == (x + y + z) + rest
  {
  }

  lemma ThreeMoreEdges<T(!new)>(x: T, y: T, z: T, rest: iset<T>)
    ensures iset{x} + (iset{y} + (iset{z} + rest)) == iset{x, y, z} + rest
  {
  }

  lemma OneMoreBundle<N(!new)>(prec: N, into: N, reps: seq<Replacement<N>>)
    ensures OldNodes([Replacement(prec, [into])] + reps) == {prec} + OldNodes(reps)
    ensures Edges([Replacement(prec, [into])] + reps) == iset{(prec, into)} + Edges(reps)
  {
    OneMoreEdge(prec, into, reps);
    EdgesConcat([Replacement(prec, [into])], reps);
    EdgesOfOne(prec, into);
  }

  // ---------------------------------------------------------------------------------------
  // Plans: verifyactions

  datatype Repo<N> = Repo(nodes: set<N>, mutable: set<N>, p1: map<N, N>)

  datatype Verdict<N> = Plan(actions: seq<Action<N>>) | ParseError

  ghost predicate MayFold<N>(actions: seq<Action<N>>, i: nat, repo: Repo<N>)
    requires i < |actions| && repo.nodes <= repo.p1.Keys
  {
    Folds(actions[i].verb) && actions[i].node in repo.nodes ==>
      if i == 0 then repo.p1[actions[0].node] in repo.mutable
      else (actions[i - 1].verb == Pick || actions[i - 1].verb == Base) ==> actions[i - 1].node in repo.mutable
  }

  ghost predicate RuleOk<N>(actions: seq<Action<N>>, i: nat, expected: set<N>, repo: Repo<N>)
    requires i < |actions| && repo.nodes <= repo.p1.Keys
  {
    && actions[i].node in repo.nodes
    && MayFold(actions, i, repo)
    && (if actions[i].verb == Base then actions[i].node !in expected
        else actions[i].node in expected && forall j :: 0 <= j < i ==> actions[j].node != actions[i].node)
  }

  ghost function Listed<N>(actions: seq<Action<N>>): set<N> {
    set a | a in actions :: a.node
  }

  ghost predicate Acceptable<N>(actions: seq<Action<N>>, expected: set<N>, repo: Repo<N>, dropmissing: bool)
    requires repo.nodes <= repo.p1.Keys
  {
    && (actions != [] ==> actions[0].verb != Roll && actions[0].verb != Fold)
    && (forall i :: 0 <= i < |actions| ==> RuleOk(actions, i, expected, repo))
    && (if dropmissing then actions != [] else expected <= Listed(actions))
  }

  /** The plan that comes out: implicit drops for the missing changesets, then the given rules. */
  ghost predicate AcceptedAs<N(!new)>(plan: seq<Action<N>>, actions: seq<Action<N>>, expected: set<N>) {
    exists missing: seq<N> ::
      && Distinct(missing) && Elements(missing) == expected - Listed(actions)
      && plan == Drops(missing) + actions
  }

  function Drops<N>(ns: seq<N>): (r: seq<Action<N>>)
    ensures |r| == |ns| && forall i :: 0 <= i < |ns| ==> r[i] == Action(Drop, ns[i])
  {
    seq(|ns|, i requires 0 <= i < |ns| => Action(Drop, ns[i]))
  }

  /** The rules, after drops that were not asked for. */
  ghost predicate DropsThen<N>(plan: seq<Action<N>>, actions: seq<Action<N>>) {
    && |actions| <= |plan| && plan[|plan| - |actions|..] == actions
    && forall i :: 0 <= i < |plan| - |actions| ==> plan[i].verb == Drop
  }

  /** No accepted rule folds into a changeset that must not change, and none folds into nothing. */
  lemma AcceptedFoldsAreLegal<N>(actions: seq<Action<N>>, expected: set<N>, repo: Repo<N>, dropmissing: bool, i: nat)
    requires repo.nodes <= repo.p1.Keys && Acceptable(actions, expected, repo, dropmissing) && i < |actions|
    requires actions[i].verb == Fold || actions[i].verb == Roll
    ensures i > 0
    ensures actions[i - 1].verb == Pick || actions[i - 1].verb == Base ==> actions[i - 1].node in repo.mutable
  {
    assert RuleOk(actions, i, expected, repo) && RuleOk(actions, 0, expected, repo);
  }

  method VerifyActions<N(==,!new)>(actions: seq<Action<N>>, expected: set<N>, repo: Repo<N>, dropmissing: bool)
    returns (r: Verdict<N>)
    requires repo.nodes <= repo.p1.Keys
    ensures r.Plan? <==> Acceptable(actions, expected, repo, dropmissing)
    ensures r.Plan? ==> AcceptedAs(r.actions, actions, expected)
    ensures r.Plan? && !dropmissing ==> r.actions == actions
    ensures r.Plan? ==> DropsThen(r.actions, actions)
  {
    if actions != [] && (actions[0].verb == Roll || actions[0].verb == Fold) {
      return ParseError;
    }
    var seen := {};
    for i := 0 to |actions|
      invariant seen == set j | 0 <= j < i :: actions[j].node
      invariant forall j :: 0 <= j < i ==> RuleOk(actions, j, expected, repo)
    {
      var a := actions[i];
      assert Acceptable(actions, expected, repo, dropmissing) ==> RuleOk(actions, i, expected, repo);
      if a.node !in repo.nodes {
        return ParseError;
      }
      if a.verb == Base {
        if a.node in expected {
          return ParseError;
        }
      } else if a.node !in expected || a.node in seen {
        return ParseError;
      }
      if Folds(a.verb) {
        if i == 0 {
          if repo.p1[a.node] !in repo.mutable {
            return ParseError;
          }
        } else if (actions[i - 1].verb == Pick || actions[i - 1].verb == Base) && actions[i - 1].node !in repo.mutable {
          return ParseError;
        }
      }
      seen := seen + {a.node};
    }
    assert seen == Listed(actions);
    var missing := expected - seen;
    assert forall n :: n in expected && n !in Listed(actions) ==> n in missing;
    if dropmissing {
      if |actions| == 0 {
        return ParseError;
      }
      var drops := SetToList(missing);
      return Plan(Drops(drops) + actions);
    } else if missing != {} {
      return ParseError;
    }
    assert Drops([]) + actions == actions;
    assert Distinct<N>([]) && Elements<N>([]) == expected - Listed(actions);
    return Plan(actions);
  }

  /** An accepted plan has exactly one rule for every expected changeset, and bases outside them. */
  lemma AcceptedPlanCovers<N(!new)>(plan: seq<Action<N>>, actions: seq<Action<N>>, expected: set<N>, repo: Repo<N>,
      dropmissing: bool)
    requires repo.nodes <= repo.p1.Keys
    requires Acceptable(actions, expected, repo, dropmissing) && AcceptedAs(plan, actions, expected)
    ensures Planned(plan)
    ensures forall n :: InPlan(plan, n) <==> n in expected
    ensures forall a :: a in plan && a.verb == Base ==> a.node in repo.nodes - expected
  {
    var missing: seq<N> :| Distinct(missing) && Elements(missing) == expected - Listed(actions)
                           && plan == Drops(missing) + actions;
    RulesInPlace(actions, expected, repo, dropmissing);
    forall a | a in plan
      ensures if a.verb == Base then a.node in repo.nodes - expected else a.node in expected
    {
      DropOrRule(missing, actions, expected, a);
    }
    forall n | n in expected
      ensures InPlan(plan, n)
    {
      ExpectedIsPlanned(missing, actions, expected, n);
    }
    forall i, j | 0 <= i < j < |plan| && plan[i].verb != Base && plan[j].verb != Base
      ensures plan[i].node != plan[j].node
    {
      RulesApart(missing, actions, expected, repo, i, j);
    }
  }

  lemma RulesInPlace<N>(actions: seq<Action<N>>, expected: set<N>, repo: Repo<N>, dropmissing: bool)
    requires repo.nodes <= repo.p1.Keys && Acceptable(actions, expected, repo, dropmissing)
    ensures forall a :: a in actions ==> if a.verb == Base then a.node in repo.nodes - expected else a.node in expected
  {
    forall a | a in actions
      ensures if a.verb == Base then a.node in repo.nodes - expected else a.node in expected
    {
      var i :| 0 <= i < |actions| && actions[i] == a;
      assert RuleOk(actions, i, expected, repo);
    }
  }

  lemma DropOrRule<N>(missing: seq<N>, actions: seq<Action<N>>, expected: set<N>, a: Action<N>)
    requires Elements(missing) == expected - Listed(actions) && a in Drops(missing) + actions
    ensures a in actions || (a.verb == Drop && a.node in expected)
  {
    if a !in actions {
      var i :| 0 <= i < |missing| && Drops(missing)[i] == a;
      assert missing[i] in Elements(missing);
    }
  }

  lemma ExpectedIsPlanned<N>(missing: seq<N>, actions: seq<Action<N>>, expected: set<N>, n: N)
    requires Elements(missing) == expected - Listed(actions) && n in expected
    requires forall a :: a in actions && a.verb == Base ==> a.node !in expected
    ensures InPlan(Drops(missing) + actions, n)
  {
    var plan := Drops(missing) + actions;
    if n in Listed(actions) {
      var a :| a in actions && a.node == n;
      assert a in plan && a.verb != Base;
    } else {
      assert n in Elements(missing);
      var i :| 0 <= i < |missing| && missing[i] == n;
      assert plan[i] == Action(Drop, n) && plan[i] in plan;
    }
  }

  lemma RulesApart<N>(missing: seq<N>, actions: seq<Action<N>>, expected: set<N>, repo: Repo<N>, i: nat, j: nat)
    requires Distinct(missing) && Elements(missing) == expected - Listed(actions) && repo.nodes <= repo.p1.Keys
    requires forall k :: 0 <= k < |actions| ==> RuleOk(actions, k, expected, repo)
    requires i < j < |missing| + |actions|
    ensures var plan := Drops(missing) + actions;
            plan[i].verb != Base && plan[j].verb != Base ==> plan[i].node != plan[j].node
  {
    if j < |missing| {
      assert missing[i] != missing[j];
    } else {
      var k := j - |missing|;
      assert RuleOk(actions, k, expected, repo) && actions[k] in actions;
      if i < |missing| {
        assert missing[i] in Elements(missing);
      }
    }
  }

  // ---------------------------------------------------------------------------------------
  // Whole runs

  /** A new session: nothing recorded, at the parent of the edited range, with an accepted plan. */
  ghost predicate Starts<N(!new)>(s: Session<N>, known: set<N>) {
    && s.replacements == []
    && Mentioned(s) <= known
    && exists actions, expected, repo: Repo<N>, dropmissing ::
         && repo.nodes <= repo.p1.Keys
         && Acceptable(actions, expected, repo, dropmissing)
         && AcceptedAs(s.actions, actions, expected)
         && s.parent !in expected
  }

  /** Where the action's own commit leaves '.': at the parent, or at one fresh child of it. */
  ghost predicate Committed<N>(s: Session<N>, known: set<N>, wc: WorkingCopy<N>) {
    wc.dot == s.parent || (wc.dot !in known && wc.descends && wc.internal == [])
  }

  /** Where the user leaves '.' during an intervention. */
  ghost predicate LeftByUser<N>(s: Session<N>, known: set<N>, wc: WorkingCopy<N>)
    requires s.actions != []
  {
    || wc.dot == s.parent
    || (wc.dot !in known && wc.descends && forall n :: n in wc.internal ==> n !in known)
    || (!Folds(s.actions[0].verb) && s.actions[0].verb != Base && wc.dot == s.actions[0].node)
  }

  datatype Event<N> =
    | Ran(turn: Turn<N>)
    | Stopped
    | Resumed(wc: WorkingCopy<N>, folded: N)
    | Replanned(rules: seq<Action<N>>, repo: Repo<N>, dropmissing: bool)
    | Marked

  ghost predicate Next<N(!new)>(s: Session<N>, known: set<N>, e: Event<N>, s': Session<N>, known': set<N>) {
    match e
    case Ran(t) =>
      && s.actions != []
      && Committed(s, known, t.wc) && FreshFold(known, t.wc, t.folded)
      && (s.actions[0].verb == Base ==> s.actions[0].node !in OldNodes(s.replacements))
      && s' == RunStep(s, t) && known' == NowKnown(known, t.wc, t.folded)
    case Stopped =>
      s' == s && known' == known
    case Resumed(wc, folded) =>
      && s.actions != []
      && LeftByUser(s, known, wc) && FreshFold(known, wc, folded)
      && s' == ResumeStep(s, wc, folded) && known' == NowKnown(known, wc, folded)
    case Replanned(rules, repo, dropmissing) =>
      && BasesUntouched(s)
      && repo.nodes <= repo.p1.Keys && repo.nodes <= known
      && Acceptable(rules, Listed(s.actions), repo, dropmissing)
      && AcceptedAs(s'.actions, rules, Listed(s.actions))
      && s' == s.(actions := s'.actions) && known' == known
    case Marked =>
      s' == s.(actions := MarkMultifolds(s.actions)) && known' == known
  }

  lemma StartIsSound<N(!new)>(s: Session<N>, known: set<N>)
    requires Starts(s, known)
    ensures Sound(s, known)
  {
    var actions, expected, repo: Repo<N>, dropmissing :|
      && repo.nodes <= repo.p1.Keys
      && Acceptable(actions, expected, repo, dropmissing)
      && AcceptedAs(s.actions, actions, expected)
      && s.parent !in expected;
    AcceptedPlanCovers(s.actions, actions, expected, repo, dropmissing);
  }

  /** No pending base is the current parent, or was replaced. */
  ghost predicate BasesUntouched<N>(s: Session<N>) {
    forall a :: a in s.actions && a.verb == Base ==> a.node != s.parent && a.node !in OldNodes(s.replacements)
  }

  /**
   An edited plan has to list the node of a pending base like any other, so that the node can be
   picked, folded or dropped now. The session stays sound exactly if none of these nodes is the
   current parent or was replaced.
   */
  lemma ReplanKeepsSoundIff<N(!new)>(s: Session<N>, known: set<N>, rules: seq<Action<N>>, repo: Repo<N>,
                                     dropmissing: bool, plan: seq<Action<N>>)
    requires Sound(s, known)
    requires repo.nodes <= repo.p1.Keys && repo.nodes <= known
    requires Acceptable(rules, Listed(s.actions), repo, dropmissing) && AcceptedAs(plan, rules, Listed(s.actions))
    ensures Sound(s.(actions := plan), known) <==> BasesUntouched(s)
  {
    AcceptedPlanCovers(plan, rules, Listed(s.actions), repo, dropmissing);
    forall a | a in plan
      ensures a.node in known
      ensures a.verb != Base && BasesUntouched(s) ==> a.node !in OldNodes(s.replacements)
    {
      if a.verb != Base {
        assert InPlan(plan, a.node);
        var b :| b in s.actions && b.node == a.node;
      }
    }
    assert s.parent in Listed(s.actions) <==> exists a :: a in s.actions && a.verb == Base && a.node == s.parent;
    forall a | a in s.actions && a.verb == Base
      ensures InPlan(plan, a.node)
    {
      assert a.node in Listed(s.actions);
    }
  }

  /** A plan that lists everything is accepted as it is. */
  lemma AcceptedUnchanged<N(!new)>(rules: seq<Action<N>>, expected: set<N>)
    requires expected <= Listed(rules)
    ensures AcceptedAs(rules, rules, expected)
  {
    assert Distinct<N>([]) && Elements<N>([]) == expected - Listed(rules);
    assert rules == Drops<N>([]) + rules;
  }

  // An edit that goes wrong: at parent 0, with a base 0 pending, 0 is to be folded.

  const EDITED: Session<int> :=
    Session(0, 2, false, [Action(Edit, 2), Action(Base, 0), Action(Pick, 1)], [], None)

  const RULES: seq<Action<int>> := [Action(Drop, 2), Action(Drop, 1), Action(Fold, 0)]

  /** Nothing changes in the working copy. */
  const IDLE: Turn<int> := Turn(false, false, WorkingCopy(0, false, []), 3)

  lemma ListedTwo<N>(a: Action<N>, b: Action<N>)
    ensures Listed([a, b]) == {a.node, b.node}
  {
    assert [a, b][0] == a && [a, b][1] == b;
    assert a in [a, b] && b in [a, b];
  }

  lemma ListedThree<N>(a: Action<N>, b: Action<N>, c: Action<N>)
    ensures Listed([a, b, c]) == {a.node, b.node, c.node}
  {
    assert [a, b, c][0] == a && [a, b, c][1] == b && [a, b, c][2] == c;
    assert a in [a, b, c] && b in [a, b, c] && c in [a, b, c];
  }

  /** A plan that starts with neither fold nor roll, has no folds and lists everything once starts a session. */
  lemma PlainPlanStarts<N(!new)>(s: Session<N>, known: set<N>, expected: set<N>, repo: Repo<N>)
    requires s.replacements == [] && s.parent in known && s.parent !in expected
    requires repo.nodes <= repo.p1.Keys && repo.nodes <= known && s.actions != []
    requires expected <= Listed(s.actions) <= repo.nodes
    requires forall i :: 0 <= i < |s.actions| ==>
               !Folds(s.actions[i].verb) && (s.actions[i].verb == Base <==> s.actions[i].node !in expected)
    requires forall i, j :: 0 <= i < j < |s.actions| ==> s.actions[i].node != s.actions[j].node
    ensures Starts(s, known)
  {
    AcceptedUnchanged(s.actions, expected);
    forall i | 0 <= i < |s.actions|
      ensures RuleOk(s.actions, i, expected, repo)
    {
      assert s.actions[i] in s.actions;
    }
    assert Acceptable(s.actions, expected, repo, false);
    assert OldNodes(s.replacements) == {} && NewNodes(s.replacements) == {};
    assert Mentioned(s) == {s.parent} + Listed(s.actions);
  }

  lemma EditedSessionStarts()
    ensures Starts(EDITED, {0, 1, 2}) && !BasesUntouched(EDITED) && Listed(EDITED.actions) == {0, 1, 2}
  {
    ListedThree(Action(Edit, 2), Action(Base, 0), Action(Pick, 1));
    PlainPlanStarts(EDITED, {0, 1, 2}, {1, 2}, Repo({0, 1, 2}, {1, 2}, map[0 := -1, 1 := 0, 2 := 1]));
    assert EDITED.actions[1] in EDITED.actions;
  }

  /** The edit is acceptable, whichever changesets are mutable. */
  lemma EditIsAcceptable(repo: Repo<int>)
    requires {0, 1, 2} == repo.nodes == repo.p1.Keys
    ensures Acceptable(RULES, {0, 1, 2}, repo, false) && AcceptedAs(RULES, RULES, {0, 1, 2})
  {
    assert RULES[0] in RULES && RULES[1] in RULES && RULES[2] in RULES;
    assert Listed(RULES) == {0, 1, 2};
    forall i | 0 <= i < |RULES|
      ensures RuleOk(RULES, i, {0, 1, 2}, repo)
    {
    }
    AcceptedUnchanged(RULES, {0, 1, 2});
  }

  /**
   The edit stops, the plan is edited and continued with nothing changed: the drops go through,
   the fold finds nothing to do, and it is recorded that 0 replaces itself.
   */
  lemma EditedBaseIsCyclic()
    ensures var first := ResumeStep(EDITED.(actions := RULES), IDLE.wc, IDLE.folded);
            !Acyclic(Recorded(RunStep(RunStep(first, IDLE), IDLE).replacements))
  {
    var first := ResumeStep(EDITED.(actions := RULES), IDLE.wc, IDLE.folded);
    var third := RunStep(RunStep(first, IDLE), IDLE);
    assert third.replacements[2] == Replacement(0, [0]);
    SelfEdge(third.replacements, 2, 0);
  }

  lemma SelfEdge<N(!new)>(reps: seq<Replacement<N>>, i: nat, n: N)
    requires i < |reps| && reps[i].prec == n && n in reps[i].succs
    ensures !Acyclic(Recorded(reps))
  {
    assert reps[i] in reps;
    EdgeReaches(Recorded(reps), n, n);
  }

  lemma NextKeepsSound<N(!new)>(s: Session<N>, known: set<N>, e: Event<N>, s': Session<N>, known': set<N>)
    requires Sound(s, known) && Next(s, known, e, s', known')
    ensures Sound(s', known') && known <= known'
  {
    match e
    case Ran(t) =>
      HeadLeavesPlan(s, known);
      RunKeepsSoundIff(s, known, t);
    case Stopped =>
    case Resumed(wc, folded) =>
      HeadLeavesPlan(s, known);
      ResumeKeepsSoundIff(s, known, wc, folded);
    case Replanned(rules, repo, dropmissing) =>
      ReplanKeepsSoundIff(s, known, rules, repo, dropmissing, s'.actions);
    case Marked =>
      MarkingKeepsSoundIff(s, known);
  }

  datatype State<N> = State(session: Session<N>, known: set<N>)

  ghost predicate IsRun<N(!new)>(run: seq<State<N>>, events: seq<Event<N>>) {
    && |run| == |events| + 1
    && Starts(run[0].session, run[0].known)
    && forall i :: 0 <= i < |events| ==>
         Next(run[i].session, run[i].known, events[i], run[i + 1].session, run[i + 1].known)
  }

  /**
   In every state of every run the current parent has not been replaced, no recorded edge leads
   to a node replaced before, and the recorded graph is acyclic, so it can be closed.
   */
  lemma EveryRunIsAcyclic<N(!new)>(run: seq<State<N>>, events: seq<Event<N>>, i: nat)
    requires IsRun(run, events) && i < |run|
    ensures var s := run[i].session;
            && Sound(s, run[i].known)
            && s.parent !in OldNodes(s.replacements)
            && Acyclic(Recorded(s.replacements))
  {
    StartIsSound(run[0].session, run[0].known);
    for k := 0 to i
      invariant Sound(run[k].session, run[k].known)
    {
      NextKeepsSound(run[k].session, run[k].known, events[k], run[k + 1].session, run[k + 1].known);
    }
    OrderedIsAcyclic(run[i].session.replacements);
  }

  /**
   Why a fold must not be resumed on its own changeset: it would record the changeset as its
   own replacement, and the recorded graph could never be closed.
   */
  lemma FoldResumedOnItselfIsCyclic<N(!new)>(s: Session<N>, wc: WorkingCopy<N>, folded: N)
    requires s.actions != [] && Folds(s.actions[0].verb)
    requires wc.dot == s.actions[0].node && wc.dot != s.parent
    ensures !Acyclic(Recorded(ResumeStep(s, wc, folded).replacements))
  {
    var node := s.actions[0].node;
    var reps := ContinueClean(s.actions[0], s.parent, wc, folded).1;
    var all := s.replacements + reps;
    assert reps[0] == Replacement(node, [node]) && all[|s.replacements|] == reps[0];
    SelfEdge(all, |s.replacements|, node);
  }

  /**
   Wherever the user leaves '.' before a fold is resumed, the recorded graph becomes cyclic exactly
   if that is the fold's own changeset, or one that the fold's changeset was made from.
   */
  lemma FoldResumedIsAcyclicIff<N(!new)>(s: Session<N>, known: set<N>, wc: WorkingCopy<N>, folded: N)
    requires s.actions != [] && Folds(s.actions[0].verb)
    requires Mentioned(s) <= known && FreshFold(known, wc, folded)
    requires Acyclic(Recorded(s.replacements))
    ensures Acyclic(Recorded(ResumeStep(s, wc, folded).replacements)) <==>
              wc.dot != s.actions[0].node && !Reaches(Recorded(s.replacements), wc.dot, s.actions[0].node)
  {
    var node := s.actions[0].node;
    var reps := ContinueClean(s.actions[0], s.parent, wc, folded).1;
    assert s.actions[0] in s.actions;
    assert reps[0] == Replacement(node, [wc.dot]);
    OneEdgeAddedIff(s.replacements, reps, node, wc.dot, folded);
  }

  /** The bundles in `more` record an edge from `node` to `dot`, and otherwise lead to `sink` only. */
  ghost predicate OneEdge<N>(more: seq<Replacement<N>>, node: N, dot: N, sink: N) {
    && more != [] && more[0] == Replacement(node, [dot])
    && forall r :: r in more ==> r.prec != sink && (r == Replacement(node, [dot]) || r.succs == [sink])
  }

  /** One more edge closes a cycle exactly if its start could be reached from its end. */
  lemma OneEdgeAddedIff<N(!new)>(reps: seq<Replacement<N>>, more: seq<Replacement<N>>, node: N, dot: N, sink: N)
    requires Acyclic(Recorded(reps)) && OneEdge(more, node, dot, sink) && sink !in OldNodes(reps)
    ensures Acyclic(Recorded(reps + more)) <==> dot != node && !Reaches(Recorded(reps), dot, node)
  {
    var g, h := Recorded(reps), Recorded(reps + more);
    if dot == node || Reaches(g, dot, node) {
      EdgeCloses(reps, more, node, dot);
    } else {
      AcyclicIffNothingStuck(g);
      forall knot | Stuck(h, knot)
        ensures knot == {}
      {
        KnotIsOld(reps, more, node, dot, sink, knot);
      }
      AcyclicIffNothingStuck(h);
    }
  }

  lemma EdgeCloses<N(!new)>(reps: seq<Replacement<N>>, more: seq<Replacement<N>>, node: N, dot: N)
    requires more != [] && more[0] == Replacement(node, [dot])
    requires dot == node || Reaches(Recorded(reps), dot, node)
    ensures !Acyclic(Recorded(reps + more))
  {
    var h := Recorded(reps + more);
    assert (reps + more)[|reps|] == more[0] && more[0] in reps + more && dot in more[0].succs;
    EdgeReaches(h, node, dot);
    if dot != node {
      StillReaches(reps, more, dot, node);
      ReachesTransitive(h, node, dot, node);
    }
  }

  lemma StillReaches<N(!new)>(reps: seq<Replacement<N>>, more: seq<Replacement<N>>, a: N, b: N)
    requires Reaches(Recorded(reps), a, b)
    ensures Reaches(Recorded(reps + more), a, b)
  {
    var p :| Joins(Recorded(reps), p, a, b);
    forall i | 0 <= i < |p| - 1
      ensures Edge(Recorded(reps + more), p[i], p[i + 1])
    {
      assert Edge(Recorded(reps), p[i], p[i + 1]);
      var r :| r in reps && r.prec == p[i] && p[i + 1] in r.succs;
      assert r in reps + more;
    }
    assert Joins(Recorded(reps + more), p, a, b);
  }

  lemma EdgeIsOld<N>(reps: seq<Replacement<N>>, more: seq<Replacement<N>>, node: N, dot: N, sink: N, a: N, b: N)
    requires OneEdge(more, node, dot, sink) && Edge(Recorded(reps + more), a, b) && b != sink
    ensures Edge(Recorded(reps), a, b) || (a == node && b == dot)
  {
    var r :| r in reps + more && r.prec == a && b in r.succs;
    if r in reps {
      assert Edge(Recorded(reps), a, b);
    }
  }

  /** What can be reached from `dot` is stuck by itself already, and then so is the whole knot. */
  lemma KnotIsOld<N(!new)>(reps: seq<Replacement<N>>, more: seq<Replacement<N>>, node: N, dot: N, sink: N, knot: set<N>)
    requires OneEdge(more, node, dot, sink) && sink !in OldNodes(reps)
    requires dot != node && !Reaches(Recorded(reps), dot, node) && Stuck(Recorded(reps + more), knot)
    requires forall k :: Stuck(Recorded(reps), k) ==> k == {}
    ensures knot == {}
  {
    var g := Recorded(reps);
    var below := set k | k in knot && (k == dot || Reaches(g, dot, k));
    forall k | k in knot
      ensures k in g || k == node
      ensures (k == node && dot in knot) || (k in g && Meet(g[k], knot))
      ensures k in below ==> k in g && Meet(g[k], below)
    {
      var s := KnotEdge(reps, more, node, dot, sink, knot, k);
      if k in below {
        EdgeReaches(g, k, s);
        if k != dot {
          ReachesTransitive(g, dot, k, s);
        }
        assert s in below;
      }
    }
    assert Stuck(g, below);
    assert dot !in knot;
    assert Stuck(g, knot);
  }

  lemma KnotEdge<N(!new)>(reps: seq<Replacement<N>>, more: seq<Replacement<N>>, node: N, dot: N, sink: N, knot: set<N>,
      k: N)
    returns (s: N)
    requires OneEdge(more, node, dot, sink) && sink !in OldNodes(reps)
    requires Stuck(Recorded(reps + more), knot) && k in knot
    ensures s in knot && (Edge(Recorded(reps), k, s) || (k == node && s == dot))
  {
    var h := Recorded(reps + more);
    assert Meet(h[k], knot);
    s :| s in h[k] && s in knot;
    assert sink !in OldNodes(reps + more);
    EdgeIsOld(reps, more, node, dot, sink, k, s);
  }

  // How a fold's changeset comes to be made from another one: the base of an edited plan is folded.

  const REPO: Repo<int> := Repo({0, 1, 2, 3, 10, 11}, {1, 2, 3, 10, 11},
                                map[0 := -1, 2 := 0, 3 := 2, 1 := 3, 10 := 0, 11 := 10])

  function TwoPicked(reps: seq<Replacement<int>>, actions: seq<Action<int>>): Session<int> {
    Session(11, 1, false, actions, [Replacement(2, [10]), Replacement(3, [11])] + reps, None)
  }

  function KnownSoFar(n: int): set<int> {
    {0, 1, 2, 3} + (if n >= 1 then {10, 20} else {}) + (if n >= 2 then {11, 21} else {})
    + if n >= 3 then {22} else {}
  }

  /** Two picks, an edit that stops, and the plan edited twice: the fold of 10 comes to stop. */
  const FORMER_BASE: seq<State<int>> := [
    State(Session(0, 1, false, [Action(Pick, 2), Action(Pick, 3), Action(Edit, 1)], [], None), KnownSoFar(0)),
    State(Session(10, 1, false, [Action(Pick, 3), Action(Edit, 1)], [Replacement(2, [10])], None), KnownSoFar(1)),
    State(TwoPicked([], [Action(Edit, 1)]), KnownSoFar(2)),
    State(TwoPicked([], [Action(Edit, 1), Action(Base, 10)]), KnownSoFar(2)),
    State(TwoPicked([], [Action(Drop, 1), Action(Fold, 10)]), KnownSoFar(2)),
    State(TwoPicked([Replacement(1, [])], [Action(Fold, 10)]), KnownSoFar(3)) ]

  const FORMER_BASE_EVENTS: seq<Event<int>> := [
    Ran(Turn(false, false, WorkingCopy(10, true, []), 20)),
    Ran(Turn(false, false, WorkingCopy(11, true, []), 21)),
    Replanned([Action(Edit, 1), Action(Base, 10)], REPO, false),
    Replanned([Action(Drop, 1), Action(Fold, 10)], REPO, false),
    Resumed(WorkingCopy(11, false, []), 22) ]

  lemma FormerBaseStarts()
    ensures Starts(FORMER_BASE[0].session, FORMER_BASE[0].known)
  {
    ListedThree(Action(Pick, 2), Action(Pick, 3), Action(Edit, 1));
    PlainPlanStarts(FORMER_BASE[0].session, {0, 1, 2, 3}, {1, 2, 3},
                    Repo({0, 1, 2, 3}, {1, 2, 3}, map[0 := -1, 2 := 0, 3 := 2, 1 := 3]));
  }

  lemma FormerBasePicks()
    ensures var x, e := FORMER_BASE, FORMER_BASE_EVENTS;
            && Next(x[0].session, x[0].known, e[0], x[1].session, x[1].known)
            && Next(x[1].session, x[1].known, e[1], x[2].session, x[2].known)
  {
    PickedOnto(FORMER_BASE[0], FORMER_BASE[1], 10, 20);
    PickedOnto(FORMER_BASE[1], FORMER_BASE[2], 11, 21);
  }

  lemma FormerBaseAdded()
    ensures var x, e := FORMER_BASE, FORMER_BASE_EVENTS;
            Next(x[2].session, x[2].known, e[2], x[3].session, x[3].known)
  {
    BaseIsAdded();
  }

  lemma FormerBaseFolded()
    ensures var x, e := FORMER_BASE, FORMER_BASE_EVENTS;
            Next(x[3].session, x[3].known, e[3], x[4].session, x[4].known)
  {
    BaseIsFolded();
  }

  lemma FormerBaseDropped()
    ensures var x, e := FORMER_BASE, FORMER_BASE_EVENTS;
            Next(x[4].session, x[4].known, e[4], x[5].session, x[5].known)
  {
    DropResumed(FORMER_BASE[4], FORMER_BASE[5], 22);
  }

  lemma PickedOnto<N(!new)>(x: State<N>, y: State<N>, dot: N, folded: N)
    requires x.session.actions != [] && x.session.actions[0].verb == Pick
    requires dot !in x.known && folded !in x.known && dot != folded && dot != x.session.parent
    requires y.session == Advance(x.session, (dot, [Replacement(x.session.actions[0].node, [dot])]))
    requires dot != x.session.actions[0].node && y.known == x.known + {dot, folded}
    ensures Next(x.session, x.known, Ran(Turn(false, false, WorkingCopy(dot, true, []), folded)), y.session, y.known)
  {
    assert NowKnown(x.known, WorkingCopy(dot, true, []), folded) == y.known;
  }

  lemma DropResumed<N(!new)>(x: State<N>, y: State<N>, folded: N)
    requires x.session.actions != [] && x.session.actions[0].verb == Drop
    requires x.session.parent in x.known && folded !in x.known && y.known == x.known + {folded}
    requires y.session == Advance(x.session, (x.session.parent, [Replacement(x.session.actions[0].node, [])]))
    ensures Next(x.session, x.known, Resumed(WorkingCopy(x.session.parent, false, []), folded), y.session, y.known)
  {
    assert NowKnown(x.known, WorkingCopy(x.session.parent, false, []), folded) == y.known;
  }

  lemma BaseIsAdded()
    ensures var s, rules := TwoPicked([], [Action(Edit, 1)]), [Action(Edit, 1), Action(Base, 10)];
            && BasesUntouched(s) && Listed(s.actions) == {1}
            && Acceptable(rules, {1}, REPO, false) && AcceptedAs(rules, rules, {1})
  {
    var rules := [Action(Edit, 1), Action(Base, 10)];
    ListedTwo(rules[0], rules[1]);
    assert [Action(Edit, 1)][0] == Action(Edit, 1);
    AcceptedUnchanged(rules, {1});
    assert RuleOk(rules, 0, {1}, REPO) && RuleOk(rules, 1, {1}, REPO);
  }

  lemma BaseIsFolded()
    ensures var s := TwoPicked([], [Action(Edit, 1), Action(Base, 10)]);
            var rules := [Action(Drop, 1), Action(Fold, 10)];
            && BasesUntouched(s) && Listed(s.actions) == {1, 10}
            && Acceptable(rules, {1, 10}, REPO, false) && AcceptedAs(rules, rules, {1, 10})
  {
    var rules := [Action(Drop, 1), Action(Fold, 10)];
    ListedTwo(Action(Edit, 1), Action(Base, 10));
    ListedTwo(rules[0], rules[1]);
    TwoPickedNodes([Action(Edit, 1), Action(Base, 10)]);
    AcceptedUnchanged(rules, {1, 10});
    assert RuleOk(rules, 0, {1, 10}, REPO) && RuleOk(rules, 1, {1, 10}, REPO);
  }

  lemma TwoPickedNodes(actions: seq<Action<int>>)
    ensures OldNodes(TwoPicked([], actions).replacements) == {2, 3}
  {
    OneMoreEdge(3, 11, []);
    OneMoreEdge(2, 10, [Replacement(3, [11])]);
  }

  /**
   In a session that a run leads to, a fold is resumed with '.' at 2, neither its own changeset nor
   the parent. That 10 is replaced by 2 is recorded, and 2 was replaced by 10 before.
   */
  lemma FormerBaseIsCyclic(wc: WorkingCopy<int>, folded: int)
    requires wc.dot == 2 && !wc.descends
    ensures IsRun(FORMER_BASE, FORMER_BASE_EVENTS)
    ensures var s := FORMER_BASE[5].session;
            && Sound(s, FORMER_BASE[5].known) && s.actions[0] == Action(Fold, 10) && s.parent == 11
            && !Acyclic(Recorded(ResumeStep(s, wc, folded).replacements))
  {
    FormerBaseIsRun();
    EveryRunIsAcyclic(FORMER_BASE, FORMER_BASE_EVENTS, 5);
    TenIsReplacedByTwo(FORMER_BASE[5].session, wc, folded);
  }

  lemma TenIsReplacedByTwo(s: Session<int>, wc: WorkingCopy<int>, folded: int)
    requires s.actions == [Action(Fold, 10)] && s.parent == 11 && wc.dot == 2 && !wc.descends
    requires s.replacements != [] && s.replacements[0] == Replacement(2, [10])
    ensures !Acyclic(Recorded(ResumeStep(s, wc, folded).replacements))
  {
    TwoReplacesTen(s.replacements[1..]);
    assert s.replacements == [s.replacements[0]] + s.replacements[1..];
    EdgeCloses(s.replacements, ContinueClean(s.actions[0], s.parent, wc, folded).1, 10, 2);
  }

  lemma FormerBaseIsRun()
    ensures IsRun(FORMER_BASE, FORMER_BASE_EVENTS)
  {
    FormerBaseStarts();
    FormerBasePicks();
    FormerBaseAdded();
    FormerBaseFolded();
    FormerBaseDropped();
  }

  lemma TwoReplacesTen(more: seq<Replacement<int>>)
    ensures Reaches(Recorded([Replacement(2, [10])] + more), 2, 10)
  {
    var reps := [Replacement(2, [10])] + more;
    assert reps[0] in reps && 10 in reps[0].succs;
    EdgeReaches(Recorded(reps), 2, 10);
  }

  // ---------------------------------------------------------------------------------------
  // Runs of folds, and whole stretches of a plan

  function MarkedVerb<N>(actions: seq<Action<N>>, i: nat): Verb
    requires i < |actions|
  {
    if actions[i].verb == Fold && i + 1 < |actions| && actions[i + 1].verb == Fold then MultiFold else actions[i].verb
  }

  /** The preprocessing pass of `_continuehistedit`, which hides inner folds from the user. */
  function MarkMultifolds<N>(actions: seq<Action<N>>): (r: seq<Action<N>>)
    ensures |r| == |actions|
    ensures forall i :: 0 <= i < |r| ==> r[i] == actions[i].(verb := MarkedVerb(actions, i))
  {
    seq(|actions|, i requires 0 <= i < |actions| => actions[i].(verb := MarkedVerb(actions, i)))
  }

  /** In every longest run of folds exactly the last one still opens an editor. */
  lemma OneEditorPerRunOfFolds<N>(actions: seq<Action<N>>, lo: nat, hi: nat)
    requires lo < hi <= |actions| && forall i :: lo <= i < hi ==> actions[i].verb == Fold
    requires hi < |actions| ==> actions[hi].verb != Fold
    ensures forall i :: lo <= i < hi ==>
            MarkMultifolds(actions)[i] == Action(if i == hi - 1 then Fold else MultiFold, actions[i].node)
  {
  }

  /** Marking what is left of a marked plan changes nothing, as happens after every resume. */
  lemma MarkingSuffixAgain<N>(actions: seq<Action<N>>, k: nat)
    requires k <= |actions|
    ensures MarkMultifolds(MarkMultifolds(actions)[k..]) == MarkMultifolds(actions)[k..]
  {
    var rest := MarkMultifolds(actions)[k..];
    forall i | 0 <= i < |rest|
      ensures MarkedVerb(rest, i) == rest[i].verb
    {
      if i + 1 < |rest| {
        assert rest[i + 1].verb == MarkedVerb(actions, k + i + 1);
      }
    }
  }

  /** The same nodes in the same order, and bases in the same places. */
  ghost predicate SameShape<N>(x: seq<Action<N>>, y: seq<Action<N>>) {
    |x| == |y| && forall i :: 0 <= i < |x| ==> x[i].node == y[i].node && (x[i].verb == Base <==> y[i].verb == Base)
  }

  lemma SameShapeMatch<N>(x: seq<Action<N>>, y: seq<Action<N>>, a: Action<N>) returns (b: Action<N>)
    requires SameShape(x, y) && a in x
    ensures b in y && b.node == a.node && (b.verb == Base <==> a.verb == Base)
  {
    var i :| 0 <= i < |x| && x[i] == a;
    b := y[i];
  }

  lemma SameShapeInPlan<N>(x: seq<Action<N>>, y: seq<Action<N>>, n: N)
    requires SameShape(x, y) && InPlan(x, n)
    ensures InPlan(y, n)
  {
    var a :| a in x && a.verb != Base && a.node == n;
    var b := SameShapeMatch(x, y, a);
  }

  lemma SameShapePlanned<N>(x: seq<Action<N>>, y: seq<Action<N>>)
    requires SameShape(x, y) && Planned(x)
    ensures Planned(y)
  {
    forall b | b in y && b.verb == Base
      ensures !InPlan(y, b.node)
    {
      var a := SameShapeMatch(y, x, b);
      if InPlan(y, b.node) {
        SameShapeInPlan(y, x, b.node);
        assert false;
      }
    }
  }

  lemma SameShapeSound<N>(s: Session<N>, known: set<N>, actions: seq<Action<N>>)
    requires Sound(s, known) && SameShape(s.actions, actions)
    ensures Sound(s.(actions := actions), known)
  {
    SameShapePlanned(s.actions, actions);
    forall a | a in actions
      ensures a.node in known && (a.verb != Base ==> a.node !in OldNodes(s.replacements))
    {
      var b := SameShapeMatch(actions, s.actions, a);
    }
    if InPlan(actions, s.parent) {
      SameShapeInPlan(actions, s.actions, s.parent);
      assert false;
    }
  }

  lemma MarkingKeepsSoundIff<N>(s: Session<N>, known: set<N>)
    ensures Sound(s.(actions := MarkMultifolds(s.actions)), known) <==> Sound(s, known)
  {
    var marked := s.(actions := MarkMultifolds(s.actions));
    if Sound(s, known) {
      SameShapeSound(s, known, marked.actions);
    }
    if Sound(marked, known) {
      SameShapeSound(marked, known, s.actions);
      assert marked.(actions := s.actions) == s;
    }
  }

  function RunAll<N(==)>(s: Session<N>, turns: seq<Turn<N>>): Session<N> {
    if turns == [] then s else RunStep(RunAll(s, turns[..|turns| - 1]), turns[|turns| - 1])
  }

  lemma RunAllConsumes<N>(s: Session<N>, turns: seq<Turn<N>>)
    requires |turns| <= |s.actions|
    ensures RunAll(s, turns).actions == s.actions[|turns|..]
  {
    if turns != [] {
      RunAllConsumes(s, turns[..|turns| - 1]);
    }
  }

  /** Each changeset that a rule was run for is recorded as replaced, or was left as the session's parent. */
  lemma {:induction false} EveryRuleAccounted<N(!new)>(s: Session<N>, turns: seq<Turn<N>>, i: nat)
    requires i < |turns| <= |s.actions| && s.actions[i].verb != Base
    ensures s.actions[i].node in OldNodes(RunAll(s, turns).replacements)
         || RunAll(s, turns[..i + 1]).parent == s.actions[i].node
    decreases |turns|
  {
    var front, t := turns[..|turns| - 1], turns[|turns| - 1];
    RunAllConsumes(s, front);
    StepAccounts(RunAll(s, front), t);
    if i < |front| {
      EveryRuleAccounted(s, front, i);
      assert front[..i + 1] == turns[..i + 1];
    } else {
      assert turns[..i + 1] == turns;
    }
  }

  lemma StepAccounts<N(!new)>(s: Session<N>, t: Turn<N>)
    requires s.actions != []
    ensures OldNodes(s.replacements) <= OldNodes(RunStep(s, t).replacements)
    ensures s.actions[0].verb != Base ==>
              s.actions[0].node in OldNodes(RunStep(s, t).replacements) || RunStep(s, t).parent == s.actions[0].node
  {
    var gone, edges := StepRecords(s, t);
  }

  /** The changesets that a step replaces: the rule's own, or for a fold also the commits that it folds. */
  lemma StepRecords<N(!new)>(s: Session<N>, t: Turn<N>) returns (gone: set<N>, edges: iset<(N, N)>)
    requires s.actions != []
    ensures Records(s, RunStep(s, t), RunStep(s, t).parent, gone, edges)
    ensures forall a, b :: (a, b) in edges ==> a in gone
    ensures var a := s.actions[0];
            && (a.verb == Base ==> gone == {})
            && (a.verb != Base ==> a.node in gone || RunStep(s, t).parent == a.node)
            && (gone <= {a.node} || (Folds(a.verb) && t.wc.dot != s.parent
                                     && gone <= {a.node, s.parent, t.wc.dot} + Elements(t.wc.internal)))
  {
    var node := s.actions[0].node;
    if s.actions[0].verb == Drop {
      DropRecords(s, t);
      gone, edges := {node}, iset{};
    } else if s.actions[0].verb == Base || (s.actions[0].verb == Pick && t.inPlace) {
      InPlaceRecords(s, t);
      gone, edges := {}, iset{};
    } else {
      OthersRunAsResumed(s, t);
      gone, edges := ResumeRecords(s, t.wc, t.folded);
    }
  }

  lemma ResumeRecords<N(!new)>(s: Session<N>, wc: WorkingCopy<N>, folded: N) returns (gone: set<N>, edges: iset<(N, N)>)
    requires s.actions != [] && s.actions[0].verb != Base
    ensures var s' := ResumeStep(s, wc, folded);
            && Records(s, s', s'.parent, gone, edges)
            && (s.actions[0].node in gone || s'.parent == s.actions[0].node)
    ensures forall a, b :: (a, b) in edges ==> a in gone
    ensures var a := s.actions[0];
            gone <= {a.node} || (Folds(a.verb) && wc.dot != s.parent
                                 && gone <= {a.node, s.parent, wc.dot} + Elements(wc.internal))
  {
    var node := s.actions[0].node;
    if Folds(s.actions[0].verb) && wc.dot != s.parent && wc.descends {
      FoldRecords(s, wc, folded);
      gone := {node, s.parent, wc.dot} + Elements(wc.internal);
      edges := iset{(node, wc.dot), (s.parent, folded), (wc.dot, folded)} + iset n | n in wc.internal :: (n, folded);
      FoldSources(node, s.parent, wc, folded);
    } else if Folds(s.actions[0].verb) {
      FoldRecords(s, wc, folded);
      gone, edges := {node}, iset{(node, wc.dot)};
    } else {
      CommitRecords(s, wc, folded);
      gone := if wc.dot == node && node != s.parent then {} else {node};
      edges := if wc.dot == s.parent || wc.dot == node then iset{} else iset{(node, wc.dot)};
    }
  }

  lemma FoldSources<N(!new)>(node: N, parent: N, wc: WorkingCopy<N>, folded: N)
    ensures forall a, b ::
              (a, b) in iset{(node, wc.dot), (parent, folded), (wc.dot, folded)}
                        + (iset n | n in wc.internal :: (n, folded))
              ==> a in {node, parent, wc.dot} + Elements(wc.internal)
  {
  }

  ghost function KnownAfter<N>(known: set<N>, turns: seq<Turn<N>>): set<N> {
    if turns == [] then known
    else NowKnown(KnownAfter(known, turns[..|turns| - 1]), turns[|turns| - 1].wc, turns[|turns| - 1].folded)
  }

  /** Every commit that a fold makes is new. */
  ghost predicate FreshTurns<N>(known: set<N>, turns: seq<Turn<N>>) {
    turns == []
    || (FreshTurns(known, turns[..|turns| - 1])
        && FreshFold(KnownAfter(known, turns[..|turns| - 1]), turns[|turns| - 1].wc, turns[|turns| - 1].folded))
  }

  /** Every turn leaves the working copy where it may be. */
  ghost predicate AllRunnable<N>(s: Session<N>, turns: seq<Turn<N>>)
    requires |turns| <= |s.actions|
  {
    turns == []
    || (AllRunnable(s, turns[..|turns| - 1])
        && RunAll(s, turns[..|turns| - 1]).actions != []
        && RunnableWith(RunAll(s, turns[..|turns| - 1]), turns[|turns| - 1]))
  }

  ghost predicate SoundUpTo<N>(s: Session<N>, known: set<N>, turns: seq<Turn<N>>, k: nat)
    requires k <= |turns|
  {
    forall i :: 0 <= i <= k ==> Sound(RunAll(s, turns[..i]), KnownAfter(known, turns[..i]))
  }

  /** A stretch of a plan runs through sound sessions exactly if every turn is one that its action may take. */
  lemma {:induction false} StretchStaysSoundIff<N>(s: Session<N>, known: set<N>, turns: seq<Turn<N>>, k: nat)
    requires k <= |turns| && k <= |s.actions| && Sound(s, known) && FreshTurns(known, turns[..k])
    ensures SoundUpTo(s, known, turns, k) <==> AllRunnable(s, turns[..k])
  {
    assert turns[..0] == [];
    if k > 0 {
      assert turns[..k][..k - 1] == turns[..k - 1];
      StretchStaysSoundIff(s, known, turns, k - 1);
      RunAllConsumes(s, turns[..k - 1]);
      if SoundUpTo(s, known, turns, k - 1) {
        RunKeepsSoundIff(RunAll(s, turns[..k - 1]), KnownAfter(known, turns[..k - 1]), turns[k - 1]);
      }
    }
  }

  lemma StretchIsSound<N>(s: Session<N>, known: set<N>, turns: seq<Turn<N>>, n: nat, k: nat)
    requires k <= n <= |turns| && n <= |s.actions| && Sound(s, known)
    requires FreshTurns(known, turns[..n]) && AllRunnable(s, turns[..n])
    ensures Sound(RunAll(s, turns[..k]), KnownAfter(known, turns[..k]))
  {
    StretchStaysSoundIff(s, known, turns, n);
  }

  /** A changeset that was replaced before gets no more successors, unless it is a commit that is folded. */
  lemma StepLeavesReplaced<N(!new)>(s: Session<N>, known: set<N>, t: Turn<N>, n: N)
    requires s.actions != [] && Sound(s, known) && RunnableWith(s, t)
    requires n in OldNodes(s.replacements) && n !in t.wc.internal
    ensures n in OldNodes(RunStep(s, t).replacements)
    ensures Bare(s.replacements, n) ==> Bare(RunStep(s, t).replacements, n)
  {
    assert s.actions[0] in s.actions;
    var gone, edges := StepRecords(s, t);
    assert n !in gone;
    if Bare(s.replacements, n) {
      NoEdgeFrom(s, RunStep(s, t), gone, edges, n);
    }
  }

  /** Nothing is recorded that the changeset became. */
  ghost predicate Bare<N(!new)>(reps: seq<Replacement<N>>, n: N) {
    forall b :: !Edge(Recorded(reps), n, b)
  }

  lemma NoEdgeFrom<N(!new)>(s: Session<N>, s': Session<N>, gone: set<N>, edges: iset<(N, N)>, n: N)
    requires s.actions != [] && Records(s, s', s'.parent, gone, edges)
    requires Bare(s.replacements, n) && forall b :: (n, b) !in edges
    ensures Bare(s'.replacements, n)
  {
    forall b
      ensures !Edge(Recorded(s'.replacements), n, b)
    {
      assert (n, b) in Edges(s'.replacements) <==> (n, b) in Edges(s.replacements);
    }
  }

  /** No turn lists the changeset among the commits that are folded. */
  ghost predicate NotBetween<N>(turns: seq<Turn<N>>, n: N) {
    forall j :: 0 <= j < |turns| ==> n !in turns[j].wc.internal
  }

  /** A dropped changeset is recorded as replaced, and by nothing, at the end of the stretch too. */
  lemma {:induction false} DroppedBecomesNothing<N(!new)>(s: Session<N>, known: set<N>, turns: seq<Turn<N>>, i: nat)
    requires i < |turns| <= |s.actions| && s.actions[i].verb == Drop && NotBetween(turns, s.actions[i].node)
    requires Sound(s, known) && FreshTurns(known, turns) && AllRunnable(s, turns)
    ensures var n, reps := s.actions[i].node, RunAll(s, turns).replacements;
            n in OldNodes(reps) && Bare(reps, n)
    decreases |turns|
  {
    var front, t := turns[..|turns| - 1], turns[|turns| - 1];
    var r, n := RunAll(s, front), s.actions[i].node;
    LastTurn(s, known, turns);
    if i < |front| {
      DroppedBecomesNothing(s, known, front, i);
      StepLeavesReplaced(r, KnownAfter(known, front), t, n);
    } else {
      DroppedIsBare(r, KnownAfter(known, front), t);
    }
  }

  lemma LastTurn<N>(s: Session<N>, known: set<N>, turns: seq<Turn<N>>)
    requires 0 < |turns| <= |s.actions| && Sound(s, known) && FreshTurns(known, turns) && AllRunnable(s, turns)
    ensures var front := turns[..|turns| - 1];
            && FreshTurns(known, front) && AllRunnable(s, front) && Sound(RunAll(s, front), KnownAfter(known, front))
            && RunAll(s, front).actions == s.actions[|front|..]
            && RunnableWith(RunAll(s, front), turns[|turns| - 1])
  {
    RunAllConsumes(s, turns[..|turns| - 1]);
    assert turns[..|turns|] == turns;
    StretchIsSound(s, known, turns, |turns|, |turns| - 1);
  }

  lemma DroppedIsBare<N(!new)>(s: Session<N>, known: set<N>, t: Turn<N>)
    requires s.actions != [] && Sound(s, known) && s.actions[0].verb == Drop
    ensures var n, reps := s.actions[0].node, RunStep(s, t).replacements; n in OldNodes(reps) && Bare(reps, n)
  {
    assert s.actions[0] in s.actions;
    DropRecords(s, t);
    NoEdgeFrom(s, RunStep(s, t), {s.actions[0].node}, iset{}, s.actions[0].node);
  }

  lemma NothingReached<N(!new)>(g: map<N, set<N>>, n: N, row: seq<N>)
    requires Elements(row) == Sinks(g, n) && forall b :: !Edge(g, n, b)
    ensures row == []
  {
    forall t | Reaches(g, n, t)
      ensures false
    {
      var s := ReachesByFirstEdge(g, n, t);
    }
    NoElements(row);
  }

  /** What the collapse makes of the dropped changesets of a plan that has run: nothing, or temporary nodes. */
  lemma DropsAreGone<N(!new)>(s: Session<N>, known: set<N>, turns: seq<Turn<N>>, mapping: map<N, seq<N>>,
      tmpnodes: set<N>)
    requires |turns| == |s.actions| && Sound(s, known) && FreshTurns(known, turns)
    requires AllRunnable(s.(actions := MarkMultifolds(s.actions)), turns)
    requires var reps := RunAll(s.(actions := MarkMultifolds(s.actions)), turns).replacements;
             && mapping.Keys == OldNodes(reps) - NewNodes(reps) && tmpnodes == OldNodes(reps) * NewNodes(reps)
             && forall x :: x in mapping ==> Elements(mapping[x]) == Sinks(Recorded(reps), x)
    ensures var reps := RunAll(s.(actions := MarkMultifolds(s.actions)), turns).replacements;
            forall a :: a in s.actions && a.verb == Drop && NotBetween(turns, a.node) ==>
              if a.node in NewNodes(reps) then a.node in tmpnodes else a.node in mapping && mapping[a.node] == []
  {
    var start := s.(actions := MarkMultifolds(s.actions));
    var reps := RunAll(start, turns).replacements;
    MarkingKeepsSoundIff(s, known);
    forall a | a in s.actions && a.verb == Drop && NotBetween(turns, a.node)
      ensures if a.node in NewNodes(reps) then a.node in tmpnodes else a.node in mapping && mapping[a.node] == []
    {
      var i :| 0 <= i < |s.actions| && s.actions[i] == a;
      DroppedBecomesNothing(start, known, turns, i);
      if a.node in mapping {
        NothingReached(Recorded(reps), a.node, mapping[a.node]);
      }
    }
  }

  predicate StopsAt<N>(a: Action<N>, t: Turn<N>) {
    a.verb == Edit || t.stops
  }

  /** The session object of the source. `saved` is what the state file holds. */
  class HisteditState<N(==,!new)> {
    var parentctxnode: N
    var topmost: N
    var keep: bool
    var actions: seq<Action<N>>
    var replacements: seq<Replacement<N>>
    var backupfile: Option<string>
    var saved: Session<N>

    function View(): Session<N>
      reads this
    {
      Session(parentctxnode, topmost, keep, actions, replacements, backupfile)
    }

    constructor (s: Session<N>)
      ensures View() == s && saved == s
    {
      parentctxnode, topmost, keep, actions := s.parent, s.topmost, s.keep, s.actions;
      replacements, backupfile, saved := s.replacements, s.backup, s;
    }

    /** The session is sound, and every turn is one that its action may take once the folds are marked. */
    ghost predicate StaysSound(turns: seq<Turn<N>>, known: set<N>)
      reads this
      requires |turns| >= |actions|
    {
      && Sound(View(), known) && FreshTurns(known, turns[..|actions|])
      && AllRunnable(View().(actions := MarkMultifolds(actions)), turns[..|actions|])
    }

    method Write()
      modifies this`saved
      ensures saved == View()
    {
      saved := View();
    }

    /** The `for idx, (action, nextact)` loop: later rules are read before they are marked. */
    method MarkFolds()
      modifies this`actions
      ensures View() == old(View()).(actions := MarkMultifolds(old(actions)))
    {
      var before := actions;
      for i := 0 to |before|
        invariant |actions| == |before|
        invariant forall j :: 0 <= j < i ==> actions[j] == MarkMultifolds(before)[j]
        invariant forall j :: i <= j < |before| ==> actions[j] == before[j]
      {
        if actions[i].verb == Fold && i + 1 < |before| && actions[i + 1].verb == Fold {
          actions := actions[i := actions[i].(verb := MultiFold)];
        }
      }
      assert actions == MarkMultifolds(before);
    }

    method Conclude(parentctx: N, recorded: seq<Replacement<N>>)
      requires actions != []
      modifies this`parentctxnode, this`replacements, this`actions
      ensures View() == Advance(old(View()), (parentctx, recorded))
    {
      parentctxnode := parentctx;
      replacements := replacements + recorded;
      actions := actions[1..];
    }

    /**
     `_continuehistedit`: runs actions until the plan is done or one needs the user. `ran` says
     how many completed; a stopped session has exactly its present state in the state file.
     */
    method ContinueHistedit(turns: seq<Turn<N>>, ghost known: set<N>) returns (ran: nat, stopped: bool)
      requires |turns| >= |actions|
      modifies this
      ensures ran <= |old(actions)|
      ensures View() == RunAll(old(View()).(actions := MarkMultifolds(old(actions))), turns[..ran])
      ensures saved == View()
      ensures forall k :: 0 <= k < ran ==> old(actions)[k].verb != Edit && !turns[k].stops
      ensures stopped ==> ran < |old(actions)| && (old(actions)[ran].verb == Edit || turns[ran].stops)
      ensures !stopped ==> ran == |old(actions)| && actions == []
      ensures old(StaysSound(turns, known)) ==> Sound(View(), KnownAfter(known, turns[..ran]))
    {
      ghost var before, sound := View(), StaysSound(turns, known);
      MarkFolds();
      ghost var start := View();
      Write();
      ran, stopped := RunActions(turns);
      if !stopped {
        Write();
      }
      if sound {
        MarkingKeepsSoundIff(before, known);
        StretchIsSound(start, known, turns, |before.actions|, ran);
      }
    }

    /** The loop over the actions. */
    method RunActions(turns: seq<Turn<N>>) returns (ran: nat, stopped: bool)
      requires |turns| >= |actions|
      modifies this
      ensures ran <= |old(actions)| && View() == RunAll(old(View()), turns[..ran])
      ensures forall k :: 0 <= k < ran ==> !StopsAt(old(actions)[k], turns[k])
      ensures stopped ==> saved == View() && ran < |old(actions)| && StopsAt(old(actions)[ran], turns[ran])
      ensures !stopped ==> ran == |old(actions)| && actions == []
    {
      ghost var start := View();
      ran, stopped := 0, false;
      assert turns[..0] == [];
      while actions != []
        invariant ran <= |start.actions| && !stopped
        invariant View() == RunAll(start, turns[..ran])
        invariant actions == start.actions[ran..]
        invariant forall k :: 0 <= k < ran ==> !StopsAt(start.actions[k], turns[k])
        decreases |actions|
      {
        Write();
        var a, t := actions[0], turns[ran];
        assert a == start.actions[ran];
        if StopsAt(a, t) {
          return ran, true;
        }
        var r := RunAction(a, parentctxnode, t);
        Conclude(r.0, r.1);
        assert turns[..ran + 1][..ran] == turns[..ran];
        ran := ran + 1;
      }
    }

    /** `bootstrapcontinue` */
    method BootstrapContinue(wc: WorkingCopy<N>, folded: N, ghost known: set<N>)
      modifies this
      ensures View() == ResumeStep(old(View()), wc, folded) && saved == old(saved)
      ensures old(actions != [] && Sound(View(), known)) && FreshFold(known, wc, folded) ==>
                (Sound(View(), NowKnown(known, wc, folded)) <==> old(ResumableAt(View(), wc)))
    {
      if actions != [] && Sound(View(), known) && FreshFold(known, wc, folded) {
        ResumeKeepsSoundIff(View(), known, wc, folded);
      }
      if actions != [] {
        var r := ContinueClean(actions[0], parentctxnode, wc, folded);
        Conclude(r.0, r.1);
      }
    }

    /**
     `_finishhistedit`: the commit the working copy is updated to is neither a temporary
     commit nor one that was rewritten, so cleaning those up cannot take it away.
     */
    method Finish(repo: Changelog<N>, ghost known: set<N>)
      returns (mapping: map<N, seq<N>>, tmpnodes: set<N>, created: set<N>, newtopmost: Option<N>)
      requires Sound(View(), known)
      requires NewNodes(replacements) - OldNodes(replacements) <= repo.rev.Keys
      requires OldNodes(replacements) - NewNodes(replacements) <= repo.rev.Keys
      requires OldNodes(replacements) - NewNodes(replacements) <= repo.p1.Keys
      ensures parentctxnode !in mapping && parentctxnode !in tmpnodes
      ensures forall x :: x in mapping ==> Elements(mapping[x]) == Sinks(Recorded(replacements), x)
      ensures mapping.Keys == OldNodes(replacements) - NewNodes(replacements)
      ensures tmpnodes == OldNodes(replacements) * NewNodes(replacements)
    {
      OrderedIsAcyclic(replacements);
      mapping, tmpnodes, created, newtopmost := ProcessReplacement(replacements, repo);
    }

    /** What both a new session and a continued one end with: the rest of the plan, and the collapse. */
    method ContinueAndFinish(turns: seq<Turn<N>>, repo: Changelog<N>, ghost known: set<N>)
      returns (ran: nat, stopped: bool, mapping: map<N, seq<N>>, tmpnodes: set<N>)
      requires |turns| >= |actions| && StaysSound(turns, known)
      requires KnownAfter(known, turns[..|actions|]) <= repo.rev.Keys * repo.p1.Keys
      modifies this
      ensures ran <= |old(actions)| && Sound(View(), KnownAfter(known, turns[..ran]))
      ensures !stopped ==> actions == [] && parentctxnode !in mapping && parentctxnode !in tmpnodes
      ensures !stopped ==> forall x :: x in mapping ==> Elements(mapping[x]) == Sinks(Recorded(replacements), x)
      ensures !stopped ==> mapping.Keys == OldNodes(replacements) - NewNodes(replacements)
      ensures !stopped ==> tmpnodes == OldNodes(replacements) * NewNodes(replacements)
      ensures !stopped ==> forall a :: a in old(actions) && a.verb == Drop && NotBetween(turns, a.node) ==>
                if a.node in NewNodes(replacements) then a.node in tmpnodes
                else a.node in mapping && mapping[a.node] == []
    {
      ghost var before := View();
      mapping, tmpnodes := map[], {};
      ran, stopped := ContinueHistedit(turns, known);
      if !stopped {
        var created, newtopmost;
        mapping, tmpnodes, created, newtopmost := Finish(repo, KnownAfter(known, turns[..ran]));
        DropsAreGone(before, known, turns[..ran], mapping, tmpnodes);
      }
    }
  }
}
