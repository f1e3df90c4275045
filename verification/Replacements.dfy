/**
 The replacements histedit records while it runs, and what it makes of them when it
 finishes: `processreplacement` and `adjustreplacementsfrommarkers`.
 */
module Replacements {
  import opened Digraph
  import opened Lists

  /** One recorded edge bundle: `prec` was rewritten into `succs`, dropped if there are none. */
  datatype Replacement<N> = Replacement(prec: N, succs: seq<N>)

  ghost function OldNodes<N>(reps: seq<Replacement<N>>): set<N> {
    set r | r in reps :: r.prec
  }

  ghost function NewNodes<N>(reps: seq<Replacement<N>>): set<N> {
    set r, s | r in reps && s in r.succs :: s
  }

  /** Everything recorded, as a graph: a replaced node leads to all its recorded successors. */
  ghost function Recorded<N>(reps: seq<Replacement<N>>): map<N, set<N>> {
    map x | x in OldNodes(reps) :: set r, s | r in reps && r.prec == x && s in r.succs :: s
  }

  lemma RecordedTargets<N>(reps: seq<Replacement<N>>)
    ensures Recorded(reps).Keys == OldNodes(reps)
    ensures Targets(Recorded(reps)) == NewNodes(reps)
  {
    var g := Recorded(reps);
    forall r, s | r in reps && s in r.succs
      ensures s in Targets(g)
    {
      assert r.prec in g && s in g[r.prec];
    }
  }

  // ---------------------------------------------------------------------------------------
  // The closure loop

  /** What a row that is still being rewritten has in common with the recorded graph. */
  ghost predicate RowOk<N(!new)>(g: map<N, set<N>>, x: N, row: set<N>)
    requires x in g
  {
    && (forall s :: s in row && s in g ==> s in g[x])
    && (forall t :: t !in g ==>
          (t in Sinks(g, x) <==> t in row || exists s :: s in row && s in g && t in Sinks(g, s)))
  }

  lemma InitialRowOk<N(!new)>(g: map<N, set<N>>, x: N)
    requires x in g
    ensures RowOk(g, x, g[x])
  {
    forall t | t !in g
      ensures t in Sinks(g, x) <==> t in g[x] || exists s :: s in g[x] && s in g && t in Sinks(g, s)
    {
      SinksBySuccessor(g, x, t);
      forall s | s in g[x] && t in Sinks(g, s)
        ensures s in g
      {
        ReachesTargets(g, s, t);
      }
    }
  }

  lemma ExpandedRowOk<N(!new)>(g: map<N, set<N>>, x: N, row: set<N>, s: N)
    requires x in g && RowOk(g, x, row) && s in row && s in g
    ensures RowOk(g, x, row - {s} + Sinks(g, s))
  {
    var row' := row - {s} + Sinks(g, s);
    forall t | t !in g
      ensures t in Sinks(g, x) <==> t in row' || exists u :: u in row' && u in g && t in Sinks(g, u)
    {
      if t in Sinks(g, x) && t !in row {
        var u :| u in row && u in g && t in Sinks(g, u);
        assert u == s || u in row';
      }
      if u :| u in row' && u in g && t in Sinks(g, u) {
        assert u in row;
      }
    }
  }

  lemma FinishedRow<N(!new)>(g: map<N, set<N>>, x: N, row: set<N>)
    requires x in g && RowOk(g, x, row) && row !! g.Keys
    ensures row == Sinks(g, x)
  {
    forall t
      ensures t in row <==> t in Sinks(g, x)
    {
      if t in g {
      } else {
        assert t in Sinks(g, x) <==> t in row || exists s :: s in row && s in g && t in Sinks(g, s);
      }
    }
  }

  /**
   The body of the `for x in list(toproceed)` loop: rewrite the row of `x` in place until a
   successor turns up that is still to be processed.
   */
  method RewriteRow<N(==,!new)>(ghost g: map<N, set<N>>, x: N, row: set<N>, toproceed: set<N>, final: map<N, set<N>>)
    returns (succs: set<N>, finished: bool)
    requires x in g && RowOk(g, x, row)
    requires toproceed + final.Keys == g.Keys && toproceed !! final.Keys
    requires forall k :: k in final ==> final[k] == Sinks(g, k)
    ensures RowOk(g, x, succs)
    ensures finished ==> succs == Sinks(g, x)
    ensures finished <==> !Meet(row, toproceed)
    ensures !finished ==> Meet(g[x], toproceed)
    ensures forall s :: s in row && s in toproceed ==> s in succs
  {
    succs := row;
    var rest := row;
    while rest != {}
      invariant RowOk(g, x, succs)
      invariant forall s :: s in succs && s in g ==> s in rest
      invariant forall s :: s in rest ==> s in succs && s in row
      invariant forall s :: s in row && s in toproceed ==> s in rest && s in succs
    {
      var s :| s in rest;
      if s in toproceed {
        return succs, false;
      } else if s in final {
        ExpandedRowOk(g, x, succs, s);
        succs := succs - {s} + final[s];
      }
      rest := rest - {s};
    }
    FinishedRow(g, x, succs);
    finished := true;
  }

  /** The loop state: unfinished rows are sound, finished rows are closures. */
  ghost predicate Closing<N(!new)>(g: map<N, set<N>>, rows: map<N, set<N>>, toproceed: set<N>, final: map<N, set<N>>) {
    && rows.Keys == g.Keys
    && toproceed + final.Keys == g.Keys
    && toproceed !! final.Keys
    && (forall x :: x in toproceed ==> RowOk(g, x, rows[x]))
    && (forall x :: x in final ==> final[x] == Sinks(g, x))
  }

  /** A set of keys whose rows all lead back into the set, as the keys on a cycle do. */
  ghost predicate Stuck<N>(rows: map<N, set<N>>, knot: set<N>) {
    knot <= rows.Keys && forall x {:trigger Meet(rows[x], knot)} :: x in knot ==> Meet(rows[x], knot)
  }

  /** The graph is acyclic exactly if only the empty set of keys is stuck in it. */
  lemma AcyclicIffNothingStuck<N(!new)>(g: map<N, set<N>>)
    ensures Acyclic(g) <==> forall knot :: Stuck(g, knot) ==> knot == {}
  {
    if Acyclic(g) {
      forall knot | Stuck(g, knot)
        ensures knot == {}
      {
        if knot != {} {
          var x := LowestKey(g, knot);
          assert false;
        }
      }
    }
    if x :| x in g && Reaches(g, x, x) {
      var knot := set k | k in g && Reaches(g, x, k) && Reaches(g, k, x);
      forall k | k in knot
        ensures Meet(g[k], knot)
      {
        var s := ReachesByFirstEdge(g, k, x);
        EdgeReaches(g, k, s);
        ReachesTransitive(g, x, k, s);
        if s != x {
          ReachesTargets(g, s, x);
        }
        assert s in knot;
      }
      assert Stuck(g, knot) && x in knot;
    }
  }

  lemma StuckAfterRewrite<N>(rows: map<N, set<N>>, knot: set<N>, toproceed: set<N>, x: N, succs: set<N>)
    requires Stuck(rows, knot) && knot <= toproceed
    requires x in rows && forall s :: s in rows[x] && s in toproceed ==> s in succs
    ensures Stuck(rows[x := succs], knot)
    ensures x in knot ==> Meet(rows[x], toproceed)
  {
    var rows' := rows[x := succs];
    forall k | k in knot
      ensures k in rows' && Meet(rows'[k], knot)
    {
      assert Meet(rows[k], knot);
      var s :| s in rows[k] && s in knot;
      assert s in rows'[k];
    }
    if x in knot {
      assert Meet(rows[x], knot);
      var s :| s in rows[x] && s in knot;
      assert s in toproceed;
    }
  }

  lemma ClosingAfterRewrite<N(!new)>(g: map<N, set<N>>, rows: map<N, set<N>>, toproceed: set<N>,
                                     final: map<N, set<N>>, x: N, succs: set<N>, finished: bool)
    requires Closing(g, rows, toproceed, final) && x in toproceed
    requires RowOk(g, x, succs) && (finished ==> succs == Sinks(g, x))
    ensures Closing(g, rows[x := succs], if finished then toproceed - {x} else toproceed,
                    if finished then final[x := succs] else final)
  {
  }

  /**
   One `for x in list(toproceed)` pass, whatever the order of its visits. It finishes every
   key without an edge into `toproceed`, and it never finishes a key that is stuck.
   */
  method ClosePass<N(==,!new)>(ghost g: map<N, set<N>>, ghost lowest: N, ghost knot: set<N>,
                               rows: map<N, set<N>>, toproceed: set<N>, final: map<N, set<N>>)
    returns (rows': map<N, set<N>>, toproceed': set<N>, final': map<N, set<N>>)
    requires Closing(g, rows, toproceed, final)
    requires lowest in toproceed
    requires knot <= toproceed && Stuck(rows, knot)
    ensures Closing(g, rows', toproceed', final')
    ensures toproceed' <= toproceed
    ensures !Meet(g[lowest], toproceed) ==> lowest !in toproceed'
    ensures knot <= toproceed' && Stuck(rows', knot)
  {
    rows', toproceed', final' := rows, toproceed, final;
    var visit := toproceed;
    while visit != {}
      invariant visit <= toproceed' <= toproceed
      invariant !Meet(g[lowest], toproceed) ==> lowest in visit || lowest !in toproceed'
      invariant Closing(g, rows', toproceed', final')
      invariant knot <= toproceed' && Stuck(rows', knot)
    {
      var x :| x in visit;
      var succs, finished := RewriteRow(g, x, rows'[x], toproceed', final');
      StuckAfterRewrite(rows', knot, toproceed', x, succs);
      ClosingAfterRewrite(g, rows', toproceed', final', x, succs, finished);
      rows' := rows'[x := succs];
      if finished {
        final' := final'[x := succs];
        toproceed' := toproceed' - {x};
      }
      visit := visit - {x};
    }
  }

  /** The fixpoint loop. The order in which it visits keys and successors is left open. */
  method CloseMapping<N(==,!new)>(recorded: map<N, set<N>>) returns (final: map<N, set<N>>)
    requires Acyclic(recorded)
    ensures final.Keys == recorded.Keys
    ensures forall x :: x in final ==> final[x] == Sinks(recorded, x)
  {
    var fullmapping := recorded;
    var toproceed := recorded.Keys;
    final := map[];
    forall x | x in recorded
      ensures RowOk(recorded, x, recorded[x])
    {
      InitialRowOk(recorded, x);
    }
    while toproceed != {}
      invariant Closing(recorded, fullmapping, toproceed, final)
      decreases toproceed
    {
      ghost var lowest := LowestKey(recorded, toproceed);
      fullmapping, toproceed, final := ClosePass(recorded, lowest, {}, fullmapping, toproceed, final);
    }
  }

  // ---------------------------------------------------------------------------------------
  // The whole of processreplacement

  /** The part of the changelog that is looked at: revision numbers and first parents. */
  datatype Changelog<N> = Changelog(rev: map<N, int>, p1: map<N, N>)

  ghost predicate SortedBy<N>(rev: map<N, int>, s: seq<N>) {
    && (forall n :: n in s ==> n in rev)
    && (forall i, j :: 0 <= i < j < |s| ==> rev[s[i]] <= rev[s[j]])
  }

  /** `sorted(nodes, key=rev)`, as a selection sort. */
  method SortByRev<N(==)>(nodes: set<N>, rev: map<N, int>) returns (sorted: seq<N>)
    requires nodes <= rev.Keys
    ensures Elements(sorted) == nodes && Distinct(sorted) && SortedBy(rev, sorted)
  {
    sorted := [];
    var rest := nodes;
    while rest != {}
      invariant Elements(sorted) + rest == nodes && Elements(sorted) !! rest
      invariant Distinct(sorted) && SortedBy(rev, sorted)
      invariant forall n, m :: n in sorted && m in rest ==> rev[n] <= rev[m]
    {
      var least :| least in rest;
      var others := rest - {least};
      while others != {}
        invariant least in rest && others <= rest
        invariant forall m :: m in rest ==> m in others || rev[least] <= rev[m]
      {
        var m :| m in others;
        if rev[m] < rev[least] {
          least := m;
        }
        others := others - {m};
      }
      assert least !in Elements(sorted);
      sorted, rest := sorted + [least], rest - {least};
    }
  }

  lemma RecordedExtends<N>(reps: seq<Replacement<N>>, r: Replacement<N>)
    ensures OldNodes(reps + [r]) == OldNodes(reps) + {r.prec}
    ensures NewNodes(reps + [r]) == NewNodes(reps) + Elements(r.succs)
    ensures Recorded(reps + [r])
         == Recorded(reps)[r.prec :=
                           (if r.prec in Recorded(reps) then Recorded(reps)[r.prec] else {}) + Elements(r.succs)]
  {
    var all := reps + [r];
    assert forall q :: q in all <==> q in reps || q == r;
    var before, after := Recorded(reps), Recorded(all);
    var row := (if r.prec in before then before[r.prec] else {}) + Elements(r.succs);
    forall x
      ensures x in after <==> x in before || x == r.prec
      ensures x in after ==> after[x] == if x == r.prec then row else before[x]
    {
      RowExtends(reps, r, x);
    }
  }

  lemma RowExtends<N>(reps: seq<Replacement<N>>, r: Replacement<N>, x: N)
    ensures x in Recorded(reps + [r]) <==> x in Recorded(reps) || x == r.prec
    ensures x in Recorded(reps + [r]) ==>
              Recorded(reps + [r])[x] ==
              (if x in Recorded(reps) then Recorded(reps)[x] else {}) + if x == r.prec then Elements(r.succs) else {}
  {
    assert forall q :: q in reps + [r] <==> q in reps || q == r;
  }

  /** The three collections built from the recorded list before anything is closed. */
  method CollectReplacements<N(==,!new)>(reps: seq<Replacement<N>>)
    returns (allsuccs: set<N>, replaced: set<N>, fullmapping: map<N, set<N>>)
    ensures allsuccs == NewNodes(reps) && replaced == OldNodes(reps) && fullmapping == Recorded(reps)
  {
    allsuccs, replaced, fullmapping := {}, {}, map[];
    for i := 0 to |reps|
      invariant allsuccs == NewNodes(reps[..i]) && replaced == OldNodes(reps[..i])
      invariant fullmapping == Recorded(reps[..i])
    {
      var rep := reps[i];
      RecordedExtends(reps[..i], rep);
      assert reps[..i + 1] == reps[..i] + [rep];
      var succs := set s | s in rep.succs;
      allsuccs := allsuccs + succs;
      replaced := replaced + {rep.prec};
      var row := if rep.prec in fullmapping then fullmapping[rep.prec] else {};
      fullmapping := fullmapping[rep.prec := row + succs];
    }
    assert reps[..|reps|] == reps;
  }

  /** The nodes left out of the result are temporary; those it ends in are exactly the new ones. */
  lemma CreatedNodesAreTheSinks<N(!new)>(reps: seq<Replacement<N>>, n: N)
    requires Acyclic(Recorded(reps))
    ensures n in NewNodes(reps) - OldNodes(reps)
       <==> exists x :: x in OldNodes(reps) - NewNodes(reps) && n in Sinks(Recorded(reps), x)
  {
    RecordedTargets(reps);
    if n in NewNodes(reps) - OldNodes(reps) {
      var root := RootAbove(Recorded(reps), n);
      assert n in Sinks(Recorded(reps), root);
    }
  }

  lemma SinksAreCreated<N(!new)>(reps: seq<Replacement<N>>)
    ensures forall x :: x in OldNodes(reps) ==> Sinks(Recorded(reps), x) <= NewNodes(reps) - OldNodes(reps)
  {
    RecordedTargets(reps);
  }

  lemma MappingEndsInCreated<N(!new)>(reps: seq<Replacement<N>>, mapping: map<N, seq<N>>)
    requires Acyclic(Recorded(reps))
    requires mapping.Keys == OldNodes(reps) - NewNodes(reps)
    requires forall x :: x in mapping ==> Elements(mapping[x]) == Sinks(Recorded(reps), x)
    ensures forall n :: n in NewNodes(reps) - OldNodes(reps) <==> exists x :: x in mapping && n in mapping[x]
  {
    forall n
      ensures n in NewNodes(reps) - OldNodes(reps) <==> exists x :: x in mapping && n in mapping[x]
    {
      CreatedNodesAreTheSinks(reps, n);
      assert forall x :: x in mapping ==> (n in mapping[x] <==> n in Elements(mapping[x]));
    }
  }

  /** The node bookmarks move to: the newest created one, or the parent of the oldest dropped one. */
  ghost predicate IsNewTopmost<N>(repo: Changelog<N>, created: set<N>, gone: set<N>, top: Option<N>)
    requires created <= repo.rev.Keys && gone <= repo.rev.Keys && gone <= repo.p1.Keys
  {
    if created != {} then
      top.Some? && top.value in created && forall n :: n in created ==> repo.rev[n] <= repo.rev[top.value]
    else if gone != {} then
      exists x :: x in gone && (forall y :: y in gone ==> repo.rev[x] <= repo.rev[y]) && top == Some(repo.p1[x])
    else
      top == None
  }

  /** Deletes the temporary nodes, each of which is a key, and turns every row into a sorted list. */
  method DropAndSort<N(==)>(closed: map<N, set<N>>, tmpnodes: set<N>, rev: map<N, int>)
    returns (mapping: map<N, seq<N>>)
    requires tmpnodes <= closed.Keys
    requires forall x :: x in closed && x !in tmpnodes ==> closed[x] <= rev.Keys
    ensures mapping.Keys == closed.Keys - tmpnodes
    ensures forall x :: x in mapping ==>
              Elements(mapping[x]) == closed[x] && Distinct(mapping[x]) && SortedBy(rev, mapping[x])
  {
    var final := closed;
    var rest := tmpnodes;
    while rest != {}
      invariant rest <= tmpnodes
      invariant final == closed - (tmpnodes - rest)
    {
      var n :| n in rest;
      assert n in final;
      final := final - {n};
      rest := rest - {n};
    }
    mapping := map[];
    rest := final.Keys;
    while rest != {}
      invariant mapping.Keys + rest == final.Keys && mapping.Keys !! rest
      invariant forall x :: x in mapping ==>
                  Elements(mapping[x]) == closed[x] && Distinct(mapping[x]) && SortedBy(rev, mapping[x])
    {
      var x :| x in rest;
      var succs := SortByRev(final[x], rev);
      mapping := mapping[x := succs];
      rest := rest - {x};
    }
  }

  method NewTopmost<N(==)>(repo: Changelog<N>, created: set<N>, gone: set<N>) returns (top: Option<N>)
    requires created <= repo.rev.Keys && gone <= repo.rev.Keys && gone <= repo.p1.Keys
    ensures IsNewTopmost(repo, created, gone, top)
  {
    if created != {} {
      var byRev := SortByRev(created, repo.rev);
      assert forall n :: n in created ==> n in Elements(byRev);
      top := Some(byRev[|byRev| - 1]);
    } else if gone == {} {
      top := None;
    } else {
      var byRev := SortByRev(gone, repo.rev);
      assert forall n :: n in gone ==> n in Elements(byRev);
      assert byRev[0] in Elements(byRev);
      top := Some(repo.p1[byRev[0]]);
    }
  }

  method ProcessReplacement<N(==,!new)>(reps: seq<Replacement<N>>, repo: Changelog<N>)
    returns (mapping: map<N, seq<N>>, tmpnodes: set<N>, created: set<N>, newtopmost: Option<N>)
    requires Acyclic(Recorded(reps))
    requires NewNodes(reps) - OldNodes(reps) <= repo.rev.Keys
    requires OldNodes(reps) - NewNodes(reps) <= repo.rev.Keys
    requires OldNodes(reps) - NewNodes(reps) <= repo.p1.Keys
    ensures tmpnodes == OldNodes(reps) * NewNodes(reps)
    ensures created == NewNodes(reps) - OldNodes(reps)
    ensures mapping.Keys == OldNodes(reps) - NewNodes(reps)
    ensures forall x :: x in mapping ==>
              && Elements(mapping[x]) == Sinks(Recorded(reps), x)
              && Distinct(mapping[x])
              && SortedBy(repo.rev, mapping[x])
    ensures forall n :: n in created <==> exists x :: x in mapping && n in mapping[x]
    ensures IsNewTopmost(repo, created, mapping.Keys, newtopmost)
  {
    var allsuccs, replaced, fullmapping := CollectReplacements(reps);
    RecordedTargets(reps);
    created := allsuccs - replaced;
    tmpnodes := allsuccs * replaced;
    var final := CloseMapping(fullmapping);
    SinksAreCreated(reps);
    mapping := DropAndSort(final, tmpnodes, repo.rev);
    MappingEndsInCreated(reps, mapping);
    assert mapping.Keys == OldNodes(reps) - NewNodes(reps);
    newtopmost := NewTopmost(repo, created, mapping.Keys);
  }

  // ---------------------------------------------------------------------------------------
  // Replacements that are only known from obsolescence markers

  /** The markers of a repository, by node: each lists the successors it records. */
  type Markers<N(==)> = map<N, seq<seq<N>>>

  function MarkersOf<N(==)>(markers: Markers<N>, n: N): seq<seq<N>> {
    if n in markers then markers[n] else []
  }

  ghost function MarkerGraph<N>(markers: Markers<N>): map<N, set<N>> {
    map n | n in markers :: set m, s | m in markers[n] && s in m :: s
  }

  ghost function ReachableFrom<N(!new)>(g: map<N, set<N>>, seeds: set<N>): set<N> {
    seeds + set n | n in Targets(g) && exists s :: s in seeds && Reaches(g, s, n)
  }

  /** What one visited node adds: an edge bundle a marker, or a dead end if it is unknown and unmarked. */
  ghost function EntriesOf<N>(known: set<N>, markers: Markers<N>, n: N): seq<Replacement<N>> {
    (if n !in known && MarkersOf(markers, n) == [] then [Replacement(n, [])] else [])
    + Bundles(n, MarkersOf(markers, n))
  }

  ghost function Bundles<N>(n: N, ms: seq<seq<N>>): seq<Replacement<N>> {
    seq(|ms|, i requires 0 <= i < |ms| => Replacement(n, ms[i]))
  }

  ghost function EntriesOfAll<N>(known: set<N>, markers: Markers<N>, order: seq<N>): seq<Replacement<N>> {
    if order == [] then []
    else EntriesOfAll(known, markers, order[..|order| - 1]) + EntriesOf(known, markers, order[|order| - 1])
  }

  lemma ClosedSetHoldsReachable<N(!new)>(g: map<N, set<N>>, seeds: set<N>, closed: set<N>)
    requires seeds <= closed && forall n, s :: n in closed && Edge(g, n, s) ==> s in closed
    ensures ReachableFrom(g, seeds) <= closed
  {
    forall s, n | s in seeds && Reaches(g, s, n)
      ensures n in closed
    {
      var p :| Joins(g, p, s, n);
      for i := 0 to |p| - 1
        invariant p[i] in closed
      {
        assert Edge(g, p[i], p[i + 1]);
      }
    }
  }

  lemma ReachableStep<N(!new)>(g: map<N, set<N>>, seeds: set<N>, n: N, s: N)
    requires n in ReachableFrom(g, seeds) && Edge(g, n, s)
    ensures s in ReachableFrom(g, seeds)
  {
    EdgeReaches(g, n, s);
    ReachesTargets(g, n, s);
    if n !in seeds {
      var seed :| seed in seeds && Reaches(g, seed, n);
      ReachesTransitive(g, seed, n, s);
    }
  }

  /** Adds the successors of one marker to the worklist, each at most once. */
  method PushUnseen<N(==)>(nsuccs: seq<N>, seen: set<N>, stack: seq<N>) returns (seen': set<N>, stack': seq<N>)
    ensures seen' == seen + Elements(nsuccs)
    ensures exists pushed: seq<N> ::
            stack' == stack + pushed && Distinct(pushed) && Elements(pushed) == Elements(nsuccs) - seen
  {
    seen', stack' := seen, stack;
    ghost var pushed := [];
    for i := 0 to |nsuccs|
      invariant seen' == seen + Elements(nsuccs[..i])
      invariant stack' == stack + pushed && Distinct(pushed) && Elements(pushed) == seen' - seen
    {
      assert nsuccs[..i + 1] == nsuccs[..i] + [nsuccs[i]];
      ElementsConcat(nsuccs[..i], [nsuccs[i]]);
      ElementsConcat(pushed, [nsuccs[i]]);
      if nsuccs[i] !in seen' {
        assert nsuccs[i] !in Elements(pushed);
        seen', stack', pushed := seen' + {nsuccs[i]}, stack' + [nsuccs[i]], pushed + [nsuccs[i]];
      }
    }
    assert nsuccs[..|nsuccs|] == nsuccs;
    assert Elements(pushed) == Elements(nsuccs) - seen;
  }

  ghost predicate Worklist<N>(seen: set<N>, order: seq<N>, stack: seq<N>) {
    Distinct(order + stack) && Elements(order + stack) == seen
  }

  method VisitMarkers<N(==)>(n: N, ms: seq<seq<N>>, reps: seq<Replacement<N>>, seen: set<N>, ghost order: seq<N>,
      stack: seq<N>)
    returns (reps': seq<Replacement<N>>, seen': set<N>, stack': seq<N>)
    requires Worklist(seen, order, stack)
    ensures reps' == reps + Bundles(n, ms)
    ensures seen' == seen + set m, s | m in ms && s in m :: s
    ensures Worklist(seen', order, stack')
    ensures seen' == seen ==> stack' == stack
  {
    reps', seen', stack' := reps, seen, stack;
    for i := 0 to |ms|
      invariant reps' == reps + Bundles(n, ms[..i])
      invariant seen' == seen + set m, s | m in ms[..i] && s in m :: s
      invariant Worklist(seen', order, stack')
      invariant |stack'| >= |stack| && stack'[..|stack|] == stack
      invariant seen' == seen ==> stack' == stack
    {
      ghost var before, seenBefore := stack', seen';
      reps' := reps' + [Replacement(n, ms[i])];
      seen', stack' := PushUnseen(ms[i], seen', stack');
      PushedKeepsWorklist(seenBefore, order, before, Elements(ms[i]), stack');
      assert ms[..i + 1] == ms[..i] + [ms[i]];
    }
    assert ms[..|ms|] == ms;
  }

  lemma PushedKeepsWorklist<N>(seen: set<N>, order: seq<N>, stack: seq<N>, more: set<N>, stack': seq<N>)
    requires Worklist(seen, order, stack)
    requires exists pushed: seq<N> :: stack' == stack + pushed && Distinct(pushed) && Elements(pushed) == more - seen
    ensures Worklist(seen + more, order, stack')
    ensures more <= seen ==> stack' == stack
  {
    var pushed: seq<N> :| stack' == stack + pushed && Distinct(pushed) && Elements(pushed) == more - seen;
    assert order + stack' == (order + stack) + pushed;
    ElementsConcat(order + stack, pushed);
    DistinctConcat(order + stack, pushed);
    NoElements(pushed);
  }

  lemma PoppedKeepsWorklist<N>(seen: set<N>, order: seq<N>, stack: seq<N>, n: N)
    requires Worklist(seen, order, stack + [n])
    ensures Worklist(seen, order + [n], stack)
  {
    DistinctParts(order, stack + [n]);
    DistinctParts(stack, [n]);
    ElementsConcat(order, stack + [n]);
    ElementsConcat(stack, [n]);
    ElementsConcat(order, [n]);
    ElementsConcat(order + [n], stack);
    DistinctConcat(order, [n]);
    DistinctConcat(order + [n], stack);
  }

  ghost predicate Visiting<N(!new)>(g: map<N, set<N>>, seeds: set<N>, seen: set<N>, order: seq<N>, stack: seq<N>) {
    && Worklist(seen, order, stack)
    && seeds <= seen <= ReachableFrom(g, seeds)
    && (forall n, s :: n in order && Edge(g, n, s) ==> s in seen)
  }

  lemma VisitedNode<N(!new)>(markers: Markers<N>, seeds: set<N>, seen: set<N>, order: seq<N>, n: N,
                             seen': set<N>, stack': seq<N>)
    requires seeds <= seen <= ReachableFrom(MarkerGraph(markers), seeds)
    requires forall m, s :: m in order && Edge(MarkerGraph(markers), m, s) ==> s in seen
    requires n in seen
    requires Worklist(seen', order + [n], stack')
    requires seen' == seen + set m, s | m in MarkersOf(markers, n) && s in m :: s
    ensures Visiting(MarkerGraph(markers), seeds, seen', order + [n], stack')
  {
    var g := MarkerGraph(markers);
    forall s | s in seen' && s !in seen
      ensures s in ReachableFrom(g, seeds)
    {
      assert Edge(g, n, s);
      ReachableStep(g, seeds, n, s);
    }
  }

  /** The body of the worklist loop: pop a node and record what its markers say. */
  method PopNode<N(==,!new)>(reps: seq<Replacement<N>>, known: set<N>, markers: Markers<N>,
                             ghost seeds: set<N>, seen: set<N>, ghost order: seq<N>, stack: seq<N>)
    returns (n: N, reps': seq<Replacement<N>>, seen': set<N>, stack': seq<N>)
    requires stack != [] && Visiting(MarkerGraph(markers), seeds, seen, order, stack)
    ensures Visiting(MarkerGraph(markers), seeds, seen', order + [n], stack')
    ensures reps' == reps + EntriesOf(known, markers, n)
    ensures seen <= seen' && (seen' == seen ==> |stack'| < |stack|)
  {
    n := stack[|stack| - 1];
    var rest := stack[..|stack| - 1];
    assert stack == rest + [n];
    PoppedKeepsWorklist(seen, order, rest, n);
    reps' := reps;
    if n !in known && MarkersOf(markers, n) == [] {
      reps' := reps' + [Replacement(n, [])];
    }
    reps', seen', stack' := VisitMarkers(n, MarkersOf(markers, n), reps', seen, order + [n], rest);
    ElementsConcat(order, stack);
    assert n in Elements(stack);
    VisitedNode(markers, seeds, seen, order, n, seen', stack');
  }

  lemma OneMoreEntry<N(!new)>(reps: seq<Replacement<N>>, known: set<N>, markers: Markers<N>, order: seq<N>, n: N)
    ensures (reps + EntriesOfAll(known, markers, order)) + EntriesOf(known, markers, n)
         == reps + EntriesOfAll(known, markers, order + [n])
  {
    assert (order + [n])[..|order|] == order;
  }

  lemma {:induction false} EntriesListed<N(!new)>(known: set<N>, markers: Markers<N>, order: seq<N>, r: Replacement<N>)
    ensures r in EntriesOfAll(known, markers, order) <==> exists n :: n in order && r in EntriesOf(known, markers, n)
  {
    if order != [] {
      EntriesListed(known, markers, order[..|order| - 1], r);
      assert order == order[..|order| - 1] + [order[|order| - 1]];
    }
  }

  /** A node that was popped is known, or replaced by the entries it adds. */
  lemma PoppedIsKnownOrReplaced<N(!new)>(known: set<N>, markers: Markers<N>, order: seq<N>, n: N)
    requires n in order
    ensures n in known || n in OldNodes(EntriesOfAll(known, markers, order))
  {
    if n !in known {
      var ms := MarkersOf(markers, n);
      var r := if ms == [] then Replacement(n, []) else Replacement(n, ms[0]);
      assert r in EntriesOf(known, markers, n) by {
        assert EntriesOf(known, markers, n)[0] == r;
      }
      EntriesListed(known, markers, order, r);
    }
  }

  lemma EntryTargets<N(!new)>(known: set<N>, markers: Markers<N>, order: seq<N>, n: N)
    requires n in NewNodes(EntriesOfAll(known, markers, order))
    ensures exists k :: k in order && Edge(MarkerGraph(markers), k, n)
  {
    var r :| r in EntriesOfAll(known, markers, order) && n in r.succs;
    EntriesListed(known, markers, order, r);
    var k :| k in order && r in EntriesOf(known, markers, k);
    assert r in Bundles(k, MarkersOf(markers, k));
    assert Edge(MarkerGraph(markers), k, n);
  }

  /** No replacement of the adjusted list ends in a node that the repository does not know. */
  lemma CreatedAreKnown<N(!new)>(reps: seq<Replacement<N>>, known: set<N>, markers: Markers<N>, order: seq<N>)
    requires Elements(order) == ReachableFrom(MarkerGraph(markers), NewNodes(reps))
    ensures var adjusted := reps + EntriesOfAll(known, markers, order);
            NewNodes(adjusted) - OldNodes(adjusted) <= known
  {
    var more := EntriesOfAll(known, markers, order);
    assert forall r :: r in reps + more <==> r in reps || r in more;
    forall n | n in NewNodes(reps + more)
      ensures n in known || n in OldNodes(reps + more)
    {
      if n !in NewNodes(reps) {
        EntryTargets(known, markers, order, n);
        var k :| k in order && Edge(MarkerGraph(markers), k, n);
        assert k in Elements(order);
        ReachableStep(MarkerGraph(markers), NewNodes(reps), k, n);
      }
      assert n in Elements(order);
      PoppedIsKnownOrReplaced(known, markers, order, n);
    }
  }

  /**
   What adjusting means. A node that the recorded successors lead to counts as replaced if it has a
   marker or is missing, by all that its markers say and nothing else; all other nodes are as before.
   */
  ghost predicate AdjustedBy<N(!new)>(reps: seq<Replacement<N>>, known: set<N>, markers: Markers<N>,
                                      adjusted: seq<Replacement<N>>)
  {
    var visited := ReachableFrom(MarkerGraph(markers), NewNodes(reps));
    && reps <= adjusted
    && (forall n :: n in OldNodes(adjusted) <==>
          n in OldNodes(reps) || (n in visited && (n !in known || (n in markers && markers[n] != []))))
    && (forall n, s :: Edge(Recorded(adjusted), n, s) <==>
          Edge(Recorded(reps), n, s) || (n in visited && exists m :: n in markers && m in markers[n] && s in m))
  }

  lemma EntriesAdjust<N(!new)>(reps: seq<Replacement<N>>, known: set<N>, markers: Markers<N>, order: seq<N>)
    requires Elements(order) == ReachableFrom(MarkerGraph(markers), NewNodes(reps))
    ensures AdjustedBy(reps, known, markers, reps + EntriesOfAll(known, markers, order))
  {
    var visited, more := ReachableFrom(MarkerGraph(markers), NewNodes(reps)), EntriesOfAll(known, markers, order);
    assert forall r :: r in reps + more <==> r in reps || r in more;
    forall n
      ensures n in OldNodes(more) <==> n in visited && (n !in known || (n in markers && markers[n] != []))
    {
      EntrySources(known, markers, order, n);
      assert n in order <==> n in Elements(order);
    }
    forall n, s
      ensures Edge(Recorded(reps + more), n, s) <==>
                Edge(Recorded(reps), n, s) || (n in visited && exists m :: n in markers && m in markers[n] && s in m)
    {
      EntryEdges(known, markers, order, n, s);
      assert n in order <==> n in Elements(order);
    }
  }

  lemma EntrySources<N(!new)>(known: set<N>, markers: Markers<N>, order: seq<N>, n: N)
    ensures n in OldNodes(EntriesOfAll(known, markers, order)) <==>
              n in order && (n !in known || (n in markers && markers[n] != []))
  {
    var more := EntriesOfAll(known, markers, order);
    if n in OldNodes(more) {
      var r :| r in more && r.prec == n;
      EntriesListed(known, markers, order, r);
      var k :| k in order && r in EntriesOf(known, markers, k);
      assert r.prec == k;
    }
    if n in order && (n !in known || (n in markers && markers[n] != [])) {
      var ms := MarkersOf(markers, n);
      var r := if ms == [] then Replacement(n, []) else Replacement(n, ms[0]);
      assert EntriesOf(known, markers, n)[0] == r;
      EntriesListed(known, markers, order, r);
    }
  }

  lemma EntryEdges<N(!new)>(known: set<N>, markers: Markers<N>, order: seq<N>, n: N, s: N)
    ensures (exists r :: r in EntriesOfAll(known, markers, order) && r.prec == n && s in r.succs) <==>
              n in order && exists m :: n in markers && m in markers[n] && s in m
  {
    if r :| r in EntriesOfAll(known, markers, order) && r.prec == n && s in r.succs {
      EntriesListed(known, markers, order, r);
      var k :| k in order && r in EntriesOf(known, markers, k);
      assert r in Bundles(k, MarkersOf(markers, k));
      assert r.succs in markers[n];
    }
    if n in order {
      if m :| n in markers && m in markers[n] && s in m {
        var i :| 0 <= i < |markers[n]| && markers[n][i] == m;
        assert Bundles(n, markers[n])[i] == Replacement(n, m);
        assert Replacement(n, m) in EntriesOf(known, markers, n);
        EntriesListed(known, markers, order, Replacement(n, m));
      }
    }
  }

  lemma AllVisited<N(!new)>(g: map<N, set<N>>, seeds: set<N>, seen: set<N>, order: seq<N>)
    requires Visiting(g, seeds, seen, order, [])
    ensures Distinct(order) && Elements(order) == ReachableFrom(g, seeds)
  {
    assert order + [] == order;
    ClosedSetHoldsReachable(g, seeds, seen);
  }

  /**
   The marker worklist. It finishes on any marker graph, cyclic ones included: `order` is the
   sequence of nodes popped, and no node is popped twice.
   */
  method AdjustFromMarkers<N(==,!new)>(reps: seq<Replacement<N>>, enabled: bool, known: set<N>, markers: Markers<N>)
    returns (adjusted: seq<Replacement<N>>, ghost order: seq<N>)
    ensures !enabled ==> adjusted == reps
    ensures enabled ==>
              && adjusted == reps + EntriesOfAll(known, markers, order)
              && Distinct(order)
              && Elements(order) == ReachableFrom(MarkerGraph(markers), NewNodes(reps))
    ensures enabled ==> NewNodes(adjusted) - OldNodes(adjusted) <= known
    ensures enabled ==> AdjustedBy(reps, known, markers, adjusted)
  {
    order := [];
    if !enabled {
      return reps, order;
    }
    ghost var g := MarkerGraph(markers);
    var seen, replaced, full := CollectReplacements(reps);
    ghost var seeds := seen;
    adjusted := reps;
    var stack := SetToList(seen);
    assert [] + stack == stack;
    while stack != []
      invariant Visiting(g, seeds, seen, order, stack)
      invariant adjusted == reps + EntriesOfAll(known, markers, order)
      decreases ReachableFrom(g, seeds) - seen, |stack|
    {
      var n;
      n, adjusted, seen, stack := PopNode(adjusted, known, markers, seeds, seen, order, stack);
      OneMoreEntry(reps, known, markers, order, n);
      order := order + [n];
    }
    AllVisited(g, seeds, seen, order);
    CreatedAreKnown(reps, known, markers, order);
    EntriesAdjust(reps, known, markers, order);
  }
}
