/**
 How fix looks at the revision graph: the bases each revision is compared with, and which
 revisions are created anew. Revisions are numbers; a parent has a smaller number.
 */
module FixGraph {
  import opened Lists
  import opened Digraph

  type Parents = map<int, seq<int>>

  const NULLREV := -1

  /** The parent graph of the revisions being fixed. Following it stops outside of them. */
  ghost function ParentGraph(parents: Parents, revs: seq<int>): map<int, set<int>>
    requires Elements(revs) <= parents.Keys
  {
    map r | r in revs :: Elements(parents[r])
  }

  /** Processing order: every parent that is processed at all is processed earlier. */
  ghost predicate Topological(parents: Parents, revs: seq<int>) {
    && Elements(revs) <= parents.Keys
    && (forall i, j :: 0 <= i < j < |revs| ==> revs[i] < revs[j])
    && (forall r, p :: r in revs && p in parents[r] ==> p < r)
  }

  lemma ParentIsEarlier(parents: Parents, revs: seq<int>, k: nat, p: int)
    requires Topological(parents, revs) && k < |revs| && p in parents[revs[k]]
    ensures p in revs <==> p in revs[..k]
  {
    if p in revs {
      var j :| 0 <= j < |revs| && revs[j] == p;
      assert revs[k] in revs;
      assert j < k;
      assert revs[..k][j] == p;
    }
  }

  // ---------------------------------------------------------------------------------------
  // getbasectxs

  /**
   The bases of a revision are exactly the revisions outside the processed ones that a parent
   path leads to without leaving them before; there is always at least one.
   */
  method GetBaseCtxs(parents: Parents, revs: seq<int>, base: Option<set<int>>) returns (basectxs: map<int, set<int>>)
    requires Topological(parents, revs)
    requires forall r :: r in revs ==> parents[r] != []
    ensures basectxs.Keys == Elements(revs)
    ensures base.Some? ==> forall r :: r in revs ==>
              basectxs[r] == if base.value == {} then {NULLREV} else base.value
    ensures base.None? ==> forall r :: r in revs ==> basectxs[r] == Sinks(ParentGraph(parents, revs), r)
    ensures forall r :: r in revs ==> basectxs[r] != {}
  {
    if base.Some? {
      var baserevs := if base.value == {} then {NULLREV} else base.value;
      return map r | r in revs :: baserevs;
    }
    ghost var g := ParentGraph(parents, revs);
    basectxs := map[];
    for k := 0 to |revs|
      invariant basectxs.Keys == Elements(revs[..k])
      invariant forall r :: r in basectxs ==> basectxs[r] == Sinks(g, r) && basectxs[r] != {}
    {
      var rev := revs[k];
      var bases := BasesFromParents(parents, revs, k, basectxs);
      assert revs[..k + 1] == revs[..k] + [rev];
      ElementsConcat(revs[..k], [rev]);
      basectxs := basectxs[rev := bases];
    }
    assert revs[..|revs|] == revs;
  }

  method BasesFromParents(parents: Parents, revs: seq<int>, k: nat, basectxs: map<int, set<int>>)
    returns (bases: set<int>)
    requires Topological(parents, revs) && k < |revs| && parents[revs[k]] != []
    requires basectxs.Keys == Elements(revs[..k])
    requires forall r :: r in basectxs ==> basectxs[r] == Sinks(ParentGraph(parents, revs), r) && basectxs[r] != {}
    ensures bases == Sinks(ParentGraph(parents, revs), revs[k]) && bases != {}
  {
    ghost var g := ParentGraph(parents, revs);
    var rev := revs[k];
    assert rev in revs;
    bases := {};
    for i := 0 to |parents[rev]|
      invariant forall t :: t in bases <==>
                  exists j :: 0 <= j < i && BaseVia(g, parents[rev][j], t)
      invariant i > 0 ==> bases != {}
    {
      var p := parents[rev][i];
      ParentIsEarlier(parents, revs, k, p);
      if p in basectxs {
        assert p in g;
        bases := bases + basectxs[p];
      } else {
        assert p !in g;
        SinksOfNonKey(g, p);
        bases := bases + {p};
      }
    }
    forall t
      ensures t in bases <==> t in Sinks(g, rev)
    {
      if t !in g {
        SinksBySuccessor(g, rev, t);
        assert forall s :: s in g[rev] <==> s in parents[rev];
        assert forall j :: 0 <= j < |parents[rev]| ==> parents[rev][j] in g[rev];
      }
    }
  }

  ghost predicate BaseVia(g: map<int, set<int>>, p: int, t: int) {
    t in Sinks(g, p) || (t == p && p !in g)
  }

  lemma SinksOfNonKey(g: map<int, set<int>>, p: int)
    requires p !in g
    ensures Sinks(g, p) == {}
  {
    forall t | Reaches(g, p, t)
      ensures false
    {
      ReachesTargets(g, p, t);
    }
  }

  // ---------------------------------------------------------------------------------------
  // Creating revisions anew

  /** What replacing has done so far: old to new revisions, and the parents on which each was created anew. */
  datatype Rewritten = Rewritten(replacements: map<int, int>, newparents: map<int, seq<int>>)

  function Image(replacements: map<int, int>, p: int): int {
    if p in replacements then replacements[p] else p
  }

  function Images(replacements: map<int, int>, ps: seq<int>): (r: seq<int>)
    ensures |r| == |ps| && forall i :: 0 <= i < |ps| ==> r[i] == Image(replacements, ps[i])
  {
    seq(|ps|, i requires 0 <= i < |ps| => Image(replacements, ps[i]))
  }

  /**
   `replacerev`: nothing happens if no file changed and no parent was replaced; otherwise
   the revision is committed again, on the replacements of its parents, as `succ`.
   */
  function ReplaceStep(w: Rewritten, rev: int, ps: seq<int>, changed: bool, succ: int): Rewritten {
    if !changed && forall p :: p in ps ==> p !in w.replacements then w
    else Rewritten(if succ == rev then w.replacements else w.replacements[rev := succ],
                   w.newparents[rev := Images(w.replacements, ps)])
  }

  function ReplaceAll(parents: Parents, succ: map<int, int>, revs: seq<int>, changed: set<int>): Rewritten
    requires forall r :: r in revs ==> r in parents && r in succ
  {
    if revs == [] then Rewritten(map[], map[])
    else
      var rev := revs[|revs| - 1];
      ReplaceStep(ReplaceAll(parents, succ, revs[..|revs| - 1], changed), rev, parents[rev], rev in changed, succ[rev])
  }

  /** Changed itself, or descending from a changed revision through processed revisions only. */
  ghost predicate Affected(g: map<int, set<int>>, changed: set<int>, r: int) {
    r in g && (r in changed || exists c :: c in changed && c in g && Reaches(g, r, c))
  }

  lemma AffectedByParent(g: map<int, set<int>>, changed: set<int>, r: int)
    requires r in g
    ensures Affected(g, changed, r) <==> r in changed || exists p :: p in g[r] && Affected(g, changed, p)
  {
    if c :| c in changed && c in g && Reaches(g, r, c) {
      var s := ReachesByFirstEdge(g, r, c);
      if s != c {
        ReachesTargets(g, s, c);
      }
      assert s in g[r] && Affected(g, changed, s);
    }
    if p :| p in g[r] && Affected(g, changed, p) {
      EdgeReaches(g, r, p);
      if p !in changed {
        var c :| c in changed && c in g && Reaches(g, p, c);
        ReachesTransitive(g, r, p, c);
      }
    }
  }

  /** The processed revisions that would become other ones. */
  ghost function RenamedGraph(parents: Parents, revs: seq<int>, succ: map<int, int>): map<int, set<int>>
    requires Elements(revs) <= parents.Keys && forall r :: r in revs ==> r in succ
  {
    map r | r in revs && succ[r] != r :: Elements(parents[r])
  }

  ghost predicate ParentReplaced(w: Rewritten, ps: seq<int>) {
    exists p :: p in ps && p in w.replacements
  }

  /**
   A revision is replaced exactly if it becomes another one and is changed, or descends from a
   changed one, through such revisions only. It is created anew exactly if it is changed or one of
   its parents is replaced, and then on the replacements of its parents.
   */
  lemma {:induction false} ReplacedAreTheAffected(parents: Parents, succ: map<int, int>, revs: seq<int>,
      changed: set<int>, k: nat)
    requires Topological(parents, revs) && Elements(revs) <= succ.Keys && k <= |revs|
    ensures forall r :: r in revs[..k] ==> r in parents && r in succ
    ensures ReplacedUpTo(parents, succ, revs, changed, k, ReplaceAll(parents, succ, revs[..k], changed))
  {
    assert forall r :: r in revs[..k] ==> r in revs;
    if k > 0 {
      ReplacedAreTheAffected(parents, succ, revs, changed, k - 1);
      OneMoreReplaced(parents, succ, revs, changed, k - 1);
      ReplaceStepKeeps(parents, succ, revs, changed, k - 1, ReplaceAll(parents, succ, revs[..k - 1], changed));
    }
  }

  lemma OneMoreReplaced(parents: Parents, succ: map<int, int>, revs: seq<int>, changed: set<int>, k: nat)
    requires Elements(revs) <= parents.Keys * succ.Keys && k < |revs|
    ensures forall r :: r in revs ==> r in parents && r in succ
    ensures ReplaceAll(parents, succ, revs[..k + 1], changed) ==
            ReplaceStep(ReplaceAll(parents, succ, revs[..k], changed), revs[k], parents[revs[k]], revs[k] in changed,
                        succ[revs[k]])
  {
    assert forall r :: r in revs ==> r in Elements(revs);
    assert revs[..k + 1][..k] == revs[..k];
  }

  /** What holds of the replacements when the first `k` revisions have been processed. */
  ghost predicate ReplacedUpTo(parents: Parents, succ: map<int, int>, revs: seq<int>, changed: set<int>, k: nat,
      w: Rewritten)
    requires k <= |revs| && Elements(revs) <= parents.Keys && forall r :: r in revs ==> r in succ
  {
    && (forall r :: r in w.replacements <==>
          r in revs[..k] && Affected(RenamedGraph(parents, revs, succ), changed, r))
    && (forall r :: r in w.replacements ==> w.replacements[r] == succ[r])
    && (forall r :: r in revs[..k] ==> CreatedRight(parents, changed, w, r))
    && (forall r :: r in w.newparents ==> r in revs[..k])
  }

  ghost predicate CreatedRight(parents: Parents, changed: set<int>, w: Rewritten, r: int)
    requires r in parents
  {
    && (r in w.newparents <==> r in changed || ParentReplaced(w, parents[r]))
    && (r in w.newparents ==> w.newparents[r] == Images(w.replacements, parents[r]))
  }

  lemma ReplaceStepKeeps(parents: Parents, succ: map<int, int>, revs: seq<int>, changed: set<int>, k: nat, w: Rewritten)
    requires Topological(parents, revs) && Elements(revs) <= succ.Keys && k < |revs|
    requires ReplacedUpTo(parents, succ, revs, changed, k, w)
    ensures ReplacedUpTo(parents, succ, revs, changed, k + 1,
                         ReplaceStep(w, revs[k], parents[revs[k]], revs[k] in changed, succ[revs[k]]))
  {
    var rev := revs[k];
    assert rev in revs;
    var w' := ReplaceStep(w, rev, parents[rev], rev in changed, succ[rev]);
    assert revs[..k + 1] == revs[..k] + [rev];
    ReplacedByStep(parents, succ, revs, changed, k, w);
    forall r | r in revs[..k + 1]
      ensures CreatedRight(parents, changed, w', r)
    {
      CreatedStays(parents, succ, revs, changed, k, w, r);
    }
  }

  /** The revision is replaced by its step exactly if it is affected. */
  lemma ReplacedByStep(parents: Parents, succ: map<int, int>, revs: seq<int>, changed: set<int>, k: nat, w: Rewritten)
    requires Topological(parents, revs) && Elements(revs) <= succ.Keys && k < |revs|
    requires ReplacedUpTo(parents, succ, revs, changed, k, w)
    ensures var g, rev := RenamedGraph(parents, revs, succ), revs[k];
            var w' := ReplaceStep(w, rev, parents[rev], rev in changed, succ[rev]);
            w'.replacements == if Affected(g, changed, rev) then w.replacements[rev := succ[rev]] else w.replacements
  {
    var g, rev := RenamedGraph(parents, revs, succ), revs[k];
    if rev in g {
      AffectedByParent(g, changed, rev);
      forall p | p in parents[rev]
        ensures p in w.replacements <==> Affected(g, changed, p)
      {
        ParentIsEarlier(parents, revs, k, p);
      }
    }
  }

  lemma CreatedStays(parents: Parents, succ: map<int, int>, revs: seq<int>, changed: set<int>, k: nat, w: Rewritten,
      r: int)
    requires Topological(parents, revs) && Elements(revs) <= succ.Keys && k < |revs| && r in revs[..k + 1]
    requires ReplacedUpTo(parents, succ, revs, changed, k, w)
    ensures CreatedRight(parents, changed,
                         ReplaceStep(w, revs[k], parents[revs[k]], revs[k] in changed, succ[revs[k]]), r)
  {
    var rev := revs[k];
    EarlierImagesUnaffected(parents, revs, k, w.replacements, succ[rev]);
    NotAParent(parents, revs, k, r);
    assert revs[..k + 1] == revs[..k] + [rev] && rev in revs;
    if r != rev {
      assert r in revs[..k];
      assert CreatedRight(parents, changed, w, r);
    }
  }

  /** A revision is no parent of itself or of an earlier one. */
  lemma NotAParent(parents: Parents, revs: seq<int>, k: nat, r: int)
    requires Topological(parents, revs) && k < |revs| && r in revs[..k + 1]
    ensures r in revs && revs[k] !in parents[r]
  {
    var j :| 0 <= j < k + 1 && revs[j] == r;
    assert r in revs && revs[j] <= revs[k];
  }

  /** Recording one more revision changes no image of a parent of it or of an earlier one. */
  lemma EarlierImagesUnaffected(parents: Parents, revs: seq<int>, k: nat, replacements: map<int, int>, succ: int)
    requires Topological(parents, revs) && k < |revs|
    ensures forall r :: r in revs[..k + 1] ==>
              r in parents && Images(replacements[revs[k] := succ], parents[r]) == Images(replacements, parents[r])
  {
    forall r | r in revs[..k + 1]
      ensures r in parents && Images(replacements[revs[k] := succ], parents[r]) == Images(replacements, parents[r])
    {
      NotAParent(parents, revs, k, r);
      ImagesOfOthers(replacements, revs[k], succ, parents[r]);
    }
  }

  lemma ImagesOfOthers(replacements: map<int, int>, rev: int, succ: int, ps: seq<int>)
    requires rev !in ps
    ensures Images(replacements[rev := succ], ps) == Images(replacements, ps)
  {
    assert forall i :: 0 <= i < |ps| ==> ps[i] in ps;
  }

  /**
   After processing everything, a processed revision that was created anew is on a replaced
   revision exactly if a parent of it was replaced by a revision that was replaced too.
   */
  lemma OnReplacedParentIff(parents: Parents, succ: map<int, int>, revs: seq<int>, changed: set<int>, r: int)
    requires Topological(parents, revs) && Elements(revs) <= succ.Keys && r in revs
    ensures forall q :: q in revs ==> q in parents && q in succ
    ensures var w, g := ReplaceAll(parents, succ, revs, changed), RenamedGraph(parents, revs, succ);
            && (r in w.newparents <==> r in changed || ParentReplaced(w, parents[r]))
            && (r in w.newparents ==>
                  (ParentReplaced(w, w.newparents[r]) <==>
                   exists p :: p in parents[r] && Affected(g, changed, p) && Affected(g, changed, succ[p])))
  {
    var w := ReplaceAll(parents, succ, revs, changed);
    assert revs[..|revs|] == revs;
    ReplacedAreTheAffected(parents, succ, revs, changed, |revs|);
    assert CreatedRight(parents, changed, w, r);
    if r in w.newparents {
      ImagesReplacedIff(w, succ, parents[r]);
    }
  }

  lemma ImagesReplacedIff(w: Rewritten, succ: map<int, int>, ps: seq<int>)
    requires forall r :: r in w.replacements ==> r in succ && w.replacements[r] == succ[r]
    ensures ParentReplaced(w, Images(w.replacements, ps)) <==>
              exists p :: p in ps && p in w.replacements && succ[p] in w.replacements
  {
    var images := Images(w.replacements, ps);
    if p :| p in ps && p in w.replacements && succ[p] in w.replacements {
      var i :| 0 <= i < |ps| && ps[i] == p;
      assert images[i] == succ[p];
    }
  }

  /** If no revision becomes one that is processed too, nothing is left on a parent that was replaced. */
  lemma NoReplacedParentIsKept(parents: Parents, succ: map<int, int>, revs: seq<int>, changed: set<int>, r: int)
    requires Topological(parents, revs) && Elements(revs) <= succ.Keys && r in revs
    requires forall q :: q in revs ==> succ[q] == q || succ[q] !in revs
    ensures forall q :: q in revs ==> q in parents && q in succ
    ensures var w := ReplaceAll(parents, succ, revs, changed);
            if r in w.newparents then !ParentReplaced(w, w.newparents[r]) else !ParentReplaced(w, parents[r])
  {
    OnReplacedParentIff(parents, succ, revs, changed, r);
  }

  /** Revision 1 becomes 2, which is fixed itself and becomes 4; then 3, a child of 1, is put on 2. */
  lemma ReplacedParentKept()
    ensures var parents, succ := map[1 := [0], 2 := [0], 3 := [1]], map[1 := 2, 2 := 4, 3 := 5];
            var w := ReplaceAll(parents, succ, [1, 2, 3], {1, 2});
            Topological(parents, [1, 2, 3]) && 3 in w.newparents && w.newparents[3] == [2] && 2 in w.replacements
  {
    var parents, succ := map[1 := [0], 2 := [0], 3 := [1]], map[1 := 2, 2 := 4, 3 := 5];
    assert [1, 2, 3][..2] == [1, 2] && [1, 2][..1] == [1] && [1][..0] == [];
    var w := ReplaceAll(parents, succ, [1, 2], {1, 2});
    assert w.replacements == map[1 := 2, 2 := 4];
    assert parents[3][0] == 1;
    assert Images(w.replacements, [1]) == [2];
  }
}
