/**
 The search for import cycles: a breadth-first search over paths with a map of shortest
 distances, and the rotation that gives every cycle one name. A module is represented by
 its rank in the lexicographic order of the module names.
 */
module ImportChecker {
  import opened Lists
  import opened Digraph

  type Module = nat

  type Imports = map<Module, set<Module>>

  /** The search does not look beyond paths of this many modules. */
  const LIMIT := 1000

  ghost predicate IsWalk(g: Imports, p: seq<Module>, a: Module, b: Module) {
    && p != [] && p[0] == a && p[|p| - 1] == b
    && forall i :: 0 <= i < |p| - 1 ==> Edge(g, p[i], p[i + 1])
  }

  function Direct(g: Imports, x: Module): set<Module> {
    if x in g then g[x] else {}
  }

  /** A cycle is reported as the modules on it; following the last one's import leads back. */
  ghost predicate IsCycle(g: Imports, mod: Module, c: seq<Module>) {
    c != [] && c[0] == mod && Distinct(c) && Joins(g, c + [mod], mod, mod)
  }

  /** The paths found so far: one to every known module, without repetitions, of the recorded length. */
  ghost predicate Found(g: Imports, mod: Module, shortest: map<Module, nat>, paths: map<Module, seq<Module>>) {
    && mod !in shortest && paths.Keys == shortest.Keys + {mod}
    && paths[mod] == [mod]
    && (forall x :: x in paths ==> IsWalk(g, paths[x], mod, x) && Distinct(paths[x]) && |paths[x]| <= LIMIT)
    && (forall x, y :: x in paths && y in paths[x] ==> y in paths)
    && (forall x :: x in shortest ==> shortest[x] == |paths[x]| - 1)
  }

  /** The import of `s` by a module at the end of a path of length `n` has been dealt with. */
  ghost predicate Scanned(mod: Module, paths: map<Module, seq<Module>>, n: nat, s: Module) {
    n < LIMIT ==> s != mod && s in paths && |paths[s]| <= n + 1
  }

  ghost predicate DoneOk(g: Imports, mod: Module, paths: map<Module, seq<Module>>, done: set<Module>) {
    done <= paths.Keys && forall x, s :: x in done && Edge(g, x, s) ==> Scanned(mod, paths, |paths[x]|, s)
  }

  /** Every module known by a path shorter than `level` is done. */
  ghost predicate DoneBelow(paths: map<Module, seq<Module>>, done: set<Module>, level: nat) {
    forall x :: x in paths && |paths[x]| < level ==> x in done
  }

  /** No closed walk is shorter than the level the search has reached. */
  lemma NoShortClosedWalk(g: Imports, mod: Module, shortest: map<Module, nat>, paths: map<Module, seq<Module>>,
      done: set<Module>, level: nat, p: seq<Module>)
    requires Found(g, mod, shortest, paths) && DoneOk(g, mod, paths, done) && DoneBelow(paths, done, level)
    requires level <= LIMIT && Joins(g, p, mod, mod)
    ensures |p| - 1 >= level
  {
    if |p| - 1 < level {
      for j := 0 to |p| - 1
        invariant p[j] in paths && |paths[p[j]]| <= j + 1
        invariant j > 0 ==> p[j] != mod
      {
        assert p[j] in done;
        assert Edge(g, p[j], p[j + 1]);
        assert Scanned(mod, paths, |paths[p[j]]|, p[j + 1]);
      }
    }
  }

  /** If the search has run dry and met no path of full length, there is no closed walk at all. */
  lemma NoClosedWalk(g: Imports, mod: Module, shortest: map<Module, nat>, paths: map<Module, seq<Module>>,
      p: seq<Module>)
    requires Found(g, mod, shortest, paths) && DoneOk(g, mod, paths, paths.Keys)
    requires forall x :: x in paths ==> |paths[x]| < LIMIT
    ensures !Joins(g, p, mod, mod)
  {
    if Joins(g, p, mod, mod) {
      for j := 0 to |p| - 1
        invariant p[j] in paths
        invariant j > 0 ==> p[j] != mod
      {
        assert Edge(g, p[j], p[j + 1]);
        assert Scanned(mod, paths, |paths[p[j]]|, p[j + 1]);
      }
    }
  }

  ghost function Modules(g: Imports, mod: Module): set<Module> {
    g.Keys + Targets(g) + {mod}
  }

  lemma WalkStaysInModules(g: Imports, p: seq<Module>, a: Module, b: Module)
    requires IsWalk(g, p, a, b)
    ensures Elements(p) <= Modules(g, a)
  {
    forall i | 0 <= i < |p|
      ensures p[i] in Modules(g, a)
    {
      if i > 0 {
        assert Edge(g, p[i - 1], p[i - 1 + 1]);
      }
    }
  }

  lemma PathsAreShort(g: Imports, mod: Module, shortest: map<Module, nat>, paths: map<Module, seq<Module>>)
    requires Found(g, mod, shortest, paths)
    ensures forall x :: x in paths ==> |paths[x]| <= |Modules(g, mod)|
  {
    forall x | x in paths
      ensures |paths[x]| <= |Modules(g, mod)|
    {
      WalkStaysInModules(g, paths[x], mod, x);
      DistinctCount(paths[x]);
      SmallerSet(Elements(paths[x]), Modules(g, mod));
    }
  }

  // ---------------------------------------------------------------------------------------
  // checkmod

  /** The queue: the paths of the modules not done yet, by length, spanning at most two lengths. */
  ghost predicate Queue(paths: map<Module, seq<Module>>, done: set<Module>, visit: seq<seq<Module>>, level: nat) {
    && (forall k :: 0 <= k < |visit| ==>
          visit[k] != [] && Last(visit[k]) in paths && visit[k] == paths[Last(visit[k])] && Last(visit[k]) !in done)
    && (forall k, l :: 0 <= k < l < |visit| ==> Last(visit[k]) != Last(visit[l]) && |visit[k]| <= |visit[l]|)
    && (forall k :: 0 <= k < |visit| ==> level <= |visit[k]| <= level + 1)
    && (forall x :: x in paths && x !in done ==> exists k :: 0 <= k < |visit| && Last(visit[k]) == x)
    && (forall x :: x in paths ==> |paths[x]| <= level + 1)
  }

  function Last(p: seq<Module>): Module
    requires p != []
  {
    p[|p| - 1]
  }

  ghost predicate Search(g: Imports, mod: Module, shortest: map<Module, nat>, paths: map<Module, seq<Module>>,
      done: set<Module>, visit: seq<seq<Module>>, level: nat)
  {
    && Found(g, mod, shortest, paths)
    && DoneOk(g, mod, paths, done)
    && DoneBelow(paths, done, level)
    && Queue(paths, done, visit, level)
  }

  /** A path in the queue can be extended by a module that is not known yet. */
  lemma ExtendPath(g: Imports, mod: Module, shortest: map<Module, nat>, paths: map<Module, seq<Module>>, x: Module,
      i: Module)
    requires Found(g, mod, shortest, paths) && x in paths && Edge(g, x, i) && i !in paths && |paths[x]| < LIMIT
    ensures Found(g, mod, shortest[i := |paths[x]|], paths[i := paths[x] + [i]])
  {
    assert i !in paths[x];
    var p := paths[x] + [i];
    assert forall k :: 0 <= k < |paths[x]| ==> p[k] == paths[x][k];
    forall k | 0 <= k < |p| - 1
      ensures Edge(g, p[k], p[k + 1])
    {
      if k < |paths[x]| - 1 {
        assert Edge(g, paths[x][k], paths[x][k + 1]);
      }
    }
  }

  lemma ClosePath(g: Imports, mod: Module, shortest: map<Module, nat>, paths: map<Module, seq<Module>>, x: Module)
    requires Found(g, mod, shortest, paths) && x in paths && Edge(g, x, mod)
    ensures IsCycle(g, mod, paths[x])
  {
    var p := paths[x] + [mod];
    assert forall k :: 0 <= k < |paths[x]| ==> p[k] == paths[x][k];
    forall k | 0 <= k < |p| - 1
      ensures Edge(g, p[k], p[k + 1])
    {
      if k < |paths[x]| - 1 {
        assert Edge(g, paths[x][k], paths[x][k + 1]);
      }
    }
  }

  /** The state while the imports of `x` are scanned; those in `rest` are still to come. */
  ghost predicate Scanning(g: Imports, mod: Module, shortest: map<Module, nat>, paths: map<Module, seq<Module>>,
      done: set<Module>, visit: seq<seq<Module>>, x: Module, rest: set<Module>)
  {
    && Found(g, mod, shortest, paths)
    && DoneOk(g, mod, paths, done)
    && x in paths
    && DoneBelow(paths, done, |paths[x]|)
    && Queue(paths, done + {x}, visit, |paths[x]|)
    && (forall s :: Edge(g, x, s) && s !in rest ==> Scanned(mod, paths, |paths[x]|, s))
  }

  lemma DoneOkGrows(g: Imports, mod: Module, paths: map<Module, seq<Module>>, done: set<Module>, i: Module,
      p: seq<Module>)
    requires DoneOk(g, mod, paths, done) && i !in paths
    ensures DoneOk(g, mod, paths[i := p], done)
  {
    forall y, s | y in done && Edge(g, y, s)
      ensures Scanned(mod, paths[i := p], |paths[i := p][y]|, s)
    {
      assert Scanned(mod, paths, |paths[y]|, s);
    }
  }

  lemma QueueGrows(paths: map<Module, seq<Module>>, done: set<Module>, visit: seq<seq<Module>>, level: nat, i: Module,
      p: seq<Module>)
    requires Queue(paths, done, visit, level) && i !in paths && i !in done
    requires p != [] && Last(p) == i && |p| == level + 1
    ensures Queue(paths[i := p], done, visit + [p], level)
  {
    var paths', visit' := paths[i := p], visit + [p];
    forall y | y in paths' && y !in done
      ensures exists k :: 0 <= k < |visit'| && Last(visit'[k]) == y
    {
      if y == i {
        assert Last(visit'[|visit|]) == i;
      } else {
        var k :| 0 <= k < |visit| && Last(visit[k]) == y;
        assert visit'[k] == visit[k];
      }
    }
    forall k | 0 <= k < |visit|
      ensures visit'[k] == visit[k] && Last(visit[k]) != i
    {
    }
  }

  lemma AddModule(g: Imports, mod: Module, shortest: map<Module, nat>, paths: map<Module, seq<Module>>,
      done: set<Module>, visit: seq<seq<Module>>, x: Module, rest: set<Module>, i: Module)
    requires Scanning(g, mod, shortest, paths, done, visit, x, rest)
    requires Edge(g, x, i) && i !in paths && |paths[x]| < LIMIT
    ensures var p := paths[x] + [i];
            Scanning(g, mod, shortest[i := |paths[x]|], paths[i := p], done, visit + [p], x, rest - {i})
  {
    var p := paths[x] + [i];
    ExtendPath(g, mod, shortest, paths, x, i);
    DoneOkGrows(g, mod, paths, done, i, p);
    QueueGrows(paths, done + {x}, visit, |paths[x]|, i, p);
    forall s | Edge(g, x, s) && s !in rest - {i}
      ensures Scanned(mod, paths[i := p], |paths[x]|, s)
    {
      if s != i {
        assert Scanned(mod, paths, |paths[x]|, s);
      }
    }
  }

  /** The `for i in sorted(...)` loop. The order of the imports is left open. */
  method Scan(g: Imports, mod: Module, path: seq<Module>, shortest: map<Module, nat>, visit: seq<seq<Module>>,
              ghost paths: map<Module, seq<Module>>, ghost done: set<Module>)
    returns (raised: bool, shortest': map<Module, nat>, visit': seq<seq<Module>>,
        ghost paths': map<Module, seq<Module>>)
    requires path != [] && Last(path) in paths && path == paths[Last(path)]
    requires Scanning(g, mod, shortest, paths, done, visit, Last(path), Direct(g, Last(path)))
    ensures raised ==> IsCycle(g, mod, path) && |path| < LIMIT
    ensures !raised ==> Scanning(g, mod, shortest', paths', done, visit', Last(path), {})
    ensures Last(path) in paths' && paths'[Last(path)] == path
    ensures paths.Keys <= paths'.Keys && (paths'.Keys == paths.Keys ==> visit' == visit)
  {
    shortest', visit', paths', raised := shortest, visit, paths, false;
    var x := Last(path);
    var rest := Direct(g, x);
    while rest != {}
      invariant Scanning(g, mod, shortest', paths', done, visit', x, rest)
      invariant rest <= Direct(g, x) && paths'[x] == path
      invariant paths.Keys <= paths'.Keys && (paths'.Keys == paths.Keys ==> visit' == visit)
    {
      var i :| i in rest;
      assert Edge(g, x, i);
      var known := if i in shortest' then shortest'[i] else LIMIT;
      if |path| < known {
        if i in path {
          if i == path[0] {
            ClosePath(g, mod, shortest', paths', x);
            raised := true;
            return;
          } else {
            assert false;
          }
        }
        AddModule(g, mod, shortest', paths', done, visit', x, rest, i);
        shortest' := shortest'[i := |path|];
        paths' := paths'[i := path + [i]];
        visit' := visit' + [path + [i]];
      } else {
        assert Scanned(mod, paths', |path|, i);
      }
      rest := rest - {i};
    }
  }

  function Level(visit: seq<seq<Module>>): nat {
    if visit == [] then LIMIT else |visit[0]|
  }

  /** The module at the front of the queue leaves it, to be scanned. */
  lemma Dequeue(g: Imports, mod: Module, shortest: map<Module, nat>, paths: map<Module, seq<Module>>,
      done: set<Module>, visit: seq<seq<Module>>)
    requires visit != [] && Search(g, mod, shortest, paths, done, visit, |visit[0]|)
    ensures visit[0] != [] && Last(visit[0]) in paths && visit[0] == paths[Last(visit[0])]
    ensures Scanning(g, mod, shortest, paths, done, visit[1..], Last(visit[0]), Direct(g, Last(visit[0])))
  {
    var rest, x := visit[1..], Last(visit[0]);
    assert forall k :: 0 <= k < |rest| ==> rest[k] == visit[k + 1];
    forall y | y in paths && y !in done + {x}
      ensures exists k :: 0 <= k < |rest| && Last(rest[k]) == y
    {
      var k :| 0 <= k < |visit| && Last(visit[k]) == y;
      QueuedBehind(visit, k, y);
    }
  }

  lemma QueuedBehind(visit: seq<seq<Module>>, k: nat, y: Module)
    requires k < |visit| && forall i :: 0 <= i < |visit| ==> visit[i] != []
    requires Last(visit[k]) == y && Last(visit[0]) != y
    ensures forall i :: 0 <= i < |visit[1..]| ==> visit[1..][i] != []
    ensures exists i :: 0 <= i < |visit[1..]| && Last(visit[1..][i]) == y
  {
    assert forall i :: 0 <= i < |visit[1..]| ==> visit[1..][i] == visit[i + 1];
    assert visit[1..][k - 1] == visit[k];
  }

  /** Once its imports are scanned the module is done, and the level is that of the new front. */
  lemma Finish(g: Imports, mod: Module, shortest: map<Module, nat>, paths: map<Module, seq<Module>>, done: set<Module>,
               visit: seq<seq<Module>>, x: Module)
    requires Scanning(g, mod, shortest, paths, done, visit, x, {})
    ensures Search(g, mod, shortest, paths, done + {x}, visit, Level(visit))
  {
  }

  /** When the queue has run dry, no closed walk was overlooked but those of 1000 imports and more. */
  lemma NothingOverlooked(g: Imports, mod: Module, shortest: map<Module, nat>, paths: map<Module, seq<Module>>,
      done: set<Module>)
    requires Search(g, mod, shortest, paths, done, [], LIMIT)
    ensures forall p :: Joins(g, p, mod, mod) ==> |p| - 1 >= LIMIT
    ensures |Modules(g, mod)| < LIMIT ==> !Reaches(g, mod, mod)
  {
    assert paths.Keys == done;
    forall p | Joins(g, p, mod, mod)
      ensures |p| - 1 >= LIMIT
    {
      NoShortClosedWalk(g, mod, shortest, paths, done, LIMIT, p);
    }
    if |Modules(g, mod)| < LIMIT {
      PathsAreShort(g, mod, shortest, paths);
      forall p
        ensures !Joins(g, p, mod, mod)
      {
        NoClosedWalk(g, mod, shortest, paths, p);
      }
    }
  }

  /** One turn of the `while visit` loop. */
  method VisitFront(g: Imports, mod: Module, shortest: map<Module, nat>, visit: seq<seq<Module>>,
                    ghost paths: map<Module, seq<Module>>, ghost done: set<Module>)
    returns (raised: bool, path: seq<Module>, shortest': map<Module, nat>, visit': seq<seq<Module>>,
             ghost paths': map<Module, seq<Module>>, ghost done': set<Module>)
    requires visit != [] && Search(g, mod, shortest, paths, done, visit, |visit[0]|)
    ensures raised ==> IsCycle(g, mod, path) && |path| < LIMIT
    ensures raised ==> forall p :: Joins(g, p, mod, mod) ==> |path| <= |p| - 1
    ensures !raised ==> Search(g, mod, shortest', paths', done', visit', Level(visit'))
    ensures raised ==> Reaches(g, mod, mod)
    ensures !raised ==>
            |paths'| <= |Modules(g, mod)| && (|paths'| > |paths| || (|paths'| == |paths| && |visit'| < |visit|))
  {
    path := visit[0];
    Dequeue(g, mod, shortest, paths, done, visit);
    raised, shortest', visit', paths' := Scan(g, mod, path, shortest, visit[1..], paths, done);
    done' := done + {Last(path)};
    if raised {
      CycleIsShortest(g, mod, shortest, paths, done, path);
    } else {
      Finish(g, mod, shortest', paths', done, visit', Last(path));
      KnownGrow(g, mod, shortest', paths, paths');
    }
  }

  lemma CycleIsShortest(g: Imports, mod: Module, shortest: map<Module, nat>, paths: map<Module, seq<Module>>,
                        done: set<Module>, path: seq<Module>)
    requires Found(g, mod, shortest, paths) && DoneOk(g, mod, paths, done) && DoneBelow(paths, done, |path|)
    requires |path| < LIMIT && IsCycle(g, mod, path)
    ensures Reaches(g, mod, mod)
    ensures forall p :: Joins(g, p, mod, mod) ==> |path| <= |p| - 1
  {
    forall p | Joins(g, p, mod, mod)
      ensures |path| <= |p| - 1
    {
      NoShortClosedWalk(g, mod, shortest, paths, done, |path|, p);
    }
  }

  lemma KnownGrow(g: Imports, mod: Module, shortest: map<Module, nat>, paths: map<Module, seq<Module>>,
                  paths': map<Module, seq<Module>>)
    requires Found(g, mod, shortest, paths') && paths.Keys <= paths'.Keys
    ensures |paths| <= |paths'| <= |Modules(g, mod)|
    ensures paths.Keys != paths'.Keys ==> |paths| < |paths'|
  {
    KnownAreModules(g, mod, shortest, paths');
    SmallerSet(paths'.Keys, Modules(g, mod));
    SmallerSet(paths.Keys, paths'.Keys);
  }

  /**
   Raises, that is returns a cycle, exactly if the module is on a closed walk of fewer than 1000
   imports; the cycle then is a shortest one and repeats no module. With fewer than 1000
   modules around that is: exactly if the module is on any closed walk.
   */
  method CheckMod(mod: Module, imports: Imports) returns (cycle: Option<seq<Module>>)
    ensures cycle.Some? ==> IsCycle(imports, mod, cycle.value) && |cycle.value| < LIMIT
    ensures cycle.Some? ==> forall p :: Joins(imports, p, mod, mod) ==> |cycle.value| <= |p| - 1
    ensures cycle.None? ==> forall p :: Joins(imports, p, mod, mod) ==> |p| - 1 >= LIMIT
    ensures |Modules(imports, mod)| < LIMIT ==> (cycle.Some? <==> Reaches(imports, mod, mod))
  {
    var shortest: map<Module, nat> := map[];
    var visit := [[mod]];
    ghost var paths: map<Module, seq<Module>> := map[mod := [mod]];
    ghost var done: set<Module> := {};
    StartOfSearch(imports, mod);
    SmallerSet({mod}, Modules(imports, mod));
    while visit != []
      invariant Search(imports, mod, shortest, paths, done, visit, Level(visit))
      invariant |paths| <= |Modules(imports, mod)|
      decreases |Modules(imports, mod)| - |paths|, |visit|
    {
      var raised, path;
      raised, path, shortest, visit, paths, done := VisitFront(imports, mod, shortest, visit, paths, done);
      if raised {
        return Some(path);
      }
    }
    NothingOverlooked(imports, mod, shortest, paths, done);
    return None;
  }

  lemma StartOfSearch(g: Imports, mod: Module)
    ensures Search(g, mod, map[], map[mod := [mod]], {}, [[mod]], 1)
  {
    assert Last([[mod]][0]) == mod;
  }

  lemma KnownAreModules(g: Imports, mod: Module, shortest: map<Module, nat>, paths: map<Module, seq<Module>>)
    requires Found(g, mod, shortest, paths)
    ensures paths.Keys <= Modules(g, mod)
  {
    forall x | x in paths
      ensures x in Modules(g, mod)
    {
      WalkStaysInModules(g, paths[x], mod, x);
      assert x in Elements(paths[x]);
    }
  }

  // ---------------------------------------------------------------------------------------
  // rotatecycle and find_cycles

  function Lowest(c: seq<Module>): (low: Module)
    requires c != []
    ensures low in c && forall x :: x in c ==> low <= x
  {
    if |c| == 1 then c[0]
    else
      assert c == [c[0]] + c[1..];
      if c[0] < Lowest(c[1..]) then c[0] else Lowest(c[1..])
  }

  function IndexOf(c: seq<Module>, x: Module): (i: nat)
    requires x in c
    ensures i < |c| && c[i] == x
  {
    if c[0] == x then 0 else 1 + IndexOf(c[1..], x)
  }

  function Rotated(c: seq<Module>, k: nat): seq<Module>
    requires k <= |c|
  {
    c[k..] + c[..k]
  }

  function RotateCycle(c: seq<Module>): seq<Module>
    requires c != []
  {
    Rotated(c, IndexOf(c, Lowest(c))) + [Lowest(c)]
  }

  lemma IndexIsUnique(c: seq<Module>, x: Module, i: nat)
    requires Distinct(c) && i < |c| && c[i] == x
    ensures IndexOf(c, x) == i
  {
  }

  lemma SameLowest(c: seq<Module>, d: seq<Module>)
    requires c != [] && d != [] && forall x :: x in c <==> x in d
    ensures Lowest(c) == Lowest(d)
  {
  }

  lemma RotatedHolds(c: seq<Module>, k: nat)
    requires Distinct(c) && k <= |c|
    ensures Distinct(Rotated(c, k)) && forall x :: x in Rotated(c, k) <==> x in c
  {
    assert c == c[..k] + c[k..];
    DistinctParts(c[..k], c[k..]);
    DistinctConcat(c[k..], c[..k]);
    ElementsConcat(c[k..], c[..k]);
  }

  lemma RotateTwice(c: seq<Module>, k: nat, j: nat)
    requires k <= |c| && j <= |c|
    ensures |Rotated(c, k)| == |c|
    ensures k + j <= |c| ==> Rotated(Rotated(c, k), j) == Rotated(c, k + j)
    ensures k + j > |c| ==> Rotated(Rotated(c, k), j) == Rotated(c, k + j - |c|)
  {
    var d := Rotated(c, k);
    if k + j <= |c| {
      assert d[j..] == c[k + j..] + c[..k];
      assert d[..j] == c[k..k + j];
      assert c[..k] + c[k..k + j] == c[..k + j];
      assert (c[k + j..] + c[..k]) + c[k..k + j] == c[k + j..] + (c[..k] + c[k..k + j]);
    } else {
      var m := k + j - |c|;
      assert d[j..] == c[m..k];
      assert d[..j] == c[k..] + c[..m];
      assert c[m..] == c[m..k] + c[k..];
      assert c[m..k] + (c[k..] + c[..m]) == (c[m..k] + c[k..]) + c[..m];
    }
  }

  /** All rotations of a cycle are reported as the same closed walk. */
  lemma RotationsAgree(c: seq<Module>, k: nat)
    requires c != [] && Distinct(c) && k <= |c|
    ensures Rotated(c, k) != [] && RotateCycle(Rotated(c, k)) == RotateCycle(c)
  {
    RotatedHolds(c, k);
    RotatedAt(c, k, IndexOf(c, Lowest(c)));
    SameLowest(c, Rotated(c, k));
    var j := RotatedIndex(c, k, IndexOf(c, Lowest(c)));
    IndexIsUnique(Rotated(c, k), Lowest(c), j);
  }

  function RotatedIndex(c: seq<Module>, k: nat, i: nat): nat
    requires k <= |c| && i < |c|
  {
    if i >= k then i - k else i + |c| - k
  }

  /** Where an element is after a rotation, and that rotating there undoes the rotation. */
  lemma RotatedAt(c: seq<Module>, k: nat, i: nat)
    requires k <= |c| && i < |c|
    ensures var d, j := Rotated(c, k), RotatedIndex(c, k, i);
            |d| == |c| && j < |d| && d[j] == c[i] && Rotated(d, j) == Rotated(c, i)
  {
    RotatedElement(c, k, i);
    RotatedBack(c, k, i, RotatedIndex(c, k, i));
  }

  lemma RotatedBack(c: seq<Module>, k: nat, i: nat, j: nat)
    requires k <= |c| && i < |c| && j == RotatedIndex(c, k, i) <= |c|
    ensures |Rotated(c, k)| == |c| && Rotated(Rotated(c, k), j) == Rotated(c, i)
  {
    RotateTwice(c, k, j);
    if i == 0 {
      RotatedAll(c);
    }
  }

  lemma RotatedElement(c: seq<Module>, k: nat, i: nat)
    requires k <= |c| && i < |c|
    ensures |Rotated(c, k)| == |c| && RotatedIndex(c, k, i) < |c| && Rotated(c, k)[RotatedIndex(c, k, i)] == c[i]
  {
  }

  lemma RotatedAll(c: seq<Module>)
    ensures Rotated(c, |c|) == c && Rotated(c, 0) == c
  {
  }

  /** What is reported leads from the lexicographically first module of the cycle back to it. */
  lemma RotateCycleIsClosedWalk(g: Imports, mod: Module, c: seq<Module>)
    requires IsCycle(g, mod, c)
    ensures Joins(g, RotateCycle(c), Lowest(c), Lowest(c))
  {
    var w := c + [mod];
    var i := IndexOf(c, Lowest(c));
    var r := RotateCycle(c);
    forall k | 0 <= k < |r| - 1
      ensures Edge(g, r[k], r[k + 1])
    {
      var m := if k < |c| - i then k + i else k + i - |c|;
      assert w[m] == r[k] && w[m + 1] == r[k + 1];
      assert Edge(g, w[m], w[m + 1]);
    }
  }

  /** A closed walk from its lexicographically first module, which alone it visits twice. */
  ghost predicate Reported(g: Imports, w: seq<Module>) {
    && IsPath(g, w) && w[0] == w[|w| - 1] && (forall x :: x in w ==> w[0] <= x)
    && Distinct(w[..|w| - 1])
  }

  /** No closed walk at the module is shorter. */
  ghost predicate Shortest(g: Imports, w: seq<Module>, x: Module) {
    forall p :: Joins(g, p, x, x) ==> |w| <= |p|
  }

  /** A shortest closed walk of the module is among the cycles. */
  ghost predicate Through(g: Imports, cycles: set<seq<Module>>, x: Module) {
    exists w :: w in cycles && x in w && Shortest(g, w, x)
  }

  /** A closed walk in canonical form that is a shortest one for a module on it. */
  ghost predicate Justified(g: Imports, w: seq<Module>) {
    Reported(g, w) && exists x :: x in w && x in g && Shortest(g, w, x)
  }

  lemma RotatedCycleIsReported(g: Imports, mod: Module, c: seq<Module>)
    requires IsCycle(g, mod, c)
    ensures Reported(g, RotateCycle(c)) && mod in RotateCycle(c) && |RotateCycle(c)| == |c| + 1
  {
    RotateCycleIsClosedWalk(g, mod, c);
    var w, i := RotateCycle(c), IndexOf(c, Lowest(c));
    RotatedHolds(c, i);
    assert w[..|w| - 1] == Rotated(c, i);
    assert mod in Rotated(c, i);
    assert forall x :: x in w <==> x in c by {
      assert forall x :: x in w <==> x in Rotated(c, i) || x == Lowest(c);
    }
  }

  /** The module is on a closed walk of fewer than `LIMIT` imports; in a small graph, on any. */
  ghost predicate Circular(g: Imports, x: Module) {
    OnShortWalk(g, x) || (|g.Keys + Targets(g)| < LIMIT && Reaches(g, x, x))
  }

  ghost predicate OnShortWalk(g: Imports, x: Module) {
    exists p :: Joins(g, p, x, x) && |p| - 1 < LIMIT
  }

  /** What `checkmod` says about a module of the graph. */
  lemma RaisesIffCircular(g: Imports, mod: Module, cycle: Option<seq<Module>>)
    requires mod in g
    requires cycle.Some? ==> IsCycle(g, mod, cycle.value) && |cycle.value| < LIMIT
    requires cycle.None? ==> forall p :: Joins(g, p, mod, mod) ==> |p| - 1 >= LIMIT
    requires |Modules(g, mod)| < LIMIT ==> (cycle.Some? <==> Reaches(g, mod, mod))
    ensures cycle.Some? <==> Circular(g, mod)
  {
    assert Modules(g, mod) == g.Keys + Targets(g);
    if cycle.Some? {
      assert Joins(g, cycle.value + [mod], mod, mod) && |cycle.value + [mod]| - 1 < LIMIT;
    }
  }

  /**
   Every cycle reported is a closed walk in canonical form, and the shortest for some module. For
   each module on a closed walk of fewer than 1000 imports a shortest one is reported, and none is
   reported exactly if there is no such walk. With fewer than 1000 modules that is: exactly if the
   graph is acyclic.
   */
  method FindCycles(imports: Imports) returns (cycles: set<seq<Module>>)
    ensures cycles == {} <==> forall x :: x in imports ==> !OnShortWalk(imports, x)
    ensures forall w :: w in cycles ==> Justified(imports, w)
    ensures forall x :: x in imports && OnShortWalk(imports, x) ==> Through(imports, cycles, x)
    ensures |imports.Keys + Targets(imports)| < LIMIT ==>
              && (cycles == {} <==> Acyclic(imports))
              && forall x :: x in imports && Reaches(imports, x, x) ==> Through(imports, cycles, x)
  {
    cycles := {};
    var mods := SetToList(imports.Keys);
    for k := 0 to |mods|
      invariant CyclesSoFar(imports, cycles, mods[..k])
    {
      assert mods[k] in Elements(mods) && mods[..k + 1] == mods[..k] + [mods[k]];
      cycles := AddCycle(imports, cycles, mods[k], mods[..k]);
    }
    assert mods[..|mods|] == mods;
    AllModulesChecked(imports, cycles, mods);
  }

  /** The body of the loop over the modules. */
  method AddCycle(imports: Imports, cycles: set<seq<Module>>, mod: Module, ghost checked: seq<Module>)
    returns (cycles': set<seq<Module>>)
    requires mod in imports && CyclesSoFar(imports, cycles, checked)
    ensures CyclesSoFar(imports, cycles', checked + [mod])
  {
    cycles' := cycles;
    var cycle := CheckMod(mod, imports);
    RaisesIffCircular(imports, mod, cycle);
    if cycle.Some? {
      OneMoreCycle(imports, cycles, checked, mod, cycle.value);
      cycles' := cycles + {RotateCycle(cycle.value)};
    }
  }

  ghost predicate CyclesSoFar(g: Imports, cycles: set<seq<Module>>, checked: seq<Module>) {
    && (forall w :: w in cycles ==> Justified(g, w))
    && (forall x :: x in checked && Circular(g, x) ==> Through(g, cycles, x))
    && (cycles != {} ==> exists x :: x in g && OnShortWalk(g, x))
  }

  lemma ThroughMore(g: Imports, cycles: set<seq<Module>>, w: seq<Module>, x: Module)
    requires Through(g, cycles, x) || (x in w && Shortest(g, w, x))
    ensures Through(g, cycles + {w}, x)
  {
    var v :| (v in cycles || v == w) && x in v && Shortest(g, v, x);
    assert v in cycles + {w};
  }

  lemma OneMoreCycle(g: Imports, cycles: set<seq<Module>>, checked: seq<Module>, mod: Module, cycle: seq<Module>)
    requires CyclesSoFar(g, cycles, checked) && mod in g && IsCycle(g, mod, cycle) && |cycle| < LIMIT
    requires forall p :: Joins(g, p, mod, mod) ==> |cycle| <= |p| - 1
    ensures CyclesSoFar(g, cycles + {RotateCycle(cycle)}, checked + [mod])
  {
    var w := RotateCycle(cycle);
    RotatedCycleIsReported(g, mod, cycle);
    assert |w| == |cycle| + 1 && Shortest(g, w, mod);
    forall x | x in checked + [mod] && Circular(g, x)
      ensures Through(g, cycles + {w}, x)
    {
      ThroughMore(g, cycles, w, x);
    }
    assert Joins(g, cycle + [mod], mod, mod) && |cycle + [mod]| - 1 < LIMIT;
    assert OnShortWalk(g, mod);
  }

  lemma AllModulesChecked(g: Imports, cycles: set<seq<Module>>, mods: seq<Module>)
    requires CyclesSoFar(g, cycles, mods) && Elements(mods) == g.Keys
    ensures forall x :: x in g && Circular(g, x) ==> Through(g, cycles, x)
    ensures cycles == {} <==> forall x :: x in g ==> !OnShortWalk(g, x)
    ensures |g.Keys + Targets(g)| < LIMIT ==> (cycles == {} <==> Acyclic(g))
  {
    assert forall x :: x in g ==> x in Elements(mods);
    assert cycles == {} ==> forall x :: !Through(g, cycles, x);
    forall x | x in g && OnShortWalk(g, x)
      ensures Circular(g, x) && Reaches(g, x, x)
    {
    }
  }
}
