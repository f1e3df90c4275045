/**
 The pipeline of fix: files to fix are grouped into work items, the results of the items
 arrive in any order, and the revisions are nevertheless committed in topological order,
 each as soon as its own results and those of all earlier revisions are there.
 */
module FixPipeline {
  import opened Lists
  import opened FixGraph

  // ---------------------------------------------------------------------------------------
  // getworkqueue

  datatype Candidate = Candidate(path: string, filerev: int, link: bool, size: nat)

  /** A revision to fix, with its bases and the files that pathstofix selected. */
  datatype ToFix = ToFix(rev: int, baserevs: seq<int>, files: seq<Candidate>)

  datatype Key = Key(filerev: int, baserevs: seq<int>, path: string)

  /** One file of one revision that has to be fixed. */
  datatype Work = Work(rev: int, key: Key)

  datatype Item = Item(srcrev: int, path: string, dstrevs: seq<int>)

  function WorkIn(t: ToFix, files: seq<Candidate>, maxfilesize: nat): seq<Work> {
    if files == [] then []
    else
      var c := files[|files| - 1];
      WorkIn(t, files[..|files| - 1], maxfilesize)
      + if c.link || c.size > maxfilesize then [] else [Work(t.rev, Key(c.filerev, t.baserevs, c.path))]
  }

  /** Everything to be done, in the order in which it is found. */
  function AllWork(tofix: seq<ToFix>, maxfilesize: nat): seq<Work> {
    if tofix == [] then []
    else
      var t := tofix[|tofix| - 1];
      AllWork(tofix[..|tofix| - 1], maxfilesize) + WorkIn(t, t.files, maxfilesize)
  }

  /** Revisions ascend, and no revision names a path twice. */
  ghost predicate WellFormed(tofix: seq<ToFix>) {
    && (forall i, j :: 0 <= i < j < |tofix| ==> tofix[i].rev < tofix[j].rev)
    && (forall t :: t in tofix ==>
          forall i, j :: 0 <= i < j < |t.files| ==> t.files[i].path != t.files[j].path)
  }

  function RevsFor(ws: seq<Work>, key: Key): seq<int> {
    if ws == [] then []
    else RevsFor(ws[..|ws| - 1], key) + if ws[|ws| - 1].key == key then [ws[|ws| - 1].rev] else []
  }

  function CountFor(ws: seq<Work>, rev: int): nat {
    if ws == [] then 0
    else CountFor(ws[..|ws| - 1], rev) + if ws[|ws| - 1].rev == rev then 1 else 0
  }

  function Group(dstrevmap: map<Key, seq<int>>, key: Key): seq<int> {
    if key in dstrevmap then dstrevmap[key] else []
  }

  function Num(numitems: map<int, nat>, rev: int): nat {
    if rev in numitems then numitems[rev] else 0
  }

  ghost predicate Grouped(ws: seq<Work>, dstrevmap: map<Key, seq<int>>, numitems: map<int, nat>) {
    && (forall k :: k in dstrevmap ==> dstrevmap[k] != [])
    && (forall k :: Group(dstrevmap, k) == RevsFor(ws, k))
    && (forall r :: Num(numitems, r) == CountFor(ws, r))
  }

  method AddWork(dstrevmap: map<Key, seq<int>>, numitems: map<int, nat>, w: Work, ghost ws: seq<Work>)
    returns (dstrevmap': map<Key, seq<int>>, numitems': map<int, nat>)
    requires Grouped(ws, dstrevmap, numitems)
    ensures Grouped(ws + [w], dstrevmap', numitems')
  {
    dstrevmap' := dstrevmap[w.key := Group(dstrevmap, w.key) + [w.rev]];
    numitems' := numitems[w.rev := Num(numitems, w.rev) + 1];
    assert (ws + [w])[..|ws|] == ws;
    forall k
      ensures Group(dstrevmap', k) == RevsFor(ws + [w], k)
    {
      assert Group(dstrevmap, k) == RevsFor(ws, k);
    }
    forall r
      ensures Num(numitems', r) == CountFor(ws + [w], r)
    {
      assert Num(numitems, r) == CountFor(ws, r);
    }
  }

  method GroupWork(tofix: seq<ToFix>, maxfilesize: nat) returns (dstrevmap: map<Key, seq<int>>, numitems: map<int, nat>)
    ensures Grouped(AllWork(tofix, maxfilesize), dstrevmap, numitems)
  {
    dstrevmap, numitems := map[], map[];
    for i := 0 to |tofix|
      invariant Grouped(AllWork(tofix[..i], maxfilesize), dstrevmap, numitems)
    {
      var t := tofix[i];
      ghost var before := AllWork(tofix[..i], maxfilesize);
      assert before + WorkIn(t, t.files[..0], maxfilesize) == before;
      for j := 0 to |t.files|
        invariant Grouped(before + WorkIn(t, t.files[..j], maxfilesize), dstrevmap, numitems)
      {
        var c := t.files[j];
        ghost var ws := before + WorkIn(t, t.files[..j], maxfilesize);
        assert t.files[..j + 1][..j] == t.files[..j];
        if c.link || c.size > maxfilesize {
          assert before + WorkIn(t, t.files[..j + 1], maxfilesize) == ws;
          continue;
        }
        var w := Work(t.rev, Key(c.filerev, t.baserevs, c.path));
        assert before + WorkIn(t, t.files[..j + 1], maxfilesize) == ws + [w];
        dstrevmap, numitems := AddWork(dstrevmap, numitems, w, ws);
      }
      assert t.files[..|t.files|] == t.files && tofix[..i + 1][..i] == tofix[..i];
    }
    assert tofix[..|tofix|] == tofix;
  }

  // What has to be done, told from the files themselves.

  /** The revision has this file to fix: it was selected, is no link and not too large. */
  ghost predicate ToDo(tofix: seq<ToFix>, maxfilesize: nat, t: ToFix, c: Candidate) {
    t in tofix && c in t.files && !c.link && c.size <= maxfilesize
  }

  ghost predicate HasToDo(tofix: seq<ToFix>, maxfilesize: nat, rev: int, path: string) {
    exists t, c :: ToDo(tofix, maxfilesize, t, c) && t.rev == rev && c.path == path
  }

  lemma {:induction false} WorkInHolds(t: ToFix, files: seq<Candidate>, maxfilesize: nat, w: Work)
    ensures w in WorkIn(t, files, maxfilesize) <==>
              exists c :: c in files && !c.link && c.size <= maxfilesize
                          && w == Work(t.rev, Key(c.filerev, t.baserevs, c.path))
  {
    if files != [] {
      WorkInHolds(t, files[..|files| - 1], maxfilesize, w);
      assert files == files[..|files| - 1] + [files[|files| - 1]];
    }
  }

  /** The work is that of the files to fix, each with its file revision and the bases of its revision. */
  lemma {:induction false} AllWorkHolds(tofix: seq<ToFix>, maxfilesize: nat, w: Work)
    ensures w in AllWork(tofix, maxfilesize) <==>
              exists t, c :: ToDo(tofix, maxfilesize, t, c) && w == Work(t.rev, Key(c.filerev, t.baserevs, c.path))
  {
    if tofix != [] {
      var front, t := tofix[..|tofix| - 1], tofix[|tofix| - 1];
      AllWorkHolds(front, maxfilesize, w);
      WorkInHolds(t, t.files, maxfilesize, w);
      assert tofix == front + [t];
      forall u, c
        ensures ToDo(tofix, maxfilesize, u, c) <==>
                  ToDo(front, maxfilesize, u, c) || (u == t && c in t.files && !c.link && c.size <= maxfilesize)
      {
      }
    }
  }

  /** A revision and a path name one file to fix at most. */
  lemma OneToDo(tofix: seq<ToFix>, maxfilesize: nat, t: ToFix, c: Candidate, u: ToFix, d: Candidate)
    requires WellFormed(tofix) && ToDo(tofix, maxfilesize, t, c) && ToDo(tofix, maxfilesize, u, d)
    requires t.rev == u.rev && c.path == d.path
    ensures t == u && c == d
  {
    var i :| 0 <= i < |tofix| && tofix[i] == t;
    var j :| 0 <= j < |tofix| && tofix[j] == u;
    assert i == j;
    var k :| 0 <= k < |t.files| && t.files[k] == c;
    var l :| 0 <= l < |t.files| && t.files[l] == d;
  }

  /** The item is for this file of this revision. */
  predicate Covers(q: Item, rev: int, path: string) {
    rev in q.dstrevs && q.path == path
  }

  /**
   What the queue must be. An item is for nothing but files to fix, its revisions ascending. Each
   file to fix is in exactly one item, and in that once. Two of them are in one item exactly if they agree in path, file
   revision and bases.
   */
  ghost predicate Serves(queue: seq<Item>, tofix: seq<ToFix>, maxfilesize: nat) {
    && (forall i, rev :: 0 <= i < |queue| && rev in queue[i].dstrevs ==>
          HasToDo(tofix, maxfilesize, rev, queue[i].path))
    && (forall t, c :: ToDo(tofix, maxfilesize, t, c) ==> InOneItem(queue, t.rev, c.path))
    && (forall i :: 0 <= i < |queue| ==> Rising(queue[i].dstrevs))
    && (forall t, c, u, d :: ToDo(tofix, maxfilesize, t, c) && ToDo(tofix, maxfilesize, u, d) ==>
          (Together(queue, t.rev, c.path, u.rev, d.path) <==>
           c.path == d.path && c.filerev == d.filerev && t.baserevs == u.baserevs))
  }

  ghost predicate Rising(s: seq<int>) {
    forall i, j :: 0 <= i < j < |s| ==> s[i] < s[j]
  }

  ghost predicate InOneItem(queue: seq<Item>, rev: int, path: string) {
    && (exists i :: 0 <= i < |queue| && Covers(queue[i], rev, path))
    && forall i, j :: 0 <= i < j < |queue| ==> !(Covers(queue[i], rev, path) && Covers(queue[j], rev, path))
  }

  ghost predicate Together(queue: seq<Item>, rev: int, path: string, rev': int, path': string) {
    exists i :: 0 <= i < |queue| && Covers(queue[i], rev, path) && Covers(queue[i], rev', path')
  }

  /** Work is found by ascending revision, and no file of a revision is found twice. */
  ghost predicate Listed(ws: seq<Work>) {
    forall i, j :: 0 <= i < j < |ws| ==>
      ws[i].rev <= ws[j].rev && (ws[i].rev == ws[j].rev ==> ws[i].key.path != ws[j].key.path)
  }

  lemma {:induction false} WorkInIsListed(t: ToFix, files: seq<Candidate>, maxfilesize: nat)
    requires forall i, j :: 0 <= i < j < |files| ==> files[i].path != files[j].path
    ensures Listed(WorkIn(t, files, maxfilesize))
    ensures forall w :: w in WorkIn(t, files, maxfilesize) ==>
              w.rev == t.rev && exists i :: 0 <= i < |files| && files[i].path == w.key.path
  {
    if files != [] {
      var front := files[..|files| - 1];
      WorkInIsListed(t, front, maxfilesize);
      forall w | w in WorkIn(t, files, maxfilesize)
        ensures w.rev == t.rev && exists i :: 0 <= i < |files| && files[i].path == w.key.path
      {
        if w in WorkIn(t, front, maxfilesize) {
          var i :| 0 <= i < |front| && front[i].path == w.key.path;
          assert files[i].path == w.key.path;
        } else {
          assert files[|files| - 1].path == w.key.path;
        }
      }
    }
  }

  lemma {:induction false} AllWorkIsListed(tofix: seq<ToFix>, maxfilesize: nat)
    requires WellFormed(tofix)
    ensures Listed(AllWork(tofix, maxfilesize))
    ensures AllFrom(AllWork(tofix, maxfilesize), tofix)
  {
    if tofix != [] {
      var t, front := tofix[|tofix| - 1], tofix[..|tofix| - 1];
      assert t in tofix && forall u :: u in front ==> u in tofix;
      AllWorkIsListed(front, maxfilesize);
      WorkInIsListed(t, t.files, maxfilesize);
      OneMoreRevision(tofix, AllWork(front, maxfilesize), WorkIn(t, t.files, maxfilesize));
    }
  }

  ghost predicate AllFrom(ws: seq<Work>, tofix: seq<ToFix>) {
    forall w :: w in ws ==> exists i :: 0 <= i < |tofix| && tofix[i].rev == w.rev
  }

  lemma OneMoreRevision(tofix: seq<ToFix>, ws: seq<Work>, more: seq<Work>)
    requires tofix != [] && WellFormed(tofix)
    requires Listed(ws) && Listed(more) && AllFrom(ws, tofix[..|tofix| - 1])
    requires forall w :: w in more ==> w.rev == tofix[|tofix| - 1].rev
    ensures Listed(ws + more) && AllFrom(ws + more, tofix)
  {
    var t := tofix[|tofix| - 1];
    forall w | w in ws
      ensures w.rev < t.rev && exists i :: 0 <= i < |tofix| && tofix[i].rev == w.rev
    {
      var i :| 0 <= i < |tofix| - 1 && tofix[..|tofix| - 1][i].rev == w.rev;
      assert tofix[i].rev == w.rev && tofix[i].rev < tofix[|tofix| - 1].rev;
    }
    forall i, j | 0 <= i < j < |ws + more|
      ensures (ws + more)[i].rev <= (ws + more)[j].rev
      ensures (ws + more)[i].rev == (ws + more)[j].rev ==> (ws + more)[i].key.path != (ws + more)[j].key.path
    {
      if i < |ws| <= j {
        assert ws[i] in ws && more[j - |ws|] in more;
      }
    }
    assert tofix[|tofix| - 1].rev == t.rev;
  }

  lemma {:induction false} RevsForHolds(ws: seq<Work>, key: Key)
    requires Listed(ws)
    ensures forall r :: r in RevsFor(ws, key) <==> Work(r, key) in ws
    ensures forall i, j :: 0 <= i < j < |RevsFor(ws, key)| ==> RevsFor(ws, key)[i] < RevsFor(ws, key)[j]
  {
    if ws != [] {
      var front, w := ws[..|ws| - 1], ws[|ws| - 1];
      RevsForHolds(front, key);
      assert ws == front + [w];
      forall i | 0 <= i < |RevsFor(front, key)| && w.key == key
        ensures RevsFor(front, key)[i] < w.rev
      {
        var r := RevsFor(front, key)[i];
        assert r in RevsFor(front, key);
        var k :| 0 <= k < |front| && front[k] == Work(r, key);
        assert ws[k] == Work(r, key);
      }
    }
  }

  ghost predicate PathFirst(a: string, b: string) {
    FirstDifference((x: char, y: char) => x < y, a, b)
  }

  /** The order of the work queue: by source revision, then by path. */
  predicate Before(a: Item, b: Item) {
    a.srcrev < b.srcrev || (a.srcrev == b.srcrev && StringOrder()(a.path, b.path))
  }

  function ItemOf(dstrevmap: map<Key, seq<int>>, k: Key): Item
    requires k in dstrevmap && dstrevmap[k] != []
  {
    Item(dstrevmap[k][0], k.path, dstrevmap[k])
  }

  /** An item a group, earlier changesets first. */
  method SortGroups(dstrevmap: map<Key, seq<int>>) returns (workqueue: seq<Item>, ghost keys: seq<Key>)
    requires forall k :: k in dstrevmap ==> dstrevmap[k] != []
    ensures |workqueue| == |keys| && Distinct(keys) && Elements(keys) == dstrevmap.Keys
    ensures forall i :: 0 <= i < |keys| ==> keys[i] in dstrevmap && workqueue[i] == ItemOf(dstrevmap, keys[i])
    ensures forall i, j :: 0 <= i < j < |workqueue| ==> !Before(workqueue[j], workqueue[i])
  {
    workqueue, keys := [], [];
    var rest := dstrevmap.Keys;
    while rest != {}
      invariant rest <= dstrevmap.Keys && Elements(keys) + rest == dstrevmap.Keys && Elements(keys) !! rest
      invariant |workqueue| == |keys| && Distinct(keys)
      invariant forall i :: 0 <= i < |keys| ==> keys[i] in dstrevmap && workqueue[i] == ItemOf(dstrevmap, keys[i])
      invariant forall i, j :: 0 <= i < j < |workqueue| ==> !Before(workqueue[j], workqueue[i])
      invariant forall i, k :: 0 <= i < |workqueue| && k in rest ==> !Before(ItemOf(dstrevmap, k), workqueue[i])
    {
      var least := EarliestGroup(dstrevmap, rest);
      assert least !in Elements(keys);
      workqueue := workqueue + [ItemOf(dstrevmap, least)];
      keys := keys + [least];
      rest := rest - {least};
    }
  }

  method EarliestGroup(dstrevmap: map<Key, seq<int>>, rest: set<Key>) returns (least: Key)
    requires rest <= dstrevmap.Keys && rest != {} && forall k :: k in dstrevmap ==> dstrevmap[k] != []
    ensures least in rest && forall k :: k in rest ==> !Before(ItemOf(dstrevmap, k), ItemOf(dstrevmap, least))
  {
    StringsOrdered();
    least :| least in rest;
    var others := rest - {least};
    while others != {}
      invariant least in rest && others <= rest
      invariant forall k :: k in rest ==> k in others || !Before(ItemOf(dstrevmap, k), ItemOf(dstrevmap, least))
    {
      var k :| k in others;
      if Before(ItemOf(dstrevmap, k), ItemOf(dstrevmap, least)) {
        BeforeExtends(ItemOf(dstrevmap, k), ItemOf(dstrevmap, least));
        least := k;
      }
      others := others - {k};
    }
  }

  lemma BeforeExtends(a: Item, b: Item)
    requires Before(a, b)
    ensures !Before(a, a) && forall c :: !Before(c, b) ==> !Before(c, a)
  {
    StringsOrdered();
  }

  /** No two items have the same source and path, so the order of the queue leaves no choice. */
  lemma OneItemPerSource(ws: seq<Work>, k: Key, l: Key)
    requires Listed(ws) && RevsFor(ws, k) != [] && RevsFor(ws, l) != []
    requires k.path == l.path && RevsFor(ws, k)[0] == RevsFor(ws, l)[0]
    ensures k == l
  {
    RevsForHolds(ws, k);
    RevsForHolds(ws, l);
    var rev := RevsFor(ws, k)[0];
    assert rev in RevsFor(ws, k) && rev in RevsFor(ws, l);
    var i :| 0 <= i < |ws| && ws[i] == Work(rev, k);
    var j :| 0 <= j < |ws| && ws[j] == Work(rev, l);
    assert i == j;
  }

  /** `getworkqueue`; `keys` names the group of each item. */
  method GetWorkQueue(tofix: seq<ToFix>, maxfilesize: nat)
    returns (workqueue: seq<Item>, numitems: map<int, nat>, ghost keys: seq<Key>)
    requires WellFormed(tofix)
    ensures forall r :: Num(numitems, r) == CountFor(AllWork(tofix, maxfilesize), r)
    ensures |workqueue| == |keys| && Distinct(keys)
    ensures forall i :: 0 <= i < |keys| ==>
              (workqueue[i].path == keys[i].path
                && workqueue[i].dstrevs == RevsFor(AllWork(tofix, maxfilesize), keys[i]))
    ensures forall i :: 0 <= i < |keys| ==> workqueue[i].dstrevs != [] && workqueue[i].srcrev == workqueue[i].dstrevs[0]
    ensures forall w :: w in AllWork(tofix, maxfilesize) ==> w.key in keys
    ensures forall i, j :: 0 <= i < j < |workqueue| ==>
              workqueue[i].srcrev < workqueue[j].srcrev
              || (workqueue[i].srcrev == workqueue[j].srcrev && PathFirst(workqueue[i].path, workqueue[j].path))
    ensures Serves(workqueue, tofix, maxfilesize)
    ensures forall r :: Num(numitems, r) == |PathsToDo(tofix, maxfilesize, r)|
  {
    var dstrevmap;
    dstrevmap, numitems := GroupWork(tofix, maxfilesize);
    ghost var ws := AllWork(tofix, maxfilesize);
    AllWorkIsListed(tofix, maxfilesize);
    workqueue, keys := SortGroups(dstrevmap);
    forall i | 0 <= i < |keys|
      ensures workqueue[i].dstrevs == RevsFor(ws, keys[i])
    {
      assert Group(dstrevmap, keys[i]) == RevsFor(ws, keys[i]);
    }
    forall w | w in ws
      ensures w.key in keys
    {
      RevsForHolds(ws, w.key);
      assert w == Work(w.rev, w.key);
      assert Group(dstrevmap, w.key) == RevsFor(ws, w.key);
      assert w.key in Elements(keys);
    }
    forall i, j | 0 <= i < j < |workqueue|
      ensures workqueue[i].srcrev < workqueue[j].srcrev
           || (workqueue[i].srcrev == workqueue[j].srcrev && PathFirst(workqueue[i].path, workqueue[j].path))
    {
      SortedApart(ws, keys, workqueue, i, j);
      if workqueue[i].srcrev == workqueue[j].srcrev {
        LexMeans((x: char, y: char) => x < y, workqueue[i].path, workqueue[j].path);
      }
    }
    FilesServed(workqueue, keys, tofix, maxfilesize);
    forall r
      ensures Num(numitems, r) == |PathsToDo(tofix, maxfilesize, r)|
    {
      CountIsToDo(tofix, maxfilesize, r);
      assert Num(numitems, r) == CountFor(ws, r);
    }
  }

  lemma SortedApart(ws: seq<Work>, keys: seq<Key>, workqueue: seq<Item>, i: nat, j: nat)
    requires Listed(ws) && Distinct(keys) && |keys| == |workqueue| && i < j < |keys|
    requires forall k :: 0 <= k < |keys| ==>
               RevsFor(ws, keys[k]) != []
               && workqueue[k] == Item(RevsFor(ws, keys[k])[0], keys[k].path, RevsFor(ws, keys[k]))
    requires !Before(workqueue[j], workqueue[i])
    ensures Before(workqueue[i], workqueue[j])
  {
    StringsOrdered();
    if workqueue[i].srcrev == workqueue[j].srcrev && workqueue[i].path == workqueue[j].path {
      OneItemPerSource(ws, keys[i], keys[j]);
      assert false;
    }
  }

  /** Grouping neither loses nor doubles a file: it is written back by exactly one item, once. */
  lemma EachFileInOneItem(ws: seq<Work>, keys: seq<Key>, w: Work)
    requires Listed(ws) && Distinct(keys) && w in ws && forall v :: v in ws ==> v.key in keys
    ensures exists i, j ::
            0 <= i < |keys| && 0 <= j < |RevsFor(ws, keys[i])| && keys[i] == w.key && RevsFor(ws, keys[i])[j] == w.rev
    ensures forall i, j, i', j' ::
              0 <= i < |keys| && 0 <= j < |RevsFor(ws, keys[i])| && keys[i].path == w.key.path
                && RevsFor(ws, keys[i])[j] == w.rev
              && 0 <= i' < |keys| && 0 <= j' < |RevsFor(ws, keys[i'])| && keys[i'].path == w.key.path
                && RevsFor(ws, keys[i'])[j'] == w.rev
              ==> i == i' && j == j'
  {
    RevsForHolds(ws, w.key);
    var i :| 0 <= i < |keys| && keys[i] == w.key;
    assert Work(w.rev, w.key) in ws;
    var j :| 0 <= j < |RevsFor(ws, keys[i])| && RevsFor(ws, keys[i])[j] == w.rev;
    forall k, l | 0 <= k < |keys| && 0 <= l < |RevsFor(ws, keys[k])| && keys[k].path == w.key.path
      && RevsFor(ws, keys[k])[l] == w.rev
      ensures k == i && l == j
    {
      RevsForHolds(ws, keys[k]);
      assert Work(w.rev, keys[k]) in ws;
      var x :| 0 <= x < |ws| && ws[x] == Work(w.rev, keys[k]);
      var y :| 0 <= y < |ws| && ws[y] == w;
      assert x == y;
    }
  }

  // ---------------------------------------------------------------------------------------
  // Consuming the results

  /** What a worker reports for one file of one revision; None means the content stayed. */
  datatype Result = Result(rev: int, path: string, newdata: Option<string>)

  ghost predicate OncePerFile(results: seq<Result>) {
    forall i, j :: 0 <= i < j < |results| ==> results[i].rev != results[j].rev || results[i].path != results[j].path
  }

  ghost predicate HasResult(results: seq<Result>, rev: int, path: string) {
    exists r :: r in results && r.rev == rev && r.path == path
  }

  ghost predicate HasWork(ws: seq<Work>, rev: int, path: string) {
    exists w :: w in ws && w.rev == rev && w.key.path == path
  }

  /** The results are those of the work, in whatever order they come in. */
  ghost predicate ArriveFor(results: seq<Result>, ws: seq<Work>) {
    OncePerFile(results) && forall rev, path :: HasResult(results, rev, path) <==> HasWork(ws, rev, path)
  }

  /** The files of a revision whose results have not arrived after the first `i`. */
  ghost function Outstanding(results: seq<Result>, i: nat, rev: int): set<string>
    requires i <= |results|
  {
    set k | i <= k < |results| && results[k].rev == rev :: results[k].path
  }

  ghost function PathsOf(ws: seq<Work>, rev: int): set<string> {
    set w | w in ws && w.rev == rev :: w.key.path
  }

  lemma {:induction false} CountIsPaths(ws: seq<Work>, rev: int)
    requires Listed(ws)
    ensures CountFor(ws, rev) == |PathsOf(ws, rev)|
  {
    if ws != [] {
      var front, w := ws[..|ws| - 1], ws[|ws| - 1];
      CountIsPaths(front, rev);
      assert ws == front + [w];
      OneMorePath(front, w, rev);
      if w.rev == rev {
        PathIsNew(front, w);
      }
    }
  }

  lemma OneMorePath(front: seq<Work>, w: Work, rev: int)
    ensures PathsOf(front + [w], rev) == PathsOf(front, rev) + if w.rev == rev then {w.key.path} else {}
  {
    assert forall v :: v in front + [w] <==> v in front || v == w;
  }

  lemma PathIsNew(front: seq<Work>, w: Work)
    requires Listed(front + [w])
    ensures w.key.path !in PathsOf(front, w.rev)
  {
    forall v | v in front && v.rev == w.rev
      ensures v.key.path != w.key.path
    {
      var i :| 0 <= i < |front| && front[i] == v;
      assert (front + [w])[i] == v && (front + [w])[|front|] == w;
    }
  }

  /** The counters that come with the work queue count the results to wait for. */
  lemma CountsAreOutstanding(ws: seq<Work>, results: seq<Result>, rev: int)
    requires Listed(ws) && ArriveFor(results, ws)
    ensures CountFor(ws, rev) == |Outstanding(results, 0, rev)|
  {
    CountIsPaths(ws, rev);
    forall p
      ensures p in PathsOf(ws, rev) <==> p in Outstanding(results, 0, rev)
    {
      assert p in PathsOf(ws, rev) <==> HasWork(ws, rev, p);
      assert p in Outstanding(results, 0, rev) <==> HasResult(results, rev, p) by {
        if r :| r in results && r.rev == rev && r.path == p {
          var k :| 0 <= k < |results| && results[k] == r;
        }
      }
      assert HasResult(results, rev, p) <==> HasWork(ws, rev, p);
    }
    assert PathsOf(ws, rev) == Outstanding(results, 0, rev);
  }

  lemma OneResultFewer(results: seq<Result>, i: nat, rev: int)
    requires OncePerFile(results) && i < |results|
    ensures |Outstanding(results, i + 1, rev)| == |Outstanding(results, i, rev)| -
            if results[i].rev == rev then 1 else 0
  {
    OutstandingBefore(results, i, rev);
    if results[i].rev == rev {
      NotOutstandingAgain(results, i);
    }
  }

  lemma OutstandingBefore(results: seq<Result>, i: nat, rev: int)
    requires i < |results|
    ensures Outstanding(results, i, rev) ==
            Outstanding(results, i + 1, rev) + if results[i].rev == rev then {results[i].path} else {}
  {
    forall path
      ensures path in Outstanding(results, i, rev) <==>
                path in Outstanding(results, i + 1, rev) || (results[i].rev == rev && results[i].path == path)
    {
    }
  }

  lemma NotOutstandingAgain(results: seq<Result>, i: nat)
    requires OncePerFile(results) && i < |results|
    ensures results[i].path !in Outstanding(results, i + 1, results[i].rev)
  {
  }

  lemma CountsAfterResult(results: seq<Result>, i: nat)
    requires OncePerFile(results) && i < |results|
    ensures forall q :: Outstanding(results, i + 1, q) <= Outstanding(results, i, q)
    ensures forall q :: |Outstanding(results, i + 1, q)| ==
                          |Outstanding(results, i, q)| - if results[i].rev == q then 1 else 0
  {
    forall q
      ensures |Outstanding(results, i + 1, q)| == |Outstanding(results, i, q)| - if results[i].rev == q then 1 else 0
    {
      OneResultFewer(results, i, q);
    }
  }

  /** The new contents of a revision among some results. */
  function FilesOf(results: seq<Result>, rev: int): map<string, string> {
    if results == [] then map[]
    else
      var front, r := FilesOf(results[..|results| - 1], rev), results[|results| - 1];
      if r.rev == rev && r.newdata.Some? then front[r.path := r.newdata.value] else front
  }

  /** Which contents a revision gets does not depend on the order of arrival. */
  lemma {:induction false} FilesOfHolds(results: seq<Result>, rev: int, path: string)
    requires OncePerFile(results)
    ensures FileMatches(results, FilesOf(results, rev), rev, path)
  {
    if results != [] {
      var front, last := results[..|results| - 1], results[|results| - 1];
      FilesOfHolds(front, rev, path);
      assert results == front + [last];
      LastIsItsFilesOnly(results);
      OneMoreFile(front, FilesOf(front, rev), last, rev, path);
    }
  }

  lemma LastIsItsFilesOnly(results: seq<Result>)
    requires results != [] && OncePerFile(results)
    ensures var front, last := results[..|results| - 1], results[|results| - 1];
            forall r :: r in front && r.rev == last.rev ==> r.path != last.path
  {
    var front, last := results[..|results| - 1], results[|results| - 1];
    forall r | r in front && r.rev == last.rev
      ensures r.path != last.path
    {
      var i :| 0 <= i < |front| && front[i] == r;
      assert results[i] == r;
    }
  }

  ghost predicate HasNewData(results: seq<Result>, rev: int, path: string) {
    exists r :: r in results && r.rev == rev && r.path == path && r.newdata.Some?
  }

  ghost predicate FileMatches(results: seq<Result>, files: map<string, string>, rev: int, path: string) {
    && (path in files <==> HasNewData(results, rev, path))
    && forall r :: r in results && r.rev == rev && r.path == path && r.newdata.Some? ==>
                     path in files && files[path] == r.newdata.value
  }

  lemma OneMoreFile(front: seq<Result>, files: map<string, string>, last: Result, rev: int, path: string)
    requires FileMatches(front, files, rev, path)
    requires forall r :: r in front && r.rev == last.rev ==> r.path != last.path
    ensures FileMatches(front + [last],
                        if last.rev == rev && last.newdata.Some? then files[last.path := last.newdata.value] else files,
                        rev, path)
  {
    assert forall r :: r in front + [last] <==> r in front || r == last;
  }

  lemma NoneOutstandingAtEnd(results: seq<Result>)
    ensures forall rev :: |Outstanding(results, |results|, rev)| == 0
  {
    assert forall rev :: Outstanding(results, |results|, rev) == {};
  }

  lemma FirstIsOutstanding(results: seq<Result>, i: nat)
    requires i < |results|
    ensures results[i].path in Outstanding(results, i, results[i].rev)
  {
  }

  lemma {:induction false} NothingOutstandingIsFinal(results: seq<Result>, i: nat, rev: int)
    requires i <= |results| && Outstanding(results, i, rev) == {}
    ensures FilesOf(results, rev) == FilesOf(results[..i], rev)
    decreases |results| - i
  {
    if i < |results| {
      FirstIsOutstanding(results, i);
      assert Outstanding(results, i + 1, rev) <= Outstanding(results, i, rev);
      NothingOutstandingIsFinal(results, i + 1, rev);
      assert results[..i + 1][..i] == results[..i];
    } else {
      assert results[..i] == results;
    }
  }

  lemma ArrivalOrderIsIrrelevant(results: seq<Result>, results': seq<Result>, rev: int)
    requires OncePerFile(results) && OncePerFile(results') && Elements(results) == Elements(results')
    ensures FilesOf(results, rev) == FilesOf(results', rev)
  {
    assert forall r :: r in results <==> r in Elements(results);
    assert forall r :: r in results' <==> r in Elements(results');
    forall path
      ensures path in FilesOf(results, rev) <==> path in FilesOf(results', rev)
      ensures path in FilesOf(results, rev) && path in FilesOf(results', rev) ==>
                FilesOf(results, rev)[path] == FilesOf(results', rev)[path]
    {
      FilesOfHolds(results, rev, path);
      FilesOfHolds(results', rev, path);
    }
  }

  /** The number under which the working directory is fixed; it is larger than any revision. */
  const WDIRREV := 0x7fffffff

  /** One revision dealt with: its new contents, and how many results had arrived by then. */
  datatype Done = Done(rev: int, files: map<string, string>, arrived: nat)

  function WithoutWdir(revs: seq<int>): seq<int> {
    if revs == [] then []
    else WithoutWdir(revs[..|revs| - 1]) + if revs[|revs| - 1] == WDIRREV then [] else [revs[|revs| - 1]]
  }

  lemma {:induction false} WithoutWdirHolds(revs: seq<int>)
    ensures forall r :: r in WithoutWdir(revs) <==> r in revs && r != WDIRREV
  {
    if revs != [] {
      var front := revs[..|revs| - 1];
      WithoutWdirHolds(front);
      assert revs == front + [revs[|revs| - 1]];
    }
  }

  ghost function ChangedRevs(results: seq<Result>, revs: seq<int>): set<int> {
    set r | r in revs && FilesOf(results, r) != map[]
  }

  type Increasing = s: seq<int> | forall i, j :: 0 <= i < j < |s| ==> s[i] < s[j] witness []

  /** How far the consuming loop has come. */
  datatype Progress = Progress(
    numitems: map<int, nat>, commitorder: seq<int>, filedata: map<int, map<string, string>>,
    rewritten: Rewritten, wdirwritten: bool, done: seq<Done>)

  function DataIn(filedata: map<int, map<string, string>>, rev: int): map<string, string> {
    if rev in filedata then filedata[rev] else map[]
  }

  predicate FrontIsReady(p: Progress) {
    p.commitorder != [] && Num(p.numitems, p.commitorder[|p.commitorder| - 1]) == 0
  }

  /** The state of the consuming loop of `fix`. */
  class FixRun {
    const parents: Parents
    const succ: map<int, int>
    var numitems: map<int, nat>
    var commitorder: seq<int>
    var filedata: map<int, map<string, string>>
    var rewritten: Rewritten
    var wdirwritten: bool
    var done: seq<Done>

    constructor (parents: Parents, succ: map<int, int>, numitems: map<int, nat>, revs: seq<int>)
      ensures this.parents == parents && this.succ == succ && this.numitems == numitems
      ensures commitorder == Descending(revs, 0) && filedata == map[] && done == []
      ensures rewritten == Rewritten(map[], map[]) && !wdirwritten
    {
      this.parents, this.succ, this.numitems := parents, succ, numitems;
      commitorder, filedata, done := Descending(revs, 0), map[], [];
      rewritten, wdirwritten := Rewritten(map[], map[]), false;
    }

    function View(): Progress
      reads this
    {
      Progress(numitems, commitorder, filedata, rewritten, wdirwritten, done)
    }

    /** What holds after `i` results when `c` revisions have been dealt with. */
    ghost predicate Consumed(results: seq<Result>, revs: seq<int>, i: nat, c: nat)
      requires i <= |results| && c <= |revs|
      requires forall r :: r in revs && r != WDIRREV ==> r in parents && r in succ
      reads this
    {
      Ahead(View(), results, revs, i, c) && Past(View(), results, revs, i, c)
    }

    /** The revisions to come: how many of their results are outstanding, and what arrived for them. */
    ghost predicate Ahead(p: Progress, results: seq<Result>, revs: seq<int>, i: nat, c: nat)
      requires i <= |results| && c <= |revs|
    {
      && p.commitorder == Descending(revs, c)
      && (forall r :: Num(p.numitems, r) == |Outstanding(results, i, r)|)
      && (forall k :: c <= k < |revs| ==> DataIn(p.filedata, revs[k]) == FilesOf(results[..i], revs[k]))
    }

    /** The revisions dealt with: none was too early, and what was made of them. */
    ghost predicate Past(p: Progress, results: seq<Result>, revs: seq<int>, i: nat, c: nat)
      requires i <= |results| && c <= |revs|
      requires forall r :: r in revs && r != WDIRREV ==> r in parents && r in succ
    {
      && |p.done| == c
      && (forall k :: 0 <= k < c ==> Outstanding(results, i, revs[k]) == {})
      && (forall k :: 0 <= k < c ==> DealtWith(results, p.done[k], revs[k], i))
      && (forall k :: 0 <= k < c ==> revs[k] !in p.filedata)
      && p.rewritten == Rewrites(results, revs, c)
      && (p.wdirwritten <==> WDIRREV in ChangedRevs(results, revs[..c]))
    }

    ghost function Rewrites(results: seq<Result>, revs: seq<int>, c: nat): Rewritten
      requires c <= |revs|
      requires forall r :: r in revs && r != WDIRREV ==> r in parents && r in succ
    {
      WithoutWdirHolds(revs[..c]);
      assert forall r :: r in revs[..c] ==> r in revs;
      ReplaceAll(parents, succ, WithoutWdir(revs[..c]), ChangedRevs(results, revs))
    }

    lemma OneMoreRewritten(results: seq<Result>, revs: Increasing, c: nat)
      requires c < |revs| && forall r :: r in revs && r != WDIRREV ==> r in parents && r in succ
      ensures Rewrites(results, revs, c + 1) ==
              var rev, w := revs[c], Rewrites(results, revs, c);
              if rev == WDIRREV then w
              else ReplaceStep(w, rev, parents[rev], FilesOf(results, rev) != map[], succ[rev])
    {
      var rev, before := revs[c], WithoutWdir(revs[..c]);
      assert revs[..c + 1][..c] == revs[..c];
      assert rev in ChangedRevs(results, revs) <==> FilesOf(results, rev) != map[];
      assert WithoutWdir(revs[..c + 1]) == if rev == WDIRREV then before else before + [rev];
      assert (before + [rev])[..|before|] == before;
    }

    /** What is made of a revision of which everything has arrived. */
    ghost predicate CommittedAs(p: Progress, p': Progress, rev: int, files: map<string, string>, arrived: nat)
      requires rev != WDIRREV ==> rev in parents && rev in succ
    {
      && p'.done == p.done + [Done(rev, files, arrived)]
      && p'.filedata == p.filedata - {rev}
      && (if rev == WDIRREV then p'.rewritten == p.rewritten && (p'.wdirwritten <==> files != map[])
          else p'.rewritten == ReplaceStep(p.rewritten, rev, parents[rev], files != map[], succ[rev])
               && p'.wdirwritten == p.wdirwritten)
    }

    lemma OneMorePast(p: Progress, p': Progress, results: seq<Result>, revs: Increasing, arrived: nat, c: nat)
      requires arrived <= |results| && c < |revs|
      requires forall r :: r in revs && r != WDIRREV ==> r in parents && r in succ
      requires Past(p, results, revs, arrived, c) && Outstanding(results, arrived, revs[c]) == {}
      requires CommittedAs(p, p', revs[c], FilesOf(results, revs[c]), arrived)
      ensures Past(p', results, revs, arrived, c + 1)
    {
      OneMoreRewritten(results, revs, c);
      WdirChangedBy(results, revs, c);
      forall k | 0 <= k < c + 1
        ensures Outstanding(results, arrived, revs[k]) == {} && DealtWith(results, p'.done[k], revs[k], arrived)
      {
        if k < c {
          assert p'.done[k] == p.done[k];
        }
      }
    }

    lemma WdirChangedBy(results: seq<Result>, revs: Increasing, c: nat)
      requires c < |revs|
      ensures WDIRREV in ChangedRevs(results, revs[..c + 1]) <==>
                if revs[c] == WDIRREV then FilesOf(results, WDIRREV) != map[]
                else WDIRREV in ChangedRevs(results, revs[..c])
    {
      assert revs[..c + 1] == revs[..c] + [revs[c]];
      if revs[c] == WDIRREV {
        assert forall k :: 0 <= k < c ==> revs[k] != WDIRREV;
      }
    }

    lemma OneLessAhead(p: Progress, p': Progress, results: seq<Result>, revs: Increasing, arrived: nat, c: nat)
      requires arrived <= |results| && c < |revs| && Ahead(p, results, revs, arrived, c)
      requires p'.commitorder == p.commitorder[..|p.commitorder| - 1] && p'.numitems == p.numitems
      requires p'.filedata == p.filedata - {revs[c]}
      ensures Ahead(p', results, revs, arrived, c + 1)
    {
    }

    /** The body of the inner loop: the revision at the front of the queue is ready. */
    method Commit(ghost results: seq<Result>, ghost revs: Increasing, arrived: nat, ghost c: nat)
      requires arrived <= |results| && c < |revs|
      requires forall r :: r in revs && r != WDIRREV ==> r in parents && r in succ
      requires Consumed(results, revs, arrived, c) && Num(numitems, revs[c]) == 0
      modifies this
      ensures Consumed(results, revs, arrived, c + 1)
      ensures numitems == old(numitems)
    {
      ghost var before := View();
      var rev := commitorder[|commitorder| - 1];
      commitorder := commitorder[..|commitorder| - 1];
      assert rev == revs[c] && |Outstanding(results, arrived, rev)| == 0;
      NothingOutstandingIsFinal(results, arrived, rev);
      var files := DataIn(filedata, rev);
      if rev == WDIRREV {
        wdirwritten := files != map[];
      } else {
        rewritten := ReplaceStep(rewritten, rev, parents[rev], files != map[], succ[rev]);
      }
      done := done + [Done(rev, files, arrived)];
      filedata := filedata - {rev};
      OneMorePast(before, View(), results, revs, arrived, c);
      OneLessAhead(before, View(), results, revs, arrived, c);
    }

    /** What one more result changes, for a revision still to come. */
    ghost predicate ReceivedAs(p: Progress, p': Progress, r: Result) {
      && p'.commitorder == p.commitorder && p'.rewritten == p.rewritten && p'.wdirwritten == p.wdirwritten
      && p'.done == p.done && Num(p.numitems, r.rev) > 0
      && p'.numitems == p.numitems[r.rev := Num(p.numitems, r.rev) - 1]
      && p'.filedata ==
         if r.newdata.None? then p.filedata
         else p.filedata[r.rev := DataIn(p.filedata, r.rev)[r.path := r.newdata.value]]
    }

    lemma OneMoreReceived(p: Progress, p': Progress, results: seq<Result>, revs: Increasing, i: nat, c: nat)
      requires i < |results| && c <= |revs| && OncePerFile(results)
      requires Ahead(p, results, revs, i, c) && ReceivedAs(p, p', results[i])
      ensures Ahead(p', results, revs, i + 1, c)
    {
      CountsAfterResult(results, i);
      assert results[..i + 1][..i] == results[..i];
      forall j | c <= j < |revs|
        ensures DataIn(p'.filedata, revs[j]) == FilesOf(results[..i + 1], revs[j])
      {
        assert DataIn(p.filedata, revs[j]) == FilesOf(results[..i], revs[j]);
      }
      forall q
        ensures Num(p'.numitems, q) == |Outstanding(results, i + 1, q)|
      {
        assert Num(p.numitems, q) == |Outstanding(results, i, q)|;
      }
    }

    lemma PastStays(p: Progress, p': Progress, results: seq<Result>, revs: Increasing, i: nat, c: nat)
      requires i < |results| && c <= |revs| && OncePerFile(results)
      requires forall q :: q in revs && q != WDIRREV ==> q in parents && q in succ
      requires Past(p, results, revs, i, c) && ReceivedAs(p, p', results[i])
      ensures Past(p', results, revs, i + 1, c)
    {
      CountsAfterResult(results, i);
      FirstIsOutstanding(results, i);
      forall k | 0 <= k < c
        ensures Outstanding(results, i + 1, revs[k]) == {} && revs[k] !in p'.filedata
        ensures DealtWith(results, p'.done[k], revs[k], i + 1)
      {
        assert Outstanding(results, i, revs[k]) == {} && DealtWith(results, p.done[k], revs[k], i);
      }
    }

    /** `numitems[rev] -= 1`, after the new content of the file was put aside. */
    method Receive(ghost results: seq<Result>, ghost revs: Increasing, r: Result, ghost i: nat, ghost c: nat)
      requires i < |results| && c <= |revs| && r == results[i] && OncePerFile(results)
      requires forall q :: q in revs && q != WDIRREV ==> q in parents && q in succ
      requires r.rev in revs
      requires Consumed(results, revs, i, c)
      modifies this`numitems, this`filedata
      ensures Consumed(results, revs, i + 1, c)
    {
      ghost var before := View();
      FirstIsOutstanding(results, i);
      assert Num(numitems, r.rev) == |Outstanding(results, i, r.rev)| > 0;
      if r.newdata.Some? {
        filedata := filedata[r.rev := DataIn(filedata, r.rev)[r.path := r.newdata.value]];
      }
      numitems := numitems[r.rev := Num(numitems, r.rev) - 1];
      OneMoreReceived(before, View(), results, revs, i, c);
      PastStays(before, View(), results, revs, i, c);
    }

    lemma FrontOfQueue(p: Progress, results: seq<Result>, revs: Increasing, i: nat, c: nat)
      requires i <= |results| && c <= |revs| && Ahead(p, results, revs, i, c)
      ensures FrontIsReady(p) <==> c < |revs| && Num(p.numitems, revs[c]) == 0
    {
    }

    /** The inner loop: what is at the front of the queue and ready is committed. */
    method CommitReady(ghost results: seq<Result>, ghost revs: Increasing, arrived: nat, ghost c: nat)
      returns (ghost c': nat)
      requires arrived <= |results| && c <= |revs|
      requires forall r :: r in revs && r != WDIRREV ==> r in parents && r in succ
      requires Consumed(results, revs, arrived, c)
      modifies this
      ensures c <= c' <= |revs| && Consumed(results, revs, arrived, c')
      ensures c' == |revs| || Num(numitems, revs[c']) > 0
    {
      c' := c;
      while FrontIsReady(View())
        invariant c <= c' <= |revs| && Consumed(results, revs, arrived, c')
        decreases |revs| - c'
      {
        FrontOfQueue(View(), results, revs, arrived, c');
        Commit(results, revs, arrived, c');
        c' := c' + 1;
      }
      FrontOfQueue(View(), results, revs, arrived, c');
    }

    /**
     The consuming loop. Unless no result comes at all, every revision is dealt with exactly
     once and in ascending order, whatever the order of arrival.
     */
    method Consume(results: seq<Result>, ghost revs: Increasing)
      requires OncePerFile(results) && forall r :: r in results ==> r.rev in revs
      requires forall q :: q in revs && q != WDIRREV ==> q in parents && q in succ
      requires Consumed(results, revs, 0, 0)
      modifies this
      ensures results == [] ==> done == [] && rewritten.replacements == map[]
      ensures results != [] ==> Consumed(results, revs, |results|, |revs|)
    {
      ghost var c := 0;
      for i := 0 to |results|
        invariant c <= |revs| && Consumed(results, revs, i, c)
        invariant i == 0 ==> c == 0
        invariant i > 0 ==> c == |revs| || Num(numitems, revs[c]) > 0
      {
        assert results[i] in results;
        Receive(results, revs, results[i], i, c);
        c := CommitReady(results, revs, i + 1, c);
      }
      NoneOutstandingAtEnd(results);
    }
  }

  /** `sorted(revstofix, reverse=True)`, with the first `c` revisions popped from its end. */
  function Descending(revs: seq<int>, c: nat): (r: seq<int>)
    requires c <= |revs|
    ensures |r| == |revs| - c
  {
    seq(|revs| - c, i requires 0 <= i < |revs| - c => revs[|revs| - 1 - i])
  }

  /** A revision was dealt with once, with exactly its new contents, after all its results. */
  ghost predicate DealtWith(results: seq<Result>, d: Done, rev: int, i: nat)
    requires i <= |results|
  {
    && d.rev == rev
    && d.files == FilesOf(results, rev)
    && d.arrived <= i
    && Outstanding(results, d.arrived, rev) == {}
  }

  function RevsOf(tofix: seq<ToFix>): (r: seq<int>)
    ensures |r| == |tofix| && forall i :: 0 <= i < |tofix| ==> r[i] == tofix[i].rev
  {
    seq(|tofix|, i requires 0 <= i < |tofix| => tofix[i].rev)
  }

  lemma ResultsAreListed(tofix: seq<ToFix>, maxfilesize: nat, results: seq<Result>)
    requires WellFormed(tofix) && ArriveFor(results, AllWork(tofix, maxfilesize))
    ensures forall r :: r in results ==> r.rev in RevsOf(tofix)
  {
    AllWorkIsListed(tofix, maxfilesize);
    forall r | r in results
      ensures r.rev in RevsOf(tofix)
    {
      assert HasResult(results, r.rev, r.path) && HasWork(AllWork(tofix, maxfilesize), r.rev, r.path);
      var i :| 0 <= i < |tofix| && tofix[i].rev == r.rev;
      assert RevsOf(tofix)[i] == r.rev;
    }
  }

  lemma AllCountsAreOutstanding(tofix: seq<ToFix>, maxfilesize: nat, results: seq<Result>, numitems: map<int, nat>)
    requires WellFormed(tofix) && ArriveFor(results, AllWork(tofix, maxfilesize))
    requires forall r :: Num(numitems, r) == CountFor(AllWork(tofix, maxfilesize), r)
    ensures forall r :: Num(numitems, r) == |Outstanding(results, 0, r)|
  {
    AllWorkIsListed(tofix, maxfilesize);
    forall r
      ensures Num(numitems, r) == |Outstanding(results, 0, r)|
    {
      CountsAreOutstanding(AllWork(tofix, maxfilesize), results, r);
    }
  }

  // ---------------------------------------------------------------------------------------
  // The workers

  /** What one item yields: the same new content, or none, for each of its revisions. */
  function ItemResults(item: Item, data: Option<string>): (r: seq<Result>)
    ensures |r| == |item.dstrevs| && forall i :: 0 <= i < |r| ==> r[i] == Result(item.dstrevs[i], item.path, data)
  {
    seq(|item.dstrevs|, i requires 0 <= i < |item.dstrevs| => Result(item.dstrevs[i], item.path, data))
  }

  /** `getfixes`, for all items in the order of the queue. */
  function Ungroup(queue: seq<Item>, data: seq<Option<string>>): seq<Result>
    requires |data| == |queue|
  {
    if queue == [] then []
    else Ungroup(queue[..|queue| - 1], data[..|queue| - 1]) + ItemResults(queue[|queue| - 1], data[|queue| - 1])
  }

  /** The results of the items, in any order, with whatever the fixers made of each. */
  ghost predicate Delivered(results: seq<Result>, queue: seq<Item>) {
    exists data :: |data| == |queue| && multiset(results) == multiset(Ungroup(queue, data))
  }

  /** What `getworkqueue` promises about the queue; `keys` names the group of each item. */
  ghost predicate QueueFor(queue: seq<Item>, keys: seq<Key>, ws: seq<Work>) {
    && |queue| == |keys| && Distinct(keys)
    && (forall i :: 0 <= i < |keys| ==> queue[i].path == keys[i].path && queue[i].dstrevs == RevsFor(ws, keys[i]))
    && (forall w :: w in ws ==> w.key in keys)
  }

  lemma {:induction false} UngroupedHolds(queue: seq<Item>, data: seq<Option<string>>, r: Result)
    requires |data| == |queue|
    ensures r in Ungroup(queue, data) <==>
              exists i :: 0 <= i < |queue| && r.rev in queue[i].dstrevs && r.path == queue[i].path
                && r.newdata == data[i]
  {
    if queue != [] {
      var n := |queue| - 1;
      UngroupedHolds(queue[..n], data[..n], r);
      ItemResultsHolds(queue[n], data[n], r);
      assert forall i :: 0 <= i < n ==> queue[..n][i] == queue[i] && data[..n][i] == data[i];
    }
  }

  lemma ItemResultsHolds(item: Item, data: Option<string>, r: Result)
    ensures r in ItemResults(item, data) <==> r.rev in item.dstrevs && r.path == item.path && r.newdata == data
  {
    if r.rev in item.dstrevs && r.path == item.path && r.newdata == data {
      var j :| 0 <= j < |item.dstrevs| && item.dstrevs[j] == r.rev;
      assert ItemResults(item, data)[j] == r;
    }
  }

  /** No two items are for the same file of the same revision, and none is for it twice. */
  lemma ItemsApart(queue: seq<Item>, keys: seq<Key>, ws: seq<Work>, i: nat, i': nat, rev: int)
    requires Listed(ws) && QueueFor(queue, keys, ws) && i < |queue| && i' < |queue|
    requires queue[i].path == queue[i'].path && rev in queue[i].dstrevs && rev in queue[i'].dstrevs
    ensures i == i'
  {
    RevsForHolds(ws, keys[i]);
    var w := Work(rev, keys[i]);
    EachFileInOneItem(ws, keys, w);
    var j :| 0 <= j < |queue[i].dstrevs| && queue[i].dstrevs[j] == rev;
    var j' :| 0 <= j' < |queue[i'].dstrevs| && queue[i'].dstrevs[j'] == rev;
    assert RevsFor(ws, keys[i])[j] == w.rev && RevsFor(ws, keys[i'])[j'] == w.rev;
  }

  lemma {:induction false} UngroupedOnce(queue: seq<Item>, keys: seq<Key>, ws: seq<Work>, data: seq<Option<string>>,
      k: nat)
    requires Listed(ws) && QueueFor(queue, keys, ws) && |data| == |queue| && k <= |queue|
    ensures OncePerFile(Ungroup(queue[..k], data[..k]))
  {
    if k > 0 {
      var front, last := Ungroup(queue[..k - 1], data[..k - 1]), ItemResults(queue[k - 1], data[k - 1]);
      UngroupedOnce(queue, keys, ws, data, k - 1);
      assert queue[..k][..k - 1] == queue[..k - 1] && data[..k][..k - 1] == data[..k - 1];
      RevsForHolds(ws, keys[k - 1]);
      forall x, y | x in front && y in last && x.rev == y.rev
        ensures x.path != y.path
      {
        UngroupedHolds(queue[..k - 1], data[..k - 1], x);
        var i :| 0 <= i < k - 1 && x.rev in queue[..k - 1][i].dstrevs && x.path == queue[..k - 1][i].path;
        if x.path == y.path {
          ItemsApart(queue, keys, ws, i, k - 1, x.rev);
        }
      }
      OnceTogether(front, last);
    }
  }

  lemma OnceTogether(a: seq<Result>, b: seq<Result>)
    requires OncePerFile(a) && OncePerFile(b)
    requires forall x, y :: x in a && y in b && x.rev == y.rev ==> x.path != y.path
    ensures OncePerFile(a + b)
  {
    forall i, j | 0 <= i < j < |a + b|
      ensures (a + b)[i].rev != (a + b)[j].rev || (a + b)[i].path != (a + b)[j].path
    {
      if i < |a| <= j {
        assert a[i] in a && b[j - |a|] in b;
      }
    }
  }

  /** Results that are as often there as in a list without repetitions have none either. */
  lemma OnceInAnyOrder(a: seq<Result>, b: seq<Result>)
    requires OncePerFile(a) && multiset(a) == multiset(b)
    ensures OncePerFile(b)
  {
    forall i, j | 0 <= i < j < |b|
      ensures b[i].rev != b[j].rev || b[i].path != b[j].path
    {
      assert b == b[..j] + ([b[j]] + b[j + 1..]);
      assert multiset(b) == multiset(b[..j]) + multiset([b[j]] + b[j + 1..]);
      assert b[i] == b[..j][i] && b[i] in multiset(b) && b[j] in multiset(b);
      if b[i] == b[j] {
        assert multiset(b)[b[j]] >= 2;
        NoTwice(a, b[j]);
      } else {
        assert b[i] in multiset(a) && b[j] in multiset(a);
      }
    }
  }

  lemma NoTwice(a: seq<Result>, r: Result)
    requires OncePerFile(a)
    ensures multiset(a)[r] <= 1
  {
    if r in a {
      var i :| 0 <= i < |a| && a[i] == r;
      assert a == a[..i] + ([a[i]] + a[i + 1..]);
      assert r !in a[..i] && r !in a[i + 1..];
    }
  }

  /** The item of a key is for a revision and path exactly if this is work with that key. */
  lemma CoversIff(queue: seq<Item>, keys: seq<Key>, ws: seq<Work>, i: nat, rev: int, path: string)
    requires Listed(ws) && QueueFor(queue, keys, ws) && i < |queue|
    ensures Covers(queue[i], rev, path) <==> keys[i].path == path && Work(rev, keys[i]) in ws
  {
    RevsForHolds(ws, keys[i]);
  }

  lemma WorkKey(ws: seq<Work>, rev: int, k: Key, l: Key)
    requires Listed(ws) && Work(rev, k) in ws && Work(rev, l) in ws && k.path == l.path
    ensures k == l
  {
    var i :| 0 <= i < |ws| && ws[i] == Work(rev, k);
    var j :| 0 <= j < |ws| && ws[j] == Work(rev, l);
    assert i == j;
  }

  function KeyOf(t: ToFix, c: Candidate): Key {
    Key(c.filerev, t.baserevs, c.path)
  }

  /** The item that has a file to fix is that of its key. */
  lemma ItemOfFile(queue: seq<Item>, keys: seq<Key>, tofix: seq<ToFix>, maxfilesize: nat, t: ToFix, c: Candidate)
    requires Listed(AllWork(tofix, maxfilesize)) && QueueFor(queue, keys, AllWork(tofix, maxfilesize))
    requires ToDo(tofix, maxfilesize, t, c)
    ensures KeyOf(t, c) in keys
    ensures forall i :: 0 <= i < |queue| ==> (Covers(queue[i], t.rev, c.path) <==> keys[i] == KeyOf(t, c))
  {
    var ws, k := AllWork(tofix, maxfilesize), KeyOf(t, c);
    AllWorkHolds(tofix, maxfilesize, Work(t.rev, k));
    assert Work(t.rev, k).key in keys;
    forall i | 0 <= i < |queue|
      ensures Covers(queue[i], t.rev, c.path) <==> keys[i] == k
    {
      CoversIff(queue, keys, ws, i, t.rev, c.path);
      if Covers(queue[i], t.rev, c.path) {
        WorkKey(ws, t.rev, keys[i], k);
      }
    }
  }

  lemma FilesServed(queue: seq<Item>, keys: seq<Key>, tofix: seq<ToFix>, maxfilesize: nat)
    requires WellFormed(tofix) && QueueFor(queue, keys, AllWork(tofix, maxfilesize))
    ensures Serves(queue, tofix, maxfilesize)
  {
    AllWorkIsListed(tofix, maxfilesize);
    ItemsAreToDo(queue, keys, tofix, maxfilesize);
    forall t, c | ToDo(tofix, maxfilesize, t, c)
      ensures InOneItem(queue, t.rev, c.path)
    {
      FileInOneItem(queue, keys, tofix, maxfilesize, t, c);
    }
    forall t, c, u, d | ToDo(tofix, maxfilesize, t, c) && ToDo(tofix, maxfilesize, u, d)
      ensures Together(queue, t.rev, c.path, u.rev, d.path) <==>
                c.path == d.path && c.filerev == d.filerev && t.baserevs == u.baserevs
    {
      FilesTogether(queue, keys, tofix, maxfilesize, t, c, u, d);
    }
  }

  lemma ItemsAreToDo(queue: seq<Item>, keys: seq<Key>, tofix: seq<ToFix>, maxfilesize: nat)
    requires Listed(AllWork(tofix, maxfilesize)) && QueueFor(queue, keys, AllWork(tofix, maxfilesize))
    ensures forall i, rev :: 0 <= i < |queue| && rev in queue[i].dstrevs ==>
              HasToDo(tofix, maxfilesize, rev, queue[i].path)
    ensures forall i :: 0 <= i < |queue| ==> Rising(queue[i].dstrevs)
  {
    var ws := AllWork(tofix, maxfilesize);
    forall i | 0 <= i < |queue|
      ensures Rising(queue[i].dstrevs)
      ensures forall rev :: rev in queue[i].dstrevs ==> HasToDo(tofix, maxfilesize, rev, queue[i].path)
    {
      RevsForHolds(ws, keys[i]);
      forall rev | rev in queue[i].dstrevs
        ensures HasToDo(tofix, maxfilesize, rev, queue[i].path)
      {
        AllWorkHolds(tofix, maxfilesize, Work(rev, keys[i]));
      }
    }
  }

  lemma FileInOneItem(queue: seq<Item>, keys: seq<Key>, tofix: seq<ToFix>, maxfilesize: nat, t: ToFix, c: Candidate)
    requires Listed(AllWork(tofix, maxfilesize)) && QueueFor(queue, keys, AllWork(tofix, maxfilesize))
    requires ToDo(tofix, maxfilesize, t, c)
    ensures InOneItem(queue, t.rev, c.path)
  {
    ItemOfFile(queue, keys, tofix, maxfilesize, t, c);
    var i :| 0 <= i < |keys| && keys[i] == KeyOf(t, c);
    assert Covers(queue[i], t.rev, c.path);
  }

  lemma FilesTogether(queue: seq<Item>, keys: seq<Key>, tofix: seq<ToFix>, maxfilesize: nat, t: ToFix, c: Candidate,
      u: ToFix, d: Candidate)
    requires Listed(AllWork(tofix, maxfilesize)) && QueueFor(queue, keys, AllWork(tofix, maxfilesize))
    requires ToDo(tofix, maxfilesize, t, c) && ToDo(tofix, maxfilesize, u, d)
    ensures Together(queue, t.rev, c.path, u.rev, d.path) <==>
              c.path == d.path && c.filerev == d.filerev && t.baserevs == u.baserevs
  {
    ItemOfFile(queue, keys, tofix, maxfilesize, t, c);
    ItemOfFile(queue, keys, tofix, maxfilesize, u, d);
    var i :| 0 <= i < |keys| && keys[i] == KeyOf(t, c);
    assert Covers(queue[i], t.rev, c.path);
  }

  /** The paths that a revision has to have fixed. */
  ghost function PathsToDo(tofix: seq<ToFix>, maxfilesize: nat, rev: int): set<string> {
    set t, c | t in tofix && c in t.files && ToDo(tofix, maxfilesize, t, c) && t.rev == rev :: c.path
  }

  lemma CountIsToDo(tofix: seq<ToFix>, maxfilesize: nat, rev: int)
    requires WellFormed(tofix)
    ensures CountFor(AllWork(tofix, maxfilesize), rev) == |PathsToDo(tofix, maxfilesize, rev)|
  {
    var ws := AllWork(tofix, maxfilesize);
    AllWorkIsListed(tofix, maxfilesize);
    CountIsPaths(ws, rev);
    forall path
      ensures path in PathsOf(ws, rev) <==> path in PathsToDo(tofix, maxfilesize, rev)
    {
      WorkIsToDo(tofix, maxfilesize, rev, path);
      assert path in PathsOf(ws, rev) <==> HasWork(ws, rev, path);
    }
    assert PathsOf(ws, rev) == PathsToDo(tofix, maxfilesize, rev);
  }

  lemma WorkIsToDo(tofix: seq<ToFix>, maxfilesize: nat, rev: int, path: string)
    ensures HasWork(AllWork(tofix, maxfilesize), rev, path) <==> HasToDo(tofix, maxfilesize, rev, path)
  {
    var ws := AllWork(tofix, maxfilesize);
    if w :| w in ws && w.rev == rev && w.key.path == path {
      AllWorkHolds(tofix, maxfilesize, w);
    }
    if t, c :| ToDo(tofix, maxfilesize, t, c) && t.rev == rev && c.path == path {
      AllWorkHolds(tofix, maxfilesize, Work(rev, KeyOf(t, c)));
    }
  }

  ghost predicate NothingToDo(tofix: seq<ToFix>, maxfilesize: nat) {
    forall t, c :: !ToDo(tofix, maxfilesize, t, c)
  }

  lemma NoWorkIff(tofix: seq<ToFix>, maxfilesize: nat)
    ensures AllWork(tofix, maxfilesize) == [] <==> NothingToDo(tofix, maxfilesize)
  {
    var ws := AllWork(tofix, maxfilesize);
    if ws != [] {
      AllWorkHolds(tofix, maxfilesize, ws[0]);
    }
    if t, c :| ToDo(tofix, maxfilesize, t, c) {
      AllWorkHolds(tofix, maxfilesize, Work(t.rev, KeyOf(t, c)));
    }
  }

  /** Whatever the workers make of the queue, and in whatever order, it answers all of the work once. */
  lemma DeliveredAnswersWork(queue: seq<Item>, keys: seq<Key>, ws: seq<Work>, results: seq<Result>)
    requires Listed(ws) && QueueFor(queue, keys, ws) && Delivered(results, queue)
    ensures ArriveFor(results, ws)
  {
    var data :| |data| == |queue| && multiset(results) == multiset(Ungroup(queue, data));
    var all := Ungroup(queue, data);
    assert queue[..|queue|] == queue && data[..|queue|] == data;
    UngroupedOnce(queue, keys, ws, data, |queue|);
    OnceInAnyOrder(all, results);
    forall rev, path
      ensures HasResult(results, rev, path) <==> HasWork(ws, rev, path)
    {
      if HasResult(results, rev, path) {
        var r :| r in results && r.rev == rev && r.path == path;
        assert r in multiset(all);
        ResultIsWork(queue, keys, ws, data, r);
      }
      if HasWork(ws, rev, path) {
        var w :| w in ws && w.rev == rev && w.key.path == path;
        var r := WorkHasResult(queue, keys, ws, data, w);
        assert r in multiset(results);
      }
    }
  }

  lemma ResultIsWork(queue: seq<Item>, keys: seq<Key>, ws: seq<Work>, data: seq<Option<string>>, r: Result)
    requires Listed(ws) && QueueFor(queue, keys, ws) && |data| == |queue| && r in Ungroup(queue, data)
    ensures HasWork(ws, r.rev, r.path)
  {
    UngroupedHolds(queue, data, r);
    var i :| 0 <= i < |queue| && r.rev in queue[i].dstrevs && r.path == queue[i].path;
    RevsForHolds(ws, keys[i]);
    assert Work(r.rev, keys[i]) in ws;
  }

  lemma WorkHasResult(queue: seq<Item>, keys: seq<Key>, ws: seq<Work>, data: seq<Option<string>>, w: Work)
    returns (r: Result)
    requires Listed(ws) && QueueFor(queue, keys, ws) && |data| == |queue| && w in ws
    ensures r in Ungroup(queue, data) && r.rev == w.rev && r.path == w.key.path
  {
    var i :| 0 <= i < |keys| && keys[i] == w.key;
    RevsForHolds(ws, w.key);
    assert w == Work(w.rev, w.key) && w.rev in queue[i].dstrevs;
    r := Result(w.rev, w.key.path, data[i]);
    UngroupedHolds(queue, data, r);
  }

  /** The results are none exactly if there is no work. */
  lemma NoResultsIffNoWork(ws: seq<Work>, results: seq<Result>)
    requires ArriveFor(results, ws)
    ensures results == [] <==> ws == []
  {
    if ws != [] {
      assert ws[0] in ws && HasWork(ws, ws[0].rev, ws[0].key.path);
      assert HasResult(results, ws[0].rev, ws[0].key.path);
    }
    if results != [] {
      assert results[0] in results && HasResult(results, results[0].rev, results[0].path);
    }
  }

  /** The results are for the files to fix, told from the files themselves. */
  lemma ResultsAnswerFiles(tofix: seq<ToFix>, maxfilesize: nat, results: seq<Result>)
    requires ArriveFor(results, AllWork(tofix, maxfilesize))
    ensures forall rev, path :: HasResult(results, rev, path) <==> HasToDo(tofix, maxfilesize, rev, path)
    ensures results == [] <==> NothingToDo(tofix, maxfilesize)
  {
    NoResultsIffNoWork(AllWork(tofix, maxfilesize), results);
    NoWorkIff(tofix, maxfilesize);
    forall rev, path
      ensures HasResult(results, rev, path) <==> HasToDo(tofix, maxfilesize, rev, path)
    {
      WorkIsToDo(tofix, maxfilesize, rev, path);
    }
  }

  /** Builds the work queue, and lets the workers loose on it. */
  method StartRun(tofix: seq<ToFix>, maxfilesize: nat, parents: Parents, succ: map<int, int>,
      workers: seq<Item> -> seq<Result>)
    returns (run: FixRun, results: seq<Result>)
    requires WellFormed(tofix) && forall queue :: Delivered(workers(queue), queue)
    requires forall r :: r in RevsOf(tofix) && r != WDIRREV ==> r in parents && r in succ
    ensures fresh(run) && run.parents == parents && run.succ == succ
    ensures ArriveFor(results, AllWork(tofix, maxfilesize)) && run.Consumed(results, RevsOf(tofix), 0, 0)
  {
    var workqueue, numitems, keys := GetWorkQueue(tofix, maxfilesize);
    results := workers(workqueue);
    AllWorkIsListed(tofix, maxfilesize);
    DeliveredAnswersWork(workqueue, keys, AllWork(tofix, maxfilesize), results);
    AllCountsAreOutstanding(tofix, maxfilesize, results, numitems);
    run := new FixRun(parents, succ, numitems, RevsOf(tofix));
  }

  /**
   `fix`, with workers that deliver the results of the queue in any order. If there is any work,
   every revision is dealt with once, in ascending order, with exactly its new contents. The
   commits made are those that come of going through the revisions in order, by
   `AllReplacedAreTheAffected` the changed ones and those that descend from them through revisions
   being fixed.
   */
  method Fix(tofix: seq<ToFix>, maxfilesize: nat, parents: Parents, succ: map<int, int>,
      workers: seq<Item> -> seq<Result>)
    returns (run: FixRun, results: seq<Result>)
    requires WellFormed(tofix) && forall queue :: Delivered(workers(queue), queue)
    requires var revs := WithoutWdir(RevsOf(tofix)); Topological(parents, revs) && Elements(revs) <= succ.Keys
    ensures ArriveFor(results, AllWork(tofix, maxfilesize))
    ensures forall rev, path :: HasResult(results, rev, path) <==> HasToDo(tofix, maxfilesize, rev, path)
    ensures NothingToDo(tofix, maxfilesize) ==> run.done == [] && run.rewritten.replacements == map[]
    ensures !NothingToDo(tofix, maxfilesize) ==> Fixed(run, tofix, parents, succ, results)
  {
    var revs := RevsOf(tofix);
    WithoutWdirHolds(revs);
    run, results := StartRun(tofix, maxfilesize, parents, succ, workers);
    ResultsAreListed(tofix, maxfilesize, results);
    ResultsAnswerFiles(tofix, maxfilesize, results);
    run.Consume(results, revs);
    assert revs[..|revs|] == revs;
  }

  /** Every revision was dealt with, in order and complete, and the commits are those of `ReplaceAll`. */
  ghost predicate Fixed(run: FixRun, tofix: seq<ToFix>, parents: Parents, succ: map<int, int>, results: seq<Result>)
    reads run
  {
    var revs := WithoutWdir(RevsOf(tofix));
    && |run.done| == |tofix|
    && (forall k :: 0 <= k < |tofix| ==> DealtWith(results, run.done[k], tofix[k].rev, |results|))
    && (forall r :: r in revs ==> r in parents && r in succ)
    && run.rewritten == ReplaceAll(parents, succ, revs, ChangedRevs(results, RevsOf(tofix)))
    && (run.wdirwritten <==> WDIRREV in ChangedRevs(results, RevsOf(tofix)))
  }

  lemma AllReplacedAreTheAffected(parents: Parents, succ: map<int, int>, fixed: seq<int>, changed: set<int>)
    requires Topological(parents, fixed) && Elements(fixed) <= succ.Keys
    ensures forall r :: r in fixed ==> r in parents && r in succ
    ensures ReplacedUpTo(parents, succ, fixed, changed, |fixed|, ReplaceAll(parents, succ, fixed, changed))
  {
    assert fixed[..|fixed|] == fixed;
    ReplacedAreTheAffected(parents, succ, fixed, changed, |fixed|);
  }
}
