/**
 Fast-export: the marks it numbers file and changeset ids with, and the stream of blobs and
 commits that refers to them.
 */
module FastExport {
  import opened Lists

  datatype Entry = Entry(node: string, exec: bool)

  /** A changeset: its id, its parents (the null revision left out), its listed files, its manifest. */
  datatype Changeset = Changeset(hash: string, parents: seq<int>, files: seq<string>, manifest: map<string, Entry>)

  /** `M` with the mark of the content, or `D`. */
  datatype Change = Modified(mark: nat, exec: bool) | Deleted

  datatype Event =
    | Blob(mark: nat, node: string)
    | Commit(mark: nat, hash: string, from: Option<nat>, merge: Option<nat>, changes: map<string, Change>)

  /**
   What is assumed of a repository: parents exist and are older, at most two of them; ids are
   unique and no changeset id is a file id; a file a changeset does not list is one of a parent,
   and unless the changeset is a merge it is left as it was.
   */
  ghost predicate RepoOk(repo: map<int, Changeset>) {
    && (forall r :: r in repo ==> |repo[r].parents| <= 2)
    && (forall r :: r in repo ==> forall i :: 0 <= i < |repo[r].parents| ==>
      repo[r].parents[i] in repo && repo[r].parents[i] < r)
    && (forall r, s :: r in repo && s in repo && r != s ==> repo[r].hash != repo[s].hash)
    && (forall r, s, f :: r in repo && s in repo && f in repo[s].manifest ==> repo[r].hash != repo[s].manifest[f].node)
    && (forall r, f :: r in repo && f in repo[r].manifest && f !in repo[r].files ==> Inherited(repo, r, f))
    && (forall r, f :: r in repo && |repo[r].parents| <= 1 && f !in repo[r].files ==>
          EntryOf(repo[r].manifest, f) == EntryOf(FirstParentTree(repo, repo[r]), f))
  }

  function EntryOf(tree: map<string, Entry>, f: string): Option<Entry> {
    if f in tree then Some(tree[f]) else None
  }

  /** What a changeset starts from: the manifest of its first parent, if it has one. */
  function FirstParentTree(repo: map<int, Changeset>, c: Changeset): map<string, Entry> {
    if c.parents == [] || c.parents[0] !in repo then map[] else repo[c.parents[0]].manifest
  }

  ghost predicate Inherited(repo: map<int, Changeset>, r: int, f: string)
    requires r in repo && f in repo[r].manifest
  {
    exists i :: 0 <= i < |repo[r].parents| && repo[r].parents[i] in repo && f in repo[repo[r].parents[i]].manifest
                && repo[repo[r].parents[i]].manifest[f].node == repo[r].manifest[f].node
  }

  type Repo = repo: map<int, Changeset> | RepoOk(repo) witness map[]

  // ---------------------------------------------------------------------------------------
  // Marks

  /** `marks` numbers the ids of `order`, in that order, from 1: a bijection onto 1..n. */
  ghost predicate Numbers(marks: map<string, nat>, order: seq<string>) {
    && Distinct(order)
    && |marks| == |order|
    && (forall i :: 0 <= i < |order| ==> order[i] in marks && marks[order[i]] == i + 1)
    && (forall k :: k in marks ==> 1 <= marks[k] <= |order| && order[marks[k] - 1] == k)
  }

  lemma NumbersNext(marks: map<string, nat>, order: seq<string>, id: string)
    requires Numbers(marks, order) && id !in marks
    ensures Numbers(marks[id := |marks| + 1], order + [id])
  {
    assert forall i :: 0 <= i < |order| ==> order[i] != id;
  }

  lemma SameIds(marks: map<string, nat>, order: seq<string>)
    requires Numbers(marks, order)
    ensures forall k :: k in marks <==> k in order
  {
  }

  function MarkOf(order: seq<string>, id: string): nat
    requires id in order
  {
    if order[0] == id then 1 else 1 + MarkOf(order[1..], id)
  }

  lemma {:induction false} MarkOfHolds(order: seq<string>, id: string)
    requires id in order
    ensures 1 <= MarkOf(order, id) <= |order| && order[MarkOf(order, id) - 1] == id
  {
    if order[0] != id {
      MarkOfHolds(order[1..], id);
    }
  }

  lemma MarksAgree(marks: map<string, nat>, order: seq<string>, id: string)
    requires Numbers(marks, order) && id in order
    ensures id in marks && marks[id] == MarkOf(order, id)
  {
    MarkOfHolds(order, id);
  }

  lemma {:induction false} MarkOfStays(order: seq<string>, more: seq<string>, id: string)
    requires id in order
    ensures id in order + more && MarkOf(order + more, id) == MarkOf(order, id)
  {
    if order[0] != id {
      MarkOfStays(order[1..], more, id);
      assert (order + more)[1..] == order[1..] + more;
    }
  }

  // ---------------------------------------------------------------------------------------
  // What exporting one changeset does, as a function of the ids numbered so far

  predicate Listable(c: Changeset, f: string, order: seq<string>) {
    f in c.manifest && c.manifest[f].node !in order
  }

  /** The ids after the contents of the first files of a changeset were dumped. */
  function WithFiles(order: seq<string>, c: Changeset, files: seq<string>): seq<string> {
    if files == [] then order
    else
      var o, f := WithFiles(order, c, files[..|files| - 1]), files[|files| - 1];
      if Listable(c, f, o) then o + [c.manifest[f].node] else o
  }

  function Blobs(order: seq<string>, from: nat): seq<Event>
    requires from <= |order|
  {
    seq(|order| - from, i requires 0 <= i < |order| - from => Blob(from + i + 1, order[from + i]))
  }

  lemma NextBlob(order: seq<string>, from: nat, id: string)
    requires from <= |order|
    ensures Blobs(order + [id], from) == Blobs(order, from) + [Blob(|order| + 1, id)]
  {
  }

  /** The names whose entries differ between two manifests. */
  function ManifestDiff(a: map<string, Entry>, b: map<string, Entry>): set<string> {
    set f | f in a.Keys + b.Keys && (f !in a || f !in b || a[f] != b[f])
  }

  function TouchedFiles(repo: Repo, c: Changeset): set<string>
    requires forall i :: 0 <= i < |c.parents| ==> c.parents[i] in repo
  {
    if |c.parents| == 2 then ManifestDiff(c.manifest, repo[c.parents[0]].manifest) else set f | f in c.files
  }

  ghost predicate ParentsIn(repo: Repo, c: Changeset, order: seq<string>) {
    forall i :: 0 <= i < |c.parents| ==> c.parents[i] in repo && repo[c.parents[i]].hash in order
  }

  ghost predicate ContentsIn(c: Changeset, order: seq<string>) {
    forall f :: f in c.manifest ==> c.manifest[f].node in order
  }

  /** Every file the commit has to name has a mark for its content. */
  ghost predicate Writable(repo: Repo, c: Changeset, order: seq<string>)
    requires forall i :: 0 <= i < |c.parents| ==> c.parents[i] in repo
  {
    forall f :: f in TouchedFiles(repo, c) && f in c.manifest ==> c.manifest[f].node in order
  }

  ghost function CommitEvent(repo: Repo, c: Changeset, order: seq<string>): Event
    requires |c.parents| <= 2 && ParentsIn(repo, c, order) && Writable(repo, c, order)
  {
    Commit(|order| + 1, c.hash,
           if |c.parents| >= 1 then Some(MarkOf(order, repo[c.parents[0]].hash)) else None,
           if |c.parents| == 2 then Some(MarkOf(order, repo[c.parents[1]].hash)) else None,
           ChangesOf(repo, c, order))
  }

  ghost function ChangesOf(repo: Repo, c: Changeset, order: seq<string>): map<string, Change>
    requires |c.parents| <= 2 && ParentsIn(repo, c, order) && Writable(repo, c, order)
  {
    map f | f in TouchedFiles(repo, c) ::
      if f in c.manifest then Modified(MarkOf(order, c.manifest[f].node), c.manifest[f].exec) else Deleted
  }

  /** Every changeset that has a mark has marks for all its file contents. */
  ghost predicate Complete(repo: Repo, order: seq<string>) {
    forall r :: r in repo && repo[r].hash in order ==> ContentsIn(repo[r], order)
  }

  ghost predicate IsContent(c: Changeset, id: string) {
    exists f :: f in c.manifest && c.manifest[f].node == id
  }

  lemma {:induction false} WithFilesHolds(order: seq<string>, c: Changeset, files: seq<string>)
    requires Distinct(order)
    ensures var o := WithFiles(order, c, files);
            && Distinct(o)
            && |order| <= |o| && o[..|order|] == order
            && (forall i :: |order| <= i < |o| ==> IsContent(c, o[i]))
            && (forall f :: f in files && f in c.manifest ==> c.manifest[f].node in o)
  {
    if files != [] {
      var front, f := files[..|files| - 1], files[|files| - 1];
      WithFilesHolds(order, c, front);
      var o := WithFiles(order, c, front);
      assert forall g :: g in files <==> g in front || g == f;
      if Listable(c, f, o) {
        var o' := o + [c.manifest[f].node];
        assert o' == WithFiles(order, c, files);
        assert o'[..|order|] == o[..|order|];
        forall i | |order| <= i < |o'|
          ensures IsContent(c, o'[i])
        {
          if i < |o| {
            assert o'[i] == o[i];
          } else {
            assert c.manifest[f].node == o'[i];
          }
        }
      }
    }
  }

  /** All contents of a changeset have marks once its listed files are dumped and its parents were exported. */
  lemma ContentsAreMarked(repo: Repo, order: seq<string>, r: int)
    requires r in repo && Distinct(order) && Complete(repo, order)
    requires ParentsIn(repo, repo[r], order)
    ensures var o := WithFiles(order, repo[r], repo[r].files);
            ContentsIn(repo[r], o) && ParentsIn(repo, repo[r], o) && Complete(repo, o)
  {
    var c := repo[r];
    var o := WithFiles(order, c, c.files);
    WithFilesHolds(order, c, c.files);
    assert forall id :: id in order ==> id in o by {
      assert forall i :: 0 <= i < |order| ==> order[i] == o[..|order|][i];
    }
    forall f | f in c.manifest && f !in c.files
      ensures c.manifest[f].node in o
    {
      assert Inherited(repo, r, f);
      var i :| 0 <= i < |c.parents| && c.parents[i] in repo && f in repo[c.parents[i]].manifest
               && repo[c.parents[i]].manifest[f].node == c.manifest[f].node;
      var p := c.parents[i];
      assert repo[p].hash in order && ContentsIn(repo[p], order);
    }
    forall s | s in repo && repo[s].hash in o
      ensures ContentsIn(repo[s], o)
    {
      var i :| 0 <= i < |o| && o[i] == repo[s].hash;
      if |order| <= i {
        assert false;
      }
      assert order[i] == o[..|order|][i];
      assert ContentsIn(repo[s], order);
    }
  }

  // ---------------------------------------------------------------------------------------
  // Streams

  datatype Export = Export(order: seq<string>, stream: seq<Event>)

  ghost predicate Good(repo: Repo, order: seq<string>) {
    Distinct(order) && Complete(repo, order)
  }

  /** A changeset is skipped if it was exported before, or one of its parents was not. */
  ghost predicate Skipped(repo: Repo, order: seq<string>, r: int)
    requires r in repo
  {
    repo[r].hash in order || !ParentsIn(repo, repo[r], order)
  }

  /** The ids that have marks after `export_commit`. */
  ghost function IdsAfterOne(repo: Repo, order: seq<string>, r: int): (o: seq<string>)
    requires r in repo && Distinct(order)
    ensures Distinct(o)
  {
    if Skipped(repo, order, r) then order
    else
      HashIsNew(repo, order, r);
      WithFiles(order, repo[r], repo[r].files) + [repo[r].hash]
  }

  lemma HashIsNew(repo: Repo, order: seq<string>, r: int)
    requires r in repo && Distinct(order) && repo[r].hash !in order
    ensures var o := WithFiles(order, repo[r], repo[r].files);
            Distinct(o) && repo[r].hash !in o && |order| <= |o| && o[..|order|] == order
  {
    var c := repo[r];
    WithFilesHolds(order, c, c.files);
    var o := WithFiles(order, c, c.files);
    forall i | 0 <= i < |o|
      ensures o[i] != c.hash
    {
      if i < |order| {
        assert order[i] == o[..|order|][i];
      } else {
        assert IsContent(c, o[i]);
      }
    }
  }

  ghost predicate AllIn(repo: Repo, revs: seq<int>) {
    forall r :: r in revs ==> r in repo
  }

  ghost function IdsAfter(repo: Repo, order: seq<string>, revs: seq<int>): (o: seq<string>)
    requires Distinct(order) && AllIn(repo, revs)
    ensures Distinct(o)
  {
    if revs == [] then order
    else IdsAfterOne(repo, IdsAfter(repo, order, revs[..|revs| - 1]), revs[|revs| - 1])
  }

  /** Exporting the changeset does not stop at a file whose content has no mark. */
  ghost predicate Exportable(repo: Repo, order: seq<string>, r: int)
    requires r in repo
  {
    Skipped(repo, order, r) || Writable(repo, repo[r], WithFiles(order, repo[r], repo[r].files))
  }

  ghost predicate Runs(repo: Repo, order: seq<string>, revs: seq<int>)
    requires Distinct(order) && AllIn(repo, revs)
  {
    revs == []
    || (Runs(repo, order, revs[..|revs| - 1])
        && Exportable(repo, IdsAfter(repo, order, revs[..|revs| - 1]), revs[|revs| - 1]))
  }

  /** `export_commit` on the ids numbered so far: skipped, or its new blobs and then the commit. */
  ghost function ExportOne(repo: Repo, order: seq<string>, r: int): (e: Export)
    requires r in repo && Distinct(order) && Exportable(repo, order, r)
    ensures e.order == IdsAfterOne(repo, order, r)
  {
    var c := repo[r];
    if Skipped(repo, order, r) then Export(order, [])
    else
      var o := WithFiles(order, c, c.files);
      HashIsNew(repo, order, r);
      ParentsStayIn(repo, c, order, o);
      Export(o + [c.hash], Blobs(o, |order|) + [CommitEvent(repo, c, o)])
  }

  lemma ParentsStayIn(repo: Repo, c: Changeset, order: seq<string>, o: seq<string>)
    requires ParentsIn(repo, c, order) && |order| <= |o| && o[..|order|] == order
    ensures ParentsIn(repo, c, o)
  {
    assert forall id :: id in o[..|order|] ==> id in o;
  }

  /** Exporting some revisions on top of what was exported before. */
  ghost function ExportAll(repo: Repo, before: Export, revs: seq<int>): (e: Export)
    requires Distinct(before.order) && AllIn(repo, revs) && Runs(repo, before.order, revs)
    ensures e.order == IdsAfter(repo, before.order, revs)
  {
    if revs == [] then before
    else
      var e := ExportAll(repo, before, revs[..|revs| - 1]);
      var last := ExportOne(repo, e.order, revs[|revs| - 1]);
      Export(last.order, e.stream + last.stream)
  }

  /** With marks for all contents of the changesets that have marks, an export never stops, and it stays so. */
  lemma {:induction false} CompleteMarksRun(repo: Repo, order: seq<string>, revs: seq<int>)
    requires Good(repo, order) && AllIn(repo, revs)
    ensures Runs(repo, order, revs) && Good(repo, IdsAfter(repo, order, revs))
  {
    if revs != [] {
      CompleteMarksRun(repo, order, revs[..|revs| - 1]);
      var o, r := IdsAfter(repo, order, revs[..|revs| - 1]), revs[|revs| - 1];
      if !Skipped(repo, o, r) {
        ContentsAreMarked(repo, o, r);
        HashIsNew(repo, o, r);
      }
    }
  }

  /** A reference in an event names an id, and the mark is one that was defined before. */
  ghost predicate Refers(order: seq<string>, mark: nat, before: nat, id: string) {
    1 <= mark < before && mark <= |order| && order[mark - 1] == id
  }

  /** The event at a position defines the next mark, and refers only to marks defined before it. */
  ghost predicate EventOk(repo: Repo, order: seq<string>, at: nat, e: Event) {
    && e.mark == at + 1 && at < |order|
    && match e
       case Blob(_, node) => order[at] == node
       case Commit(mark, hash, from, merge, changes) =>
         && order[at] == hash
         && exists r :: r in repo && repo[r].hash == hash && CommitOk(repo, order, repo[r], e)
  }

  /** A merge rewrites what differs from its first parent, any other changeset what it lists. */
  ghost predicate Rewritten(repo: Repo, c: Changeset, f: string) {
    if |c.parents| == 2 then EntryOf(c.manifest, f) != EntryOf(FirstParentTree(repo, c), f) else f in c.files
  }

  ghost predicate CommitOk(repo: Repo, order: seq<string>, c: Changeset, e: Event)
    requires e.Commit?
  {
    && |c.parents| <= 2 && (forall i :: 0 <= i < |c.parents| ==> c.parents[i] in repo)
    && (e.from.Some? <==> |c.parents| >= 1)
    && (e.from.Some? ==> Refers(order, e.from.value, e.mark, repo[c.parents[0]].hash))
    && (e.merge.Some? <==> |c.parents| == 2)
    && (e.merge.Some? ==> Refers(order, e.merge.value, e.mark, repo[c.parents[1]].hash))
    && (forall f :: f in e.changes <==> Rewritten(repo, c, f))
    && (forall f :: f in e.changes ==> ChangeOk(order, c, f, e.mark, e.changes[f]))
  }

  ghost predicate ChangeOk(order: seq<string>, c: Changeset, f: string, before: nat, change: Change) {
    if f in c.manifest then
      change.Modified? && change.exec == c.manifest[f].exec && Refers(order, change.mark, before, c.manifest[f].node)
    else
      change.Deleted?
  }

  ghost predicate StreamOk(repo: Repo, base: nat, order: seq<string>, stream: seq<Event>) {
    && |order| == base + |stream|
    && forall i :: 0 <= i < |stream| ==> EventOk(repo, order, base + i, stream[i])
  }

  lemma RefersToMarkOf(order: seq<string>, more: seq<string>, id: string)
    requires id in order
    ensures Refers(order + more, MarkOf(order, id), |order| + 1, id)
  {
    MarkOfHolds(order, id);
  }

  lemma CommitEventOk(repo: Repo, c: Changeset, o: seq<string>)
    requires |c.parents| <= 2 && ParentsIn(repo, c, o) && Writable(repo, c, o)
    ensures CommitOk(repo, o + [c.hash], c, CommitEvent(repo, c, o))
  {
    var e := CommitEvent(repo, c, o);
    if |c.parents| >= 1 {
      RefersToMarkOf(o, [c.hash], repo[c.parents[0]].hash);
    }
    if |c.parents| == 2 {
      RefersToMarkOf(o, [c.hash], repo[c.parents[1]].hash);
    }
    forall f | f in e.changes
      ensures ChangeOk(o + [c.hash], c, f, e.mark, e.changes[f])
    {
      if f in c.manifest {
        RefersToMarkOf(o, [c.hash], c.manifest[f].node);
      }
    }
  }

  lemma BlobsThenCommitOk(repo: Repo, order: seq<string>, o: seq<string>, r: int)
    requires r in repo && |order| <= |o|
    requires |repo[r].parents| <= 2 && ParentsIn(repo, repo[r], o) && Writable(repo, repo[r], o)
    ensures StreamOk(repo, |order|, o + [repo[r].hash], Blobs(o, |order|) + [CommitEvent(repo, repo[r], o)])
  {
    CommitEventOk(repo, repo[r], o);
    var stream := Blobs(o, |order|) + [CommitEvent(repo, repo[r], o)];
    forall i | 0 <= i < |stream|
      ensures EventOk(repo, o + [repo[r].hash], |order| + i, stream[i])
    {
    }
  }

  lemma ExportOneIsOk(repo: Repo, order: seq<string>, r: int)
    requires r in repo && Distinct(order) && Exportable(repo, order, r)
    ensures order <= ExportOne(repo, order, r).order
    ensures StreamOk(repo, |order|, ExportOne(repo, order, r).order, ExportOne(repo, order, r).stream)
  {
    var c := repo[r];
    if !Skipped(repo, order, r) {
      var o := WithFiles(order, c, c.files);
      HashIsNew(repo, order, r);
      ParentsStayIn(repo, c, order, o);
      BlobsThenCommitOk(repo, order, o, r);
    }
  }

  lemma EventStaysOk(repo: Repo, order: seq<string>, more: seq<string>, at: nat, e: Event)
    requires EventOk(repo, order, at, e)
    ensures EventOk(repo, order + more, at, e)
  {
    if e.Commit? {
      var r :| r in repo && repo[r].hash == e.hash && CommitOk(repo, order, repo[r], e);
      forall f | f in e.changes
        ensures ChangeOk(order + more, repo[r], f, e.mark, e.changes[f])
      {
        assert ChangeOk(order, repo[r], f, e.mark, e.changes[f]);
      }
      assert CommitOk(repo, order + more, repo[r], e);
    }
  }

  /**
   In an exported stream the events number the new ids consecutively, and every `from`,
   `merge` and `M` refers to the right id by a mark defined before.
   */
  lemma {:induction false} StreamNeverDangles(repo: Repo, order: seq<string>, revs: seq<int>)
    requires Distinct(order) && AllIn(repo, revs) && Runs(repo, order, revs)
    ensures var e := ExportAll(repo, Export(order, []), revs);
            order <= e.order && StreamOk(repo, |order|, e.order, e.stream)
  {
    if revs != [] {
      var front, r := revs[..|revs| - 1], revs[|revs| - 1];
      StreamNeverDangles(repo, order, front);
      StreamGrows(repo, order, ExportAll(repo, Export(order, []), front), r);
    }
  }

  lemma StreamGrows(repo: Repo, order: seq<string>, e: Export, r: int)
    requires r in repo && Distinct(e.order) && Exportable(repo, e.order, r)
    requires order <= e.order && StreamOk(repo, |order|, e.order, e.stream)
    ensures var last := ExportOne(repo, e.order, r);
            order <= last.order && StreamOk(repo, |order|, last.order, e.stream + last.stream)
  {
    ExportOneIsOk(repo, e.order, r);
    var last := ExportOne(repo, e.order, r);
    var more := last.order[|e.order|..];
    assert last.order == e.order + more;
    forall i | 0 <= i < |e.stream|
      ensures EventOk(repo, last.order, |order| + i, e.stream[i])
    {
      EventStaysOk(repo, e.order, more, |order| + i, e.stream[i]);
    }
  }

  // ---------------------------------------------------------------------------------------
  // Importing the stream again

  /** What an importer holds: by mark the contents, and the trees and parents of the commits. */
  datatype Imported = Imported(
    blobs: map<nat, string>, trees: map<nat, map<string, Entry>>, parents: map<nat, seq<nat>>)

  /** The changes laid over a tree: `D` takes a name away, `M` sets its content and its flag. */
  function Laid(tree: map<string, Entry>, changes: map<string, Change>, blobs: map<nat, string>): map<string, Entry> {
    map f | f in tree.Keys + changes.Keys && (f in changes ==> changes[f].Modified? && changes[f].mark in blobs) ::
      if f in changes then Entry(blobs[changes[f].mark], changes[f].exec) else tree[f]
  }

  function MarksIn(mark: Option<nat>): seq<nat> {
    if mark.Some? then [mark.value] else []
  }

  /** A commit starts from the tree of the commit that `from` names, or from nothing. */
  function ImportEvent(st: Imported, e: Event): Imported {
    match e
    case Blob(mark, node) => st.(blobs := st.blobs[mark := node])
    case Commit(mark, _, from, merge, changes) =>
      var base := if from.Some? && from.value in st.trees then st.trees[from.value] else map[];
      st.(trees := st.trees[mark := Laid(base, changes, st.blobs)],
          parents := st.parents[mark := MarksIn(from) + MarksIn(merge)])
  }

  function ImportStream(st: Imported, stream: seq<Event>): Imported {
    if stream == [] then st else ImportEvent(ImportStream(st, stream[..|stream| - 1]), stream[|stream| - 1])
  }

  lemma {:induction false} ImportConcat(st: Imported, a: seq<Event>, b: seq<Event>)
    ensures ImportStream(st, a + b) == ImportStream(ImportStream(st, a), b)
  {
    if b == [] {
      assert a + b == a;
    } else {
      ImportConcat(st, a, b[..|b| - 1]);
      assert (a + b)[..|a + b| - 1] == a + b[..|b| - 1];
    }
  }

  /** The importer has the changeset under this mark: its tree, and its parents in their order. */
  ghost predicate HasChangeset(repo: Repo, order: seq<string>, st: Imported, r: int, mark: nat)
    requires r in repo
  {
    && mark in st.trees && st.trees[mark] == repo[r].manifest
    && mark in st.parents && |st.parents[mark]| == |repo[r].parents|
    && forall i :: 0 <= i < |repo[r].parents| ==>
         Names(order, st.parents[mark][i], repo[repo[r].parents[i]].hash)
  }

  ghost predicate Names(order: seq<string>, mark: nat, id: string) {
    1 <= mark <= |order| && order[mark - 1] == id
  }

  /** The importer has all that has a mark. */
  ghost predicate InStep(repo: Repo, order: seq<string>, st: Imported) {
    && (forall i, r :: 0 <= i < |order| && r in repo && repo[r].hash == order[i] ==>
          HasChangeset(repo, order, st, r, i + 1))
    && (forall i :: 0 <= i < |order| && IsFileId(repo, order[i]) ==>
          i + 1 in st.blobs && st.blobs[i + 1] == order[i])
  }

  lemma {:induction false} ImportBlobs(repo: Repo, order: seq<string>, more: seq<string>, st: Imported)
    requires InStep(repo, order, st) && forall i :: 0 <= i < |more| ==> IsFileId(repo, more[i])
    ensures InStep(repo, order + more, ImportStream(st, Blobs(order + more, |order|)))
  {
    if more == [] {
      assert order + more == order && Blobs(order, |order|) == [];
      assert ImportStream(st, []) == st;
    } else {
      var front, id := more[..|more| - 1], more[|more| - 1];
      ImportBlobs(repo, order, front, st);
      OneMoreBlob(repo, order, order + front, st, id);
      assert order + more == (order + front) + [id];
    }
  }

  lemma OneMoreBlob(repo: Repo, order: seq<string>, o: seq<string>, st: Imported, id: string)
    requires |order| <= |o| && IsFileId(repo, id) && InStep(repo, o, ImportStream(st, Blobs(o, |order|)))
    ensures InStep(repo, o + [id], ImportStream(st, Blobs(o + [id], |order|)))
  {
    NextBlob(o, |order|, id);
    ImportConcat(st, Blobs(o, |order|), [Blob(|o| + 1, id)]);
    ImportOneBlob(repo, o, ImportStream(st, Blobs(o, |order|)), id);
  }

  lemma ImportOneBlob(repo: Repo, o: seq<string>, st: Imported, id: string)
    requires InStep(repo, o, st) && IsFileId(repo, id)
    ensures InStep(repo, o + [id], ImportStream(st, [Blob(|o| + 1, id)]))
  {
    var e := Blob(|o| + 1, id);
    assert [e][..0] == [] && ImportStream(st, []) == st && ImportStream(st, [e]) == ImportEvent(st, e);
    forall i, r | 0 <= i < |o + [id]| && r in repo && repo[r].hash == (o + [id])[i]
      ensures HasChangeset(repo, o + [id], ImportEvent(st, e), r, i + 1)
    {
      assert i < |o| by {
        FileIsNoChangeset(repo, id, r);
      }
      assert HasChangeset(repo, o, st, r, i + 1);
    }
  }

  lemma FileIsNoChangeset(repo: Repo, id: string, r: int)
    requires IsFileId(repo, id) && r in repo
    ensures repo[r].hash != id
  {
    var s :| s in repo && IsContent(repo[s], id);
    var f :| f in repo[s].manifest && repo[s].manifest[f].node == id;
  }

  /** The changes of a commit, laid over the tree it starts from, make the tree of the changeset. */
  lemma TreeRebuilt(repo: Repo, r: int, o: seq<string>, blobs: map<nat, string>)
    requires r in repo && ParentsIn(repo, repo[r], o) && Writable(repo, repo[r], o)
    requires forall i :: 0 <= i < |o| && IsFileId(repo, o[i]) ==> i + 1 in blobs && blobs[i + 1] == o[i]
    ensures Laid(FirstParentTree(repo, repo[r]), ChangesOf(repo, repo[r], o), blobs) == repo[r].manifest
  {
    var c := repo[r];
    var changes, tree := ChangesOf(repo, c, o), FirstParentTree(repo, c);
    forall f
      ensures EntryOf(Laid(tree, changes, blobs), f) == EntryOf(c.manifest, f)
    {
      TouchedAreRewritten(repo, c, f);
      if f in changes && f in c.manifest {
        MarkOfHolds(o, c.manifest[f].node);
        assert IsContent(c, c.manifest[f].node);
      }
    }
    SameTrees(Laid(tree, changes, blobs), c.manifest);
  }

  lemma SameTrees(x: map<string, Entry>, y: map<string, Entry>)
    requires forall f :: EntryOf(x, f) == EntryOf(y, f)
    ensures x == y
  {
    forall f
      ensures f in x <==> f in y
      ensures f in x ==> x[f] == y[f]
    {
      assert EntryOf(x, f) == EntryOf(y, f);
    }
  }

  lemma TouchedAreRewritten(repo: Repo, c: Changeset, f: string)
    requires |c.parents| <= 2 && forall i :: 0 <= i < |c.parents| ==> c.parents[i] in repo
    ensures f in TouchedFiles(repo, c) <==> Rewritten(repo, c, f)
  {
  }

  lemma ParentsNamed(repo: Repo, c: Changeset, o: seq<string>)
    requires |c.parents| <= 2 && ParentsIn(repo, c, o) && Writable(repo, c, o)
    ensures var e := CommitEvent(repo, c, o);
            var marks := MarksIn(e.from) + MarksIn(e.merge);
            |marks| == |c.parents| && forall i :: 0 <= i < |marks| ==> Names(o, marks[i], repo[c.parents[i]].hash)
  {
    forall i | 0 <= i < |c.parents|
      ensures Names(o, MarkOf(o, repo[c.parents[i]].hash), repo[c.parents[i]].hash)
    {
      MarkOfHolds(o, repo[c.parents[i]].hash);
    }
  }

  /** One commit more, on an importer that has everything marked so far. */
  lemma ImportCommit(repo: Repo, r: int, o: seq<string>, st: Imported)
    requires r in repo && Distinct(o) && repo[r].hash !in o && InStep(repo, o, st)
    requires ParentsIn(repo, repo[r], o) && Writable(repo, repo[r], o)
    ensures InStep(repo, o + [repo[r].hash], ImportStream(st, [CommitEvent(repo, repo[r], o)]))
  {
    var c := repo[r];
    var e := CommitEvent(repo, c, o);
    assert [e][..0] == [] && ImportStream(st, []) == st && ImportStream(st, [e]) == ImportEvent(st, e);
    ParentsNamed(repo, c, o);
    if c.parents != [] {
      assert HasChangeset(repo, o, st, c.parents[0], e.from.value);
    }
    TreeRebuilt(repo, r, o, st.blobs);
    NewChangesetInStep(repo, r, o, st, ImportEvent(st, e));
  }

  lemma NewChangesetInStep(repo: Repo, r: int, o: seq<string>, st: Imported, st': Imported)
    requires r in repo && repo[r].hash !in o && InStep(repo, o, st) && st'.blobs == st.blobs
    requires HasChangeset(repo, o, st', r, |o| + 1)
    requires st'.trees == st.trees[|o| + 1 := repo[r].manifest]
    requires |o| + 1 in st'.parents && st'.parents == st.parents[|o| + 1 := st'.parents[|o| + 1]]
    ensures InStep(repo, o + [repo[r].hash], st')
  {
    var o' := o + [repo[r].hash];
    forall i, s | 0 <= i < |o'| && s in repo && repo[s].hash == o'[i]
      ensures HasChangeset(repo, o', st', s, i + 1)
    {
      if i < |o| {
        assert HasChangeset(repo, o, st, s, i + 1);
      } else {
        assert s == r;
      }
    }
    if IsFileId(repo, repo[r].hash) {
      FileIsNoChangeset(repo, repo[r].hash, r);
    }
  }

  lemma ImportOne(repo: Repo, order: seq<string>, r: int, st: Imported)
    requires r in repo && Distinct(order) && Exportable(repo, order, r) && InStep(repo, order, st)
    ensures var e := ExportOne(repo, order, r); InStep(repo, e.order, ImportStream(st, e.stream))
  {
    if !Skipped(repo, order, r) {
      var c := repo[r];
      var o := WithFiles(order, c, c.files);
      HashIsNew(repo, order, r);
      ParentsStayIn(repo, c, order, o);
      WithFilesHolds(order, c, c.files);
      assert forall i :: |order| <= i < |o| ==> IsContent(c, o[i]);
      assert o == order + o[|order|..];
      ImportBlobs(repo, order, o[|order|..], st);
      ImportConcat(st, Blobs(o, |order|), [CommitEvent(repo, c, o)]);
      ImportCommit(repo, r, o, ImportStream(st, Blobs(o, |order|)));
    }
  }

  /**
   Importing what an export wrote, on top of what was imported before, gives every changeset that
   has a mark now its own tree and its own parents.
   */
  lemma {:induction false} ImportRebuilds(repo: Repo, order: seq<string>, revs: seq<int>, st: Imported)
    requires Distinct(order) && AllIn(repo, revs) && Runs(repo, order, revs) && InStep(repo, order, st)
    ensures var e := ExportAll(repo, Export(order, []), revs);
            InStep(repo, e.order, ImportStream(st, e.stream))
  {
    if revs != [] {
      var front, r := revs[..|revs| - 1], revs[|revs| - 1];
      ImportRebuilds(repo, order, front, st);
      var e := ExportAll(repo, Export(order, []), front);
      ImportOne(repo, e.order, r, ImportStream(st, e.stream));
      ImportConcat(st, e.stream, ExportOne(repo, e.order, r).stream);
    }
  }

  /** From nothing, every exported changeset comes back, whatever was exported. */
  lemma ExportedComesBack(repo: Repo, revs: seq<int>, r: int)
    requires AllIn(repo, revs) && r in repo
    ensures Runs(repo, [], revs)
    ensures var e := ExportAll(repo, Export([], []), revs);
            repo[r].hash in e.order ==>
              exists mark :: HasChangeset(repo, e.order, ImportStream(Imported(map[], map[], map[]), e.stream), r, mark)
  {
    CompleteMarksRun(repo, [], revs);
    var e, st := ExportAll(repo, Export([], []), revs), Imported(map[], map[], map[]);
    ImportRebuilds(repo, [], revs, st);
    if repo[r].hash in e.order {
      var i :| 0 <= i < |e.order| && e.order[i] == repo[r].hash;
      assert HasChangeset(repo, e.order, ImportStream(st, e.stream), r, i + 1);
    }
  }

  /** Exporting in two goes is exporting at once; it stops in both cases or in neither. */
  lemma {:induction false} ExportInTwoGoes(repo: Repo, before: Export, revs: seq<int>, later: seq<int>)
    requires Distinct(before.order) && AllIn(repo, revs) && AllIn(repo, later)
    ensures AllIn(repo, revs + later)
    ensures IdsAfter(repo, IdsAfter(repo, before.order, revs), later) == IdsAfter(repo, before.order, revs + later)
    ensures Runs(repo, before.order, revs + later) <==>
              Runs(repo, before.order, revs) && Runs(repo, IdsAfter(repo, before.order, revs), later)
    ensures Runs(repo, before.order, revs + later) ==>
              ExportAll(repo, ExportAll(repo, before, revs), later) == ExportAll(repo, before, revs + later)
  {
    if later == [] {
      assert revs + later == revs;
    } else {
      ExportInTwoGoes(repo, before, revs, later[..|later| - 1]);
      assert (revs + later)[..|revs + later| - 1] == revs + later[..|later| - 1];
    }
  }

  /** What was written to the stream before does not affect what is written next. */
  lemma {:induction false} StreamsAppend(repo: Repo, before: Export, revs: seq<int>)
    requires Distinct(before.order) && AllIn(repo, revs) && Runs(repo, before.order, revs)
    ensures ExportAll(repo, before, revs).stream ==
            before.stream + ExportAll(repo, Export(before.order, []), revs).stream
  {
    if revs != [] {
      var front, r := revs[..|revs| - 1], revs[|revs| - 1];
      StreamsAppend(repo, before, front);
      var alone := ExportAll(repo, Export(before.order, []), front);
      ConcatAssociates(before.stream, alone.stream, ExportOne(repo, alone.order, r).stream);
    } else {
      assert before.stream + [] == before.stream;
    }
  }

  // ---------------------------------------------------------------------------------------
  // Which changesets are exported, and which contents have marks then

  ghost predicate Ascending(revs: seq<int>) {
    forall i, j :: 0 <= i < j < |revs| ==> revs[i] < revs[j]
  }

  lemma IdsAdded(repo: Repo, order: seq<string>, r: int, s: int)
    requires r in repo && s in repo && Distinct(order)
    ensures repo[s].hash in IdsAfterOne(repo, order, r) <==>
              repo[s].hash in order || (s == r && ParentsIn(repo, repo[r], order))
  {
    var c := repo[r];
    if !Skipped(repo, order, r) {
      var o := WithFiles(order, c, c.files);
      WithFilesHolds(order, c, c.files);
      assert repo[s].hash in o ==> repo[s].hash in order by {
        if i :| 0 <= i < |o| && o[i] == repo[s].hash {
          if |order| <= i {
            assert IsContent(c, o[i]);
          } else {
            assert order[i] == o[..|order|][i];
          }
        }
      }
      assert repo[s].hash in order ==> repo[s].hash in o by {
        if i :| 0 <= i < |order| && order[i] == repo[s].hash {
          assert order[i] == o[..|order|][i];
        }
      }
    }
  }

  /** A changeset is skipped exactly if one of its parents is never exported. */
  lemma {:induction false} ExportedIffParentsAre(repo: Repo, order: seq<string>, revs: seq<int>, r: int)
    requires Distinct(order) && AllIn(repo, revs) && Ascending(revs) && r in repo
    ensures var done := IdsAfter(repo, order, revs);
            && (repo[r].hash in order ==> repo[r].hash in done)
            && (repo[r].hash in done <==> repo[r].hash in order || (r in revs && ParentsIn(repo, repo[r], done)))
  {
    if revs != [] {
      var front, last := revs[..|revs| - 1], revs[|revs| - 1];
      var o := IdsAfter(repo, order, front);
      ExportedIffParentsAre(repo, order, front, r);
      assert forall q :: q in revs <==> q in front || q == last;
      IdsAdded(repo, o, last, r);
      forall i | 0 <= i < |repo[r].parents| && (r == last || r in front)
        ensures repo[repo[r].parents[i]].hash in IdsAfterOne(repo, o, last) <==> repo[repo[r].parents[i]].hash in o
      {
        IdsAdded(repo, o, last, repo[r].parents[i]);
        if r in front {
          var k :| 0 <= k < |front| && revs[k] == r;
          assert revs[k] < revs[|revs| - 1];
        }
      }
    }
  }

  /** The changeset is exported by this export. */
  ghost predicate Exported(repo: Repo, order: seq<string>, revs: seq<int>, r: int)
    requires Distinct(order) && AllIn(repo, revs)
  {
    r in revs && repo[r].hash !in order && repo[r].hash in IdsAfter(repo, order, revs)
  }

  ghost predicate HasContent(c: Changeset, id: string) {
    exists f :: f in c.files && f in c.manifest && c.manifest[f].node == id
  }

  /** A changeset up to `r` is exported that lists the content. */
  ghost predicate Dumped(repo: Repo, order: seq<string>, revs: seq<int>, r: int, id: string)
    requires Distinct(order) && AllIn(repo, revs)
  {
    exists s :: s in revs && s <= r && Exported(repo, order, revs, s) && HasContent(repo[s], id)
  }

  ghost predicate IsFileId(repo: Repo, id: string) {
    exists r :: r in repo && IsContent(repo[r], id)
  }

  lemma {:induction false} WithFilesExactly(order: seq<string>, c: Changeset, files: seq<string>, id: string)
    ensures id in WithFiles(order, c, files) <==>
              id in order || exists f :: f in files && f in c.manifest && c.manifest[f].node == id
  {
    if files != [] {
      WithFilesExactly(order, c, files[..|files| - 1], id);
      assert files == files[..|files| - 1] + [files[|files| - 1]];
    }
  }

  lemma OneMoreExported(repo: Repo, order: seq<string>, revs: seq<int>, s: int)
    requires Distinct(order) && AllIn(repo, revs) && Ascending(revs) && revs != [] && s in revs
    ensures var front, last := revs[..|revs| - 1], revs[|revs| - 1];
            if s == last then
              s !in front && (Exported(repo, order, revs, s) <==> !Skipped(repo, IdsAfter(repo, order, front), s))
            else s in front && s < last && (Exported(repo, order, revs, s) <==> Exported(repo, order, front, s))
  {
    var front, last := revs[..|revs| - 1], revs[|revs| - 1];
    assert revs == front + [last];
    assert forall q :: q in front ==> q < last;
    ExportedIffParentsAre(repo, order, front, s);
    IdsAdded(repo, IdsAfter(repo, order, front), last, s);
  }

  /** Among the file ids, exactly those marked before and those listed by an exported changeset have marks. */
  lemma {:induction false} MarkedContents(repo: Repo, order: seq<string>, revs: seq<int>, r: int, id: string)
    requires Distinct(order) && AllIn(repo, revs) && Ascending(revs) && IsFileId(repo, id)
    requires forall s :: s in revs ==> s <= r
    ensures id in IdsAfter(repo, order, revs) <==> id in order || Dumped(repo, order, revs, r, id)
  {
    if revs != [] {
      var front, last := revs[..|revs| - 1], revs[|revs| - 1];
      var o := IdsAfter(repo, order, front);
      assert revs == front + [last];
      assert forall s :: s in front ==> s in revs;
      MarkedContents(repo, order, front, r, id);
      WithFilesExactly(o, repo[last], repo[last].files, id);
      forall s | s in revs
        ensures Exported(repo, order, revs, s) <==>
                  if s == last then !Skipped(repo, o, s) else Exported(repo, order, front, s)
      {
        OneMoreExported(repo, order, revs, s);
      }
      assert id != repo[last].hash;
    }
  }

  /** The content is marked beforehand, or dumped by the time `r` is written. */
  ghost predicate Available(repo: Repo, order: seq<string>, revs: seq<int>, r: int)
    requires Distinct(order) && AllIn(repo, revs) && r in repo
  {
    forall f :: Rewritten(repo, repo[r], f) && f in repo[r].manifest ==>
      repo[r].manifest[f].node in order || Dumped(repo, order, revs, r, repo[r].manifest[f].node)
  }

  /**
   An export goes through exactly if every file that an exported changeset has to name has its
   content in the marks file, or listed by a changeset exported up to then.
   */
  lemma {:induction false} RunsIff(repo: Repo, order: seq<string>, revs: seq<int>)
    requires Distinct(order) && AllIn(repo, revs) && Ascending(revs)
    ensures Runs(repo, order, revs) <==>
              forall r :: r in revs && Exported(repo, order, revs, r) ==> Available(repo, order, revs, r)
  {
    if revs != [] {
      var front, last := revs[..|revs| - 1], revs[|revs| - 1];
      assert revs == front + [last];
      RunsIff(repo, order, front);
      forall r | r in front
        ensures Exported(repo, order, revs, r) <==> Exported(repo, order, front, r)
        ensures Available(repo, order, revs, r) <==> Available(repo, order, front, r)
      {
        AvailableAsBefore(repo, order, revs, r);
        OneMoreExported(repo, order, revs, r);
      }
      LastIsExportable(repo, order, revs);
    }
  }

  lemma AvailableAsBefore(repo: Repo, order: seq<string>, revs: seq<int>, r: int)
    requires Distinct(order) && AllIn(repo, revs) && Ascending(revs) && revs != [] && r in revs[..|revs| - 1]
    ensures r in revs && r != revs[|revs| - 1]
    ensures Available(repo, order, revs, r) <==> Available(repo, order, revs[..|revs| - 1], r)
  {
    var front, last := revs[..|revs| - 1], revs[|revs| - 1];
    assert revs == front + [last] && r < last;
    forall id
      ensures Dumped(repo, order, revs, r, id) <==> Dumped(repo, order, front, r, id)
    {
      forall s | s in revs && s <= r
        ensures s in front && (Exported(repo, order, revs, s) <==> Exported(repo, order, front, s))
      {
        OneMoreExported(repo, order, revs, s);
      }
    }
  }

  lemma LastIsExportable(repo: Repo, order: seq<string>, revs: seq<int>)
    requires Distinct(order) && AllIn(repo, revs) && Ascending(revs) && revs != []
    ensures var last := revs[|revs| - 1];
            Exportable(repo, IdsAfter(repo, order, revs[..|revs| - 1]), last) <==>
              (Exported(repo, order, revs, last) ==> Available(repo, order, revs, last))
  {
    var front, last := revs[..|revs| - 1], revs[|revs| - 1];
    OneMoreExported(repo, order, revs, last);
    if !Skipped(repo, IdsAfter(repo, order, front), last) {
      var o := WithFiles(IdsAfter(repo, order, front), repo[last], repo[last].files);
      IdsAfterLast(repo, order, revs);
      WritableIff(repo, repo[last], o);
      forall f | f in repo[last].manifest
        ensures repo[last].manifest[f].node in o <==>
                  repo[last].manifest[f].node in order || Dumped(repo, order, revs, last, repo[last].manifest[f].node)
      {
        assert IsContent(repo[last], repo[last].manifest[f].node);
        ContentOfLast(repo, order, revs, last, o, repo[last].manifest[f].node);
      }
    }
  }

  lemma IdsAfterLast(repo: Repo, order: seq<string>, revs: seq<int>)
    requires Distinct(order) && AllIn(repo, revs) && revs != []
    requires !Skipped(repo, IdsAfter(repo, order, revs[..|revs| - 1]), revs[|revs| - 1])
    ensures var c := repo[revs[|revs| - 1]];
            IdsAfter(repo, order, revs) == WithFiles(IdsAfter(repo, order, revs[..|revs| - 1]), c, c.files) + [c.hash]
  {
  }

  lemma WritableIff(repo: Repo, c: Changeset, o: seq<string>)
    requires |c.parents| <= 2 && forall i :: 0 <= i < |c.parents| ==> c.parents[i] in repo
    ensures Writable(repo, c, o) <==>
              forall f :: Rewritten(repo, c, f) && f in c.manifest ==> c.manifest[f].node in o
  {
    forall f
      ensures f in TouchedFiles(repo, c) <==> Rewritten(repo, c, f)
    {
      TouchedAreRewritten(repo, c, f);
    }
  }

  lemma ContentOfLast(repo: Repo, order: seq<string>, revs: seq<int>, last: int, o: seq<string>, id: string)
    requires Distinct(order) && AllIn(repo, revs) && Ascending(revs) && revs != [] && last == revs[|revs| - 1]
    requires last in repo && IdsAfter(repo, order, revs) == o + [repo[last].hash] && IsContent(repo[last], id)
    ensures id in o <==> id in order || Dumped(repo, order, revs, last, id)
  {
    FileIsNoChangeset(repo, id, last);
    LastIsGreatest(revs);
    MarkedContents(repo, order, revs, last, id);
  }

  lemma LastIsGreatest(revs: seq<int>)
    requires Ascending(revs) && revs != []
    ensures forall s :: s in revs ==> s <= revs[|revs| - 1]
  {
  }

  /** Two roots, each with a file of its own, and their merge. */
  function TwoRootsMerged(a: string, b: string, c: string, x: string, y: string): map<int, Changeset> {
    map[0 := Changeset(a, [], ["a"], map["a" := Entry(x, false)]),
        1 := Changeset(b, [], ["b"], map["b" := Entry(y, false)]),
        2 := Changeset(c, [0, 1], [], map["a" := Entry(x, false), "b" := Entry(y, false)])]
  }

  lemma TwoRootsMergedOk(a: string, b: string, c: string, x: string, y: string)
    requires a !in {b, c, x, y} && b !in {c, x, y} && c !in {x, y}
    ensures RepoOk(TwoRootsMerged(a, b, c, x, y))
  {
    TwoRootsLists(a, b, c, x, y);
    TwoRootsIds(a, b, c, x, y);
    TwoRootsParents(a, b, c, x, y);
  }

  lemma TwoRootsParents(a: string, b: string, c: string, x: string, y: string)
    ensures var repo := TwoRootsMerged(a, b, c, x, y);
            forall r :: r in repo ==>
              |repo[r].parents| <= 2
              && forall i :: 0 <= i < |repo[r].parents| ==> repo[r].parents[i] in repo && repo[r].parents[i] < r
  {
  }

  lemma TwoRootsIds(a: string, b: string, c: string, x: string, y: string)
    requires a !in {b, c, x, y} && b !in {c, x, y} && c !in {x, y}
    ensures var repo := TwoRootsMerged(a, b, c, x, y);
            && (forall r, s :: r in repo && s in repo && r != s ==> repo[r].hash != repo[s].hash)
            && forall r, s, f :: r in repo && s in repo && f in repo[s].manifest ==>
                 repo[r].hash != repo[s].manifest[f].node
  {
    var repo := TwoRootsMerged(a, b, c, x, y);
    TwoRootsContents(a, b, c, x, y);
    assert forall r :: r in repo ==> repo[r].hash == if r == 0 then a else if r == 1 then b else c;
  }

  lemma TwoRootsLists(a: string, b: string, c: string, x: string, y: string)
    ensures var repo := TwoRootsMerged(a, b, c, x, y);
            && (forall r, f :: r in repo && f in repo[r].manifest && f !in repo[r].files ==> Inherited(repo, r, f))
            && (forall r, f :: r in repo && |repo[r].parents| <= 1 && f !in repo[r].files ==>
                  EntryOf(repo[r].manifest, f) == EntryOf(FirstParentTree(repo, repo[r]), f))
  {
    var repo := TwoRootsMerged(a, b, c, x, y);
    assert repo[2].parents[0] == 0 && repo[2].parents[1] == 1;
    assert Inherited(repo, 2, "a") && Inherited(repo, 2, "b");
  }

  lemma TwoRootsContents(a: string, b: string, c: string, x: string, y: string)
    ensures var repo := TwoRootsMerged(a, b, c, x, y);
            forall s, f :: s in repo && f in repo[s].manifest ==> repo[s].manifest[f].node in {x, y}
  {
  }

  lemma MergeLacksContent(repo: Repo, a: string, b: string, c: string, x: string, y: string)
    requires repo == TwoRootsMerged(a, b, c, x, y) && c !in [a, b] && y !in [a, b]
    ensures !Exportable(repo, [a, b], 2)
  {
    assert ParentsIn(repo, repo[2], [a, b]);
    assert "b" in TouchedFiles(repo, repo[2]) && repo[2].manifest["b"].node == y;
  }

  lemma OneStops(repo: Repo, order: seq<string>, r: int)
    requires r in repo && Distinct(order) && !Exportable(repo, order, r)
    ensures !Runs(repo, order, [r])
  {
    assert [r][..0] == [];
  }

  /** A marks file that names both parents of the merge, and not their files, makes its export stop. */
  lemma MissingContentStops(a: string, b: string, c: string, x: string, y: string)
    requires a !in {b, c, x, y} && b !in {c, x, y} && c !in {x, y}
    ensures RepoOk(TwoRootsMerged(a, b, c, x, y))
    ensures Distinct([a, b]) && !Runs(TwoRootsMerged(a, b, c, x, y), [a, b], [2])
  {
    TwoRootsMergedOk(a, b, c, x, y);
    var repo: Repo := TwoRootsMerged(a, b, c, x, y);
    MergeLacksContent(repo, a, b, c, x, y);
    OneStops(repo, [a, b], 2);
  }

  // ---------------------------------------------------------------------------------------
  // The marks file, one id a line

  predicate IsRev(line: string) {
    |line| == 40 && forall c :: c in line ==> '0' <= c <= '9' || 'a' <= c <= 'f'
  }

  /** None stands for "Corrupted marks file". */
  method ImportMarks(lines: seq<string>) returns (r: Option<map<string, nat>>)
    ensures r.Some? <==> Distinct(lines) && forall l :: l in lines ==> IsRev(l)
    ensures r.Some? ==> Numbers(r.value, lines)
  {
    var marks: map<string, nat> := map[];
    for i := 0 to |lines|
      invariant Numbers(marks, lines[..i])
      invariant forall l :: l in lines[..i] ==> IsRev(l)
    {
      assert lines[..i + 1] == lines[..i] + [lines[i]];
      SameIds(marks, lines[..i]);
      if !IsRev(lines[i]) || lines[i] in marks {
        RepeatedLine(lines, i);
        return None;
      }
      NumbersNext(marks, lines[..i], lines[i]);
      marks := marks[lines[i] := |marks| + 1];
    }
    assert lines[..|lines|] == lines;
    return Some(marks);
  }

  lemma RepeatedLine(lines: seq<string>, i: nat)
    requires i < |lines| && (!IsRev(lines[i]) || lines[i] in lines[..i])
    ensures !Distinct(lines) || exists l :: l in lines && !IsRev(l)
  {
    if lines[i] in lines[..i] {
      var k :| 0 <= k < i && lines[..i][k] == lines[i];
      assert lines[k] == lines[i];
    }
  }

  method ExportMarks(marks: map<string, nat>, ghost order: seq<string>) returns (lines: seq<string>)
    requires Numbers(marks, order)
    ensures lines == order
  {
    var output: seq<Option<string>> := seq(|marks|, i => None);
    var rest := marks.Keys;
    while rest != {}
      invariant rest <= marks.Keys && |output| == |marks|
      invariant forall k :: k in marks && k !in rest ==> output[marks[k] - 1] == Some(k)
    {
      var k :| k in rest;
      output := output[marks[k] - 1 := Some(k)];
      rest := rest - {k};
    }
    lines := [];
    for i := 0 to |output|
      invariant lines == order[..i]
    {
      assert order[i] in marks && marks[order[i]] == i + 1;
      lines := lines + [output[i].value];
    }
  }

  /** A marks file restores the marks it was written from. */
  lemma NumberingIsUnique(marks: map<string, nat>, marks': map<string, nat>, order: seq<string>)
    requires Numbers(marks, order) && Numbers(marks', order)
    ensures marks == marks'
  {
    SameIds(marks, order);
    SameIds(marks', order);
    forall k | k in marks
      ensures marks[k] == marks'[k]
    {
      MarksAgree(marks, order, k);
      MarksAgree(marks', order, k);
    }
  }

  // ---------------------------------------------------------------------------------------
  // The command

  /** The content of a file, if it is there and has no mark yet. */
  function Unlisted(c: Changeset, fname: string, o: seq<string>): seq<string> {
    if Listable(c, fname, o) then [c.manifest[fname].node] else []
  }

  function BlobOf(ids: seq<string>, n: nat): seq<Event> {
    if ids == [] then [] else [Blob(n + 1, ids[0])]
  }

  lemma OneMoreFileDumped(c: Changeset, base: seq<string>, o: seq<string>, k: nat, before: seq<Event>)
    requires k < |c.files| && o == WithFiles(base, c, c.files[..k]) && |base| <= |o|
    ensures var added := Unlisted(c, c.files[k], o);
            && o + added == WithFiles(base, c, c.files[..k + 1])
            && (before + Blobs(o, |base|)) + BlobOf(added, |o|) == before + Blobs(o + added, |base|)
  {
    assert c.files[..k + 1][..k] == c.files[..k];
    MoreBlobs(o, Unlisted(c, c.files[k], o), |base|, before);
    if !Listable(c, c.files[k], o) {
      assert o + [] == o;
    }
  }

  lemma MoreBlobs(o: seq<string>, added: seq<string>, n: nat, before: seq<Event>)
    requires n <= |o| && |added| <= 1
    ensures (before + Blobs(o, n)) + BlobOf(added, |o|) == before + Blobs(o + added, n)
  {
    if added == [] {
      assert o + added == o && (before + Blobs(o, n)) + [] == before + Blobs(o, n);
    } else {
      assert added == [added[0]];
      NextBlob(o, n, added[0]);
      ConcatAssociates(before, Blobs(o, n), [Blob(|o| + 1, added[0])]);
    }
  }

  class Exporter {
    const repo: Repo
    var marks: map<string, nat>
    var stream: seq<Event>
    ghost var order: seq<string>

    ghost predicate Valid()
      reads this
    {
      Numbers(marks, order)
    }

    /** Continues from marks that were read from a file, or from none. */
    constructor (repo: Repo, marks: map<string, nat>, ghost order: seq<string>)
      requires Numbers(marks, order)
      ensures Valid() && this.repo == repo && this.marks == marks && this.order == order && stream == []
    {
      this.repo, this.marks, this.order, stream := repo, marks, order, [];
    }

    /** Gives an id the next mark. */
    method Number(id: string) returns (mark: nat)
      requires Numbers(marks, order) && id !in order
      modifies this`marks, this`order
      ensures Numbers(marks, order) && order == old(order) + [id] && mark == |order|
    {
      SameIds(marks, order);
      mark := |marks| + 1;
      NumbersNext(marks, order, id);
      marks := marks[id := mark];
      order := order + [id];
    }

    method DumpFile(c: Changeset, fname: string)
      requires Numbers(marks, order)
      modifies this
      ensures Numbers(marks, order)
      ensures order == old(order) + Unlisted(c, fname, old(order))
      ensures stream == old(stream) + BlobOf(Unlisted(c, fname, old(order)), |old(order)|)
    {
      SameIds(marks, order);
      if fname in c.manifest && c.manifest[fname].node !in marks {
        var mark := Number(c.manifest[fname].node);
        stream := stream + [Blob(mark, c.manifest[fname].node)];
      } else {
        assert order + [] == order && stream + [] == stream;
      }
    }

    /** The loop over `ctx.files()` that dumps the contents not dumped yet. */
    method DumpFiles(c: Changeset)
      requires Numbers(marks, order)
      modifies this
      ensures Numbers(marks, order) && order == WithFiles(old(order), c, c.files) && |old(order)| <= |order|
      ensures stream == old(stream) + Blobs(order, |old(order)|)
    {
      ghost var base := order;
      for k := 0 to |c.files|
        invariant Numbers(marks, order) && order == WithFiles(base, c, c.files[..k])
        invariant |base| <= |order| && stream == old(stream) + Blobs(order, |base|)
      {
        OneMoreFileDumped(c, base, order, k, old(stream));
        DumpFile(c, c.files[k]);
      }
      assert c.files[..|c.files|] == c.files;
    }

    /** Have all parents been exported? */
    method HasParents(c: Changeset) returns (ok: bool)
      requires Numbers(marks, order) && forall i :: 0 <= i < |c.parents| ==> c.parents[i] in repo
      ensures ok <==> ParentsIn(repo, c, order)
    {
      SameIds(marks, order);
      for i := 0 to |c.parents|
        invariant forall j :: 0 <= j < i ==> repo[c.parents[j]].hash in order
      {
        if repo[c.parents[i]].hash !in marks {
          return false;
        }
      }
      return true;
    }

    /** The new contents and then the commit; stops at a file whose content has no mark. */
    method ExportNew(r: int) returns (raised: bool)
      requires Valid() && r in repo && !Skipped(repo, order, r)
      modifies this
      ensures Valid() && (raised <==> !Exportable(repo, old(order), r))
      ensures !raised ==> Export(order, stream) == Export(ExportOne(repo, old(order), r).order,
                                                          old(stream) + ExportOne(repo, old(order), r).stream)
      ensures raised ==> old(stream) <= stream
    {
      ghost var base, before := order, stream;
      HashIsNew(repo, order, r);
      DumpFiles(repo[r]);
      ghost var o := order;
      ParentsStayIn(repo, repo[r], base, o);
      raised := WriteCommit(repo[r]);
      if !raised {
        ConcatAssociates(before, Blobs(o, |base|), [CommitEvent(repo, repo[r], o)]);
      }
    }

    /** `export_commit`; the failing look-up of a mark ends the whole export. */
    method ExportCommit(r: int) returns (raised: bool)
      requires Valid() && r in repo
      modifies this
      ensures Valid() && (raised <==> !Exportable(repo, old(order), r))
      ensures !raised ==> order == ExportOne(repo, old(order), r).order
      ensures !raised ==> stream == old(stream) + ExportOne(repo, old(order), r).stream
      ensures raised ==> old(stream) <= stream
    {
      SameIds(marks, order);
      raised := false;
      if repo[r].hash in marks {
        return;
      }
      var exported := HasParents(repo[r]);
      if exported {
        raised := ExportNew(r);
      }
    }

    method WriteChanges(c: Changeset) returns (changes: Option<map<string, Change>>)
      requires |c.parents| <= 2 && ParentsIn(repo, c, order)
      requires forall id :: id in order <==> id in marks
      requires forall id :: id in order ==> marks[id] == MarkOf(order, id)
      ensures changes.Some? <==> Writable(repo, c, order)
      ensures changes.Some? ==> changes.value == ChangesOf(repo, c, order)
    {
      var files := TouchedFiles(repo, c);
      if exists f :: f in files && f in c.manifest && c.manifest[f].node !in marks {
        return None;
      }
      return Some(map f | f in files ::
        if f in c.manifest then Modified(marks[c.manifest[f].node], c.manifest[f].exec) else Deleted);
    }

    method WriteCommit(c: Changeset) returns (raised: bool)
      requires Numbers(marks, order) && c.hash !in order && |c.parents| <= 2 && ParentsIn(repo, c, order)
      modifies this
      ensures Numbers(marks, order) && (raised <==> !Writable(repo, c, old(order)))
      ensures !raised ==> order == old(order) + [c.hash]
      ensures !raised ==> stream == old(stream) + [CommitEvent(repo, c, old(order))]
      ensures raised ==> stream == old(stream)
    {
      SameIds(marks, order);
      forall id | id in order
        ensures id in marks && marks[id] == MarkOf(order, id)
      {
        MarksAgree(marks, order, id);
      }
      var from := if |c.parents| >= 1 then Some(marks[repo[c.parents[0]].hash]) else None;
      var merge := if |c.parents| == 2 then Some(marks[repo[c.parents[1]].hash]) else None;
      var changes := WriteChanges(c);
      var mark := Number(c.hash);
      if changes.None? {
        return true;
      }
      stream := stream + [Commit(mark, c.hash, from, merge, changes.value)];
      return false;
    }

    /** The loop of `fastexport`, over the sorted revisions; it may end early, at number `k`. */
    method Run(revs: seq<int>) returns (raised: bool, ghost k: nat)
      requires Valid() && AllIn(repo, revs)
      modifies this
      ensures Valid() && k <= |revs| && (raised <==> !Runs(repo, old(order), revs))
      ensures Runs(repo, old(order), revs[..k])
      ensures ExportAll(repo, Export(old(order), old(stream)), revs[..k]).stream <= stream
      ensures !raised ==> Export(order, stream) == ExportAll(repo, Export(old(order), old(stream)), revs)
    {
      k := 0;
      ghost var before := Export(order, stream);
      for i := 0 to |revs|
        invariant Valid() && k == i && Runs(repo, before.order, revs[..i])
        invariant Export(order, stream) == ExportAll(repo, before, revs[..i])
      {
        OneMoreExport(repo, before, revs, i);
        raised := ExportCommit(revs[i]);
        if raised {
          return true, i;
        }
        k := k + 1;
      }
      assert revs[..|revs|] == revs;
      raised := false;
    }
  }

  lemma OneMoreExport(repo: Repo, before: Export, revs: seq<int>, i: nat)
    requires Distinct(before.order) && AllIn(repo, revs) && i < |revs| && Runs(repo, before.order, revs[..i])
    ensures var e := ExportAll(repo, before, revs[..i]);
            if Exportable(repo, e.order, revs[i]) then
              var last := ExportOne(repo, e.order, revs[i]);
              Runs(repo, before.order, revs[..i + 1])
              && ExportAll(repo, before, revs[..i + 1]) == Export(last.order, e.stream + last.stream)
            else
              !Runs(repo, before.order, revs)
  {
    assert revs[..i + 1][..i] == revs[..i];
    if !Exportable(repo, IdsAfter(repo, before.order, revs[..i]), revs[i]) && Runs(repo, before.order, revs) {
      RunsPrefix(repo, before.order, revs, i);
      assert false;
    }
  }

  lemma {:induction false} RunsPrefix(repo: Repo, order: seq<string>, revs: seq<int>, k: nat)
    requires Distinct(order) && AllIn(repo, revs) && k < |revs| && Runs(repo, order, revs)
    ensures Runs(repo, order, revs[..k]) && Exportable(repo, IdsAfter(repo, order, revs[..k]), revs[k])
  {
    if k < |revs| - 1 {
      assert revs[..|revs| - 1][..k] == revs[..k];
      RunsPrefix(repo, order, revs[..|revs| - 1], k);
    }
  }

  /** Ids are 40 hexadecimal digits, as a marks file needs them to be. */
  ghost predicate HexIds(repo: Repo) {
    forall r :: r in repo ==> IsRev(repo[r].hash) && forall f :: f in repo[r].manifest ==>
      IsRev(repo[r].manifest[f].node)
  }

  lemma {:induction false} ExportedIdsAreHex(repo: Repo, order: seq<string>, revs: seq<int>)
    requires HexIds(repo) && Distinct(order) && AllIn(repo, revs) && forall id :: id in order ==> IsRev(id)
    ensures forall id :: id in IdsAfter(repo, order, revs) ==> IsRev(id)
  {
    if revs != [] {
      var front, r := revs[..|revs| - 1], revs[|revs| - 1];
      ExportedIdsAreHex(repo, order, front);
      forall id | id in IdsAfter(repo, order, revs)
        ensures IsRev(id)
      {
        WithFilesExactly(IdsAfter(repo, order, front), repo[r], repo[r].files, id);
      }
    }
  }

  /** Done, stopped by a corrupted marks file, or by a mark that is missing in it. */
  datatype Outcome = Finished | CorruptedMarks | MissingMark

  /** `fastexport`, from the lines of the marks file read (none at first) to those of the one written. */
  method FastExport(repo: Repo, importMarks: seq<string>, revs: seq<int>)
    returns (outcome: Outcome, stream: seq<Event>, exportMarks: seq<string>)
    requires AllIn(repo, revs)
    ensures outcome != CorruptedMarks <==> Distinct(importMarks) && forall l :: l in importMarks ==> IsRev(l)
    ensures outcome != CorruptedMarks ==> (outcome == Finished <==> Runs(repo, importMarks, revs))
    ensures outcome == Finished ==>
              Export(exportMarks, stream) == ExportAll(repo, Export(importMarks, []), revs)
    ensures outcome != Finished ==> exportMarks == []
    ensures outcome == CorruptedMarks ==> stream == []
  {
    stream, exportMarks := [], [];
    var marks := ImportMarks(importMarks);
    if marks.None? {
      return CorruptedMarks, stream, exportMarks;
    }
    var exporter := new Exporter(repo, marks.value, importMarks);
    var raised, k := exporter.Run(revs);
    stream := exporter.stream;
    if raised {
      return MissingMark, stream, exportMarks;
    }
    exportMarks := ExportMarks(exporter.marks, exporter.order);
    outcome := Finished;
  }

  /** An export split in two, with a marks file in between, writes what one export would have. */
  method ExportIncrementally(repo: Repo, revs: seq<int>, later: seq<int>) returns (stream: seq<Event>)
    requires HexIds(repo) && AllIn(repo, revs) && AllIn(repo, later)
    ensures AllIn(repo, revs + later) && Runs(repo, [], revs + later)
    ensures stream == ExportAll(repo, Export([], []), revs + later).stream
  {
    CompleteMarksRun(repo, [], revs + later);
    ExportInTwoGoes(repo, Export([], []), revs, later);
    var outcome, first, file := FastExport(repo, [], revs);
    ExportedIdsAreHex(repo, [], revs);
    var second;
    outcome, second, file := FastExport(repo, file, later);
    stream := first + second;
    StreamsAppend(repo, ExportAll(repo, Export([], []), revs), later);
  }
}
