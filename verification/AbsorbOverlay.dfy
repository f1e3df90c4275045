/** Laying chosen hunks over a file: the lines with all of them spliced in, last hunk first. */
module AbsorbOverlay {
  import opened Lists
  import opened AbsorbFixups

  type Patch = Subst<string>

  function LinesOrder(): (seq<string>, seq<string>) -> bool {
    Lex(StringOrder())
  }

  /** The order of the source's triples: where a hunk starts, where it ends, what it puts there. */
  predicate Before(p: Patch, q: Patch) {
    p.at < q.at || (p.at == q.at && (p.len < q.len || (p.len == q.len && LinesOrder()(p.with, q.with))))
  }

  lemma BeforeOrders()
    ensures forall p, q :: p == q || Before(p, q) || Before(q, p)
    ensures forall p, q, r :: !Before(q, p) && !Before(r, q) ==> !Before(r, p)
    ensures forall p, q :: !(Before(p, q) && Before(q, p))
  {
    StringsOrdered();
    LexOrdering(StringOrder());
    forall p, q
      ensures p == q || Before(p, q) || Before(q, p)
    {
      assert p.with == q.with || LinesOrder()(p.with, q.with) || LinesOrder()(q.with, p.with);
    }
  }

  /** Insertions at one line come in the order of their text. */
  lemma SamePlaceByText(p: Patch, q: Patch)
    requires p.at == q.at && p.len == q.len && Before(p, q)
    ensures FirstDifference(StringOrder(), p.with, q.with)
  {
    LexMeans(StringOrder(), p.with, q.with);
  }

  /** Two hunks do not overlap; where both start at one line, at most one of them removes lines. */
  ghost predicate Clear(p: Patch, q: Patch) {
    && (p.at < q.at ==> p.at + p.len <= q.at)
    && (q.at < p.at ==> q.at + q.len <= p.at)
    && (p.at == q.at ==> p.len == 0 || q.len == 0)
  }

  /** The patches lie within the file and do not overlap. */
  ghost predicate Apart(patches: seq<Patch>, n: nat) {
    && (forall p :: p in patches ==> p.at + p.len <= n)
    && (forall i, j :: 0 <= i < j < |patches| ==> Clear(patches[i], patches[j]))
  }

  ghost predicate Ascending(s: seq<Patch>) {
    forall i, j :: 0 <= i < j < |s| ==> !Before(s[j], s[i])
  }

  /** Every patch ends before the next ones start. */
  ghost predicate Spaced(s: seq<Patch>) {
    forall i, j :: 0 <= i < j < |s| ==> s[i].at + s[i].len <= s[j].at
  }

  method SortPatches(patches: seq<Patch>, ghost n: nat) returns (s: seq<Patch>)
    requires Apart(patches, n)
    ensures Ascending(s) && Spaced(s) && multiset(s) == multiset(patches)
  {
    s := [];
    for i := 0 to |patches|
      invariant Ascending(s) && Spaced(s) && multiset(s) == multiset(patches[..i])
    {
      assert patches[..i + 1] == patches[..i] + [patches[i]];
      ClearOfAll(patches, s, i);
      s := InsertPatch(s, patches[i]);
    }
    assert patches[..|patches|] == patches;
  }

  lemma ClearOfAll(patches: seq<Patch>, s: seq<Patch>, i: nat)
    requires i < |patches| && multiset(s) == multiset(patches[..i])
    requires forall j :: 0 <= j < i ==> Clear(patches[j], patches[i])
    ensures forall q :: q in s ==> Clear(q, patches[i])
  {
    forall q | q in s
      ensures Clear(q, patches[i])
    {
      assert q in multiset(patches[..i]);
      var j :| 0 <= j < i && patches[..i][j] == q;
      assert Clear(patches[j], patches[i]);
    }
  }

  method InsertPatch(s: seq<Patch>, p: Patch) returns (r: seq<Patch>)
    requires Ascending(s) && Spaced(s) && forall q :: q in s ==> Clear(q, p)
    ensures Ascending(r) && Spaced(r) && multiset(r) == multiset(s) + multiset{p}
  {
    var k := |s|;
    while k > 0 && Before(p, s[k - 1])
      invariant 0 <= k <= |s|
      invariant forall i :: k <= i < |s| ==> Before(p, s[i])
    {
      k := k - 1;
    }
    InsertedAscends(s, p, k);
    assert s == s[..k] + s[k..];
    r := s[..k] + ([p] + s[k..]);
  }

  /** `p` may come right before `q`. */
  ghost predicate Follows(p: Patch, q: Patch) {
    !Before(q, p) && p.at + p.len <= q.at
  }

  lemma InsertedAscends(s: seq<Patch>, p: Patch, k: nat)
    requires k <= |s| && Ascending(s) && Spaced(s) && forall q :: q in s ==> Clear(q, p)
    requires k > 0 ==> !Before(p, s[k - 1])
    requires forall i :: k <= i < |s| ==> Before(p, s[i])
    ensures Ascending(s[..k] + ([p] + s[k..])) && Spaced(s[..k] + ([p] + s[k..]))
  {
    forall i | 0 <= i < |s|
      ensures if i < k then Follows(s[i], p) else Follows(p, s[i])
    {
      assert s[i] in s;
      AroundPlace(s, p, k, i);
    }
    forall i, j | 0 <= i < j < |s| + 1
      ensures Follows((s[..k] + ([p] + s[k..]))[i], (s[..k] + ([p] + s[k..]))[j])
    {
      InsertedAt(s, p, k, i);
      InsertedAt(s, p, k, j);
    }
  }

  lemma AroundPlace(s: seq<Patch>, p: Patch, k: nat, i: nat)
    requires k <= |s| && i < |s| && Ascending(s) && Clear(s[i], p)
    requires k > 0 ==> !Before(p, s[k - 1])
    requires k <= i ==> Before(p, s[i])
    ensures if i < k then Follows(s[i], p) else Follows(p, s[i])
  {
    BeforeOrders();
    assert i < k - 1 ==> !Before(s[k - 1], s[i]);
  }

  lemma InsertedAt<T>(s: seq<T>, p: T, k: nat, i: nat)
    requires k <= |s| && i <= |s|
    ensures (s[..k] + ([p] + s[k..]))[i] == if i < k then s[i] else if i == k then p else s[i - 1]
  {
  }

  lemma {:induction false} SpacedIsWithin(s: seq<Patch>, k: nat, n: nat)
    requires k <= |s| && Spaced(s) && (k > 0 ==> s[k - 1].at + s[k - 1].len <= n)
    ensures Within(s[..k], n)
    decreases k
  {
    if k > 0 {
      assert s[..k][..k - 1] == s[..k - 1];
      SpacedIsWithin(s, k - 1, s[k - 1].at);
    }
  }

  /** There is one way to sort, so the order in which the hunks come makes no difference. */
  lemma {:induction false} SortedIsUnique(s: seq<Patch>, t: seq<Patch>)
    requires Ascending(s) && Ascending(t) && multiset(s) == multiset(t)
    ensures s == t
  {
    if s == [] {
      assert |multiset(t)| == 0;
    } else {
      LastIsLargest(s, t);
      WithoutLast(s);
      WithoutLast(t);
      SortedIsUnique(s[..|s| - 1], t[..|t| - 1]);
    }
  }

  lemma WithoutLast<T>(s: seq<T>)
    requires s != []
    ensures s == s[..|s| - 1] + [s[|s| - 1]]
    ensures multiset(s[..|s| - 1]) == multiset(s) - multiset{s[|s| - 1]}
  {
    assert s == s[..|s| - 1] + [s[|s| - 1]];
  }

  lemma LastIsLargest(s: seq<Patch>, t: seq<Patch>)
    requires Ascending(s) && Ascending(t) && multiset(s) == multiset(t) && s != []
    ensures t != [] && s[|s| - 1] == t[|t| - 1]
  {
    BeforeOrders();
    assert s[|s| - 1] in multiset(t);
    var last, last' := s[|s| - 1], t[|t| - 1];
    assert last' in multiset(s);
    var i :| 0 <= i < |t| && t[i] == last;
    var j :| 0 <= j < |s| && s[j] == last';
    assert i < |t| - 1 ==> !Before(last', t[i]);
    assert j < |s| - 1 ==> !Before(last, s[j]);
  }

  /**
   The splicing of `overlaydiffcontext`, the last patch first. In whatever order the patches
   come, the result is the file with all of them substituted at once.
   */
  method Overlay(lines: seq<string>, patches: seq<Patch>) returns (result: seq<string>, ghost sorted: seq<Patch>)
    requires Apart(patches, |lines|)
    ensures Ascending(sorted) && multiset(sorted) == multiset(patches)
    ensures Within(sorted, |lines|) && result == Substitute(lines, sorted)
  {
    var s := SortPatches(patches, |lines|);
    sorted := s;
    if s != [] {
      assert s[|s| - 1] in multiset(patches);
    }
    SpacedIsWithin(s, |s|, |lines|);
    assert s[..|s|] == s;
    result := SpliceAll(lines, s);
  }

  method SpliceAll(lines: seq<string>, s: seq<Patch>) returns (result: seq<string>)
    requires Within(s, |lines|)
    ensures result == Substitute(lines, s)
  {
    result := lines;
    var k := |s|;
    ghost var e: nat, tail: seq<string> := |lines|, [];
    assert s[..k] == s && lines[..e] == lines && lines + [] == lines;
    while k > 0
      invariant k <= |s| && e <= |lines| && Within(s[..k], e) && result == lines[..e] + tail
      invariant Substitute(lines, s) == Substitute(lines[..e], s[..k]) + tail
    {
      k := k - 1;
      var p := s[k];
      assert s[..k + 1][..k] == s[..k];
      result := result[..p.at] + p.with + result[p.at + p.len..];
      SpliceStep(lines, s[..k + 1], e, tail);
      tail := (p.with + lines[..e][p.at + p.len..]) + tail;
      e := p.at;
    }
  }

  /** What splicing the last patch in does to the lines before `e`. */
  lemma SpliceStep(lines: seq<string>, s: seq<Patch>, e: nat, tail: seq<string>)
    requires e <= |lines| && s != [] && Within(s, e)
    ensures var p, front := s[|s| - 1], s[..|s| - 1];
            && p.at + p.len <= e && lines[..e][..p.at] == lines[..p.at]
            && (lines[..e] + tail)[..p.at] + p.with + (lines[..e] + tail)[p.at + p.len..]
            == lines[..p.at] + ((p.with + lines[..e][p.at + p.len..]) + tail)
            && Substitute(lines[..e], s) + tail
            == Substitute(lines[..p.at], front) + ((p.with + lines[..e][p.at + p.len..]) + tail)
  {
    var p, front := s[|s| - 1], s[..|s| - 1];
    SlicesOfConcat(lines[..e], tail, p.at, p.at + p.len);
    assert lines[..e][..p.at] == lines[..p.at];
  }
}
