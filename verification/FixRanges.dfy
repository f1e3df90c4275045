/** The line ranges that fix hands to a fixer tool: closed intervals of line numbers from 1. */
module FixRanges {
  import opened Lists
  import opened Diff

  datatype Range = Range(first: int, last: int)

  ghost predicate Covers(rs: seq<Range>, n: int) {
    exists i :: 0 <= i < |rs| && rs[i].first <= n <= rs[i].last
  }

  ghost predicate NonEmpty(rs: seq<Range>) {
    forall i :: 0 <= i < |rs| ==> rs[i].first <= rs[i].last
  }

  /** Sorted, with at least one uncovered number between neighbours. */
  ghost predicate Separated(rs: seq<Range>) {
    forall i, j :: 0 <= i < j < |rs| ==> rs[i].last + 1 < rs[j].first
  }

  predicate Before(r: Range, s: Range) {
    r.first < s.first || (r.first == s.first && r.last <= s.last)
  }

  /** `sorted(set(rangeslist))` */
  method SortRanges(rs: seq<Range>) returns (sorted: seq<Range>)
    ensures Elements(sorted) == Elements(rs) && Distinct(sorted)
    ensures forall i, j :: 0 <= i < j < |sorted| ==> Before(sorted[i], sorted[j])
  {
    sorted := [];
    var rest := set r | r in rs;
    while rest != {}
      invariant Elements(sorted) + rest == Elements(rs) && Elements(sorted) !! rest
      invariant Distinct(sorted)
      invariant forall i, j :: 0 <= i < j < |sorted| ==> Before(sorted[i], sorted[j])
      invariant forall r, s :: r in sorted && s in rest ==> Before(r, s)
    {
      var least :| least in rest;
      var others := rest - {least};
      while others != {}
        invariant least in rest && others <= rest
        invariant forall r :: r in rest ==> r in others || Before(least, r)
      {
        var r :| r in others;
        if !Before(least, r) {
          least := r;
        }
        others := others - {r};
      }
      assert least !in Elements(sorted);
      sorted, rest := sorted + [least], rest - {least};
    }
  }

  lemma CoversSame(rs: seq<Range>, ss: seq<Range>, n: int)
    requires Elements(rs) == Elements(ss)
    ensures Covers(rs, n) <==> Covers(ss, n)
  {
    assert forall i :: 0 <= i < |rs| ==> rs[i] in Elements(rs);
    assert forall i :: 0 <= i < |ss| ==> ss[i] in Elements(ss);
  }

  lemma CoversConcat(rs: seq<Range>, ss: seq<Range>, n: int)
    ensures Covers(rs + ss, n) <==> Covers(rs, n) || Covers(ss, n)
  {
    assert forall i :: 0 <= i < |rs| ==> (rs + ss)[i] == rs[i];
    assert forall i :: 0 <= i < |ss| ==> (rs + ss)[|rs| + i] == ss[i];
  }

  /** One turn of the loop of `unionranges`. */
  function Absorb(unioned: seq<Range>, r: Range): seq<Range>
    requires unioned != []
  {
    var last := unioned[|unioned| - 1];
    if r.first > last.last + 1 then unioned + [r]
    else unioned[|unioned| - 1 := Range(last.first, if last.last < r.last then r.last else last.last)]
  }

  lemma AbsorbCovers(unioned: seq<Range>, r: Range, n: int)
    requires unioned != [] && unioned[|unioned| - 1].first <= r.first
    ensures Covers(Absorb(unioned, r), n) <==> Covers(unioned, n) || r.first <= n <= r.last
  {
    var front, last := unioned[..|unioned| - 1], unioned[|unioned| - 1];
    var out := Absorb(unioned, r);
    assert unioned == front + [last];
    CoversConcat(front, [last], n);
    if r.first > last.last + 1 {
      CoversConcat(unioned, [r], n);
      assert Covers([r], n) <==> [r][0].first <= n <= [r][0].last;
    } else {
      var merged := out[|out| - 1];
      assert out == front + [merged];
      CoversConcat(front, [merged], n);
      assert Covers([last], n) <==> [last][0].first <= n <= [last][0].last;
      assert Covers([merged], n) <==> [merged][0].first <= n <= [merged][0].last;
    }
  }

  /** Covers the same numbers as the given ranges; of non-empty ranges it makes the normal form. */
  method UnionRanges(rangeslist: seq<Range>) returns (unioned: seq<Range>)
    ensures forall n :: Covers(unioned, n) <==> Covers(rangeslist, n)
    ensures NonEmpty(rangeslist) ==> NonEmpty(unioned) && Separated(unioned)
  {
    var rs := SortRanges(rangeslist);
    forall n
      ensures Covers(rs, n) <==> Covers(rangeslist, n)
    {
      CoversSame(rs, rangeslist, n);
    }
    assert NonEmpty(rangeslist) ==> NonEmpty(rs) by {
      assert forall i :: 0 <= i < |rs| ==> rs[i] in Elements(rs);
    }
    if rs == [] {
      return [];
    }
    unioned := [rs[0]];
    assert rs[..1] == [rs[0]];
    for i := 1 to |rs|
      invariant unioned != [] && unioned[|unioned| - 1].first <= rs[i - 1].first
      invariant forall n :: Covers(unioned, n) <==> Covers(rs[..i], n)
      invariant NonEmpty(rs) ==> NonEmpty(unioned) && Separated(unioned)
    {
      var r := rs[i];
      assert Before(rs[i - 1], r);
      assert rs[..i + 1] == rs[..i] + [r];
      forall n
        ensures Covers(Absorb(unioned, r), n) <==> Covers(rs[..i + 1], n)
      {
        AbsorbCovers(unioned, r, n);
        CoversConcat(rs[..i], [r], n);
        assert Covers([r], n) <==> [r][0].first <= n <= [r][0].last;
      }
      ghost var next := Absorb(unioned, r);
      var last := unioned[|unioned| - 1];
      if r.first > last.last + 1 {
        unioned := unioned + [r];
      } else {
        unioned := unioned[|unioned| - 1 := Range(last.first, if last.last < r.last then r.last else last.last)];
      }
      assert unioned == next;
    }
    assert rs[..|rs|] == rs;
  }

  /** The normal form is unique: separated lists that cover the same numbers are equal. */
  lemma {:induction false} SeparatedIsCanonical(rs: seq<Range>, ss: seq<Range>)
    requires NonEmpty(rs) && Separated(rs) && NonEmpty(ss) && Separated(ss)
    requires forall n :: Covers(rs, n) <==> Covers(ss, n)
    ensures rs == ss
  {
    assert rs != [] ==> Covers(rs, rs[0].first);
    assert ss != [] ==> Covers(ss, ss[0].first);
    if rs != [] && ss != [] {
      assert rs[0].first == ss[0].first;
      FirstRangeEnds(rs, ss);
      FirstRangeEnds(ss, rs);
      forall n
        ensures Covers(rs[1..], n) <==> Covers(ss[1..], n)
      {
        TailCovers(rs, n);
        TailCovers(ss, n);
      }
      SeparatedIsCanonical(rs[1..], ss[1..]);
      assert rs == [rs[0]] + rs[1..] && ss == [ss[0]] + ss[1..];
    }
  }

  lemma FirstRangeEnds(rs: seq<Range>, ss: seq<Range>)
    requires rs != [] && ss != [] && NonEmpty(rs) && Separated(rs) && NonEmpty(ss) && rs[0].first == ss[0].first
    requires forall n :: Covers(rs, n) <==> Covers(ss, n)
    ensures ss[0].last <= rs[0].last
  {
    if rs[0].last < ss[0].last {
      assert Covers(ss, rs[0].last + 1);
    }
  }

  lemma TailCovers(rs: seq<Range>, n: int)
    requires rs != [] && NonEmpty(rs) && Separated(rs)
    ensures Covers(rs[1..], n) <==> Covers(rs, n) && n > rs[0].last
  {
    assert rs == [rs[0]] + rs[1..];
    if Covers(rs, n) && n > rs[0].last {
      var i :| 0 <= i < |rs| && rs[i].first <= n <= rs[i].last;
      assert rs[1..][i - 1] == rs[i];
    }
    if Covers(rs[1..], n) {
      var i :| 0 <= i < |rs[1..]| && rs[1..][i].first <= n <= rs[1..][i].last;
      assert rs[i + 1] == rs[1..][i];
    }
  }

  /** The changed lines of the new text, numbered from 1. */
  method DiffLineRanges(chunks: seq<Chunk>) returns (ranges: seq<Range>)
    ensures NonEmpty(ranges)
    ensures forall n: nat :: Covers(ranges, n + 1) <==> Changed(chunks, n)
    ensures forall n :: Covers(ranges, n) ==> n >= 1
  {
    ranges := [];
    for i := 0 to |chunks|
      invariant NonEmpty(ranges)
      invariant forall n: nat :: Covers(ranges, n + 1) <==> Changed(chunks[..i], n)
      invariant forall n :: Covers(ranges, n) ==> n >= 1
    {
      var c := chunks[i];
      assert chunks[..i + 1] == chunks[..i] + [c];
      ghost var before := ranges;
      if c.b1 < c.b2 {
        ranges := ranges + [Range(c.b1 + 1, c.b2)];
      }
      forall n: nat
        ensures Changed(chunks[..i + 1], n) <==> Changed(chunks[..i], n) || c.b1 <= n < c.b2
      {
        assert c in chunks[..i + 1];
        assert forall d :: d in chunks[..i + 1] <==> d in chunks[..i] || d == c;
      }
      forall n
        ensures Covers(ranges, n) <==> Covers(before, n) || c.b1 + 1 <= n <= c.b2
      {
        if c.b1 < c.b2 {
          CoversConcat(before, [Range(c.b1 + 1, c.b2)], n);
          assert Covers([Range(c.b1 + 1, c.b2)], n) <==> [Range(c.b1 + 1, c.b2)][0].first <= n <= c.b2;
        }
      }
      ghost var upto := chunks[..i + 1];
      forall n: nat
        ensures Covers(ranges, n + 1) <==> Changed(upto, n)
      {
        assert Covers(before, n + 1) <==> Changed(chunks[..i], n);
      }
    }
    assert chunks[..|chunks|] == chunks;
  }

  ghost predicate ChangedInSome(bases: seq<seq<Chunk>>, n: nat) {
    exists k :: 0 <= k < |bases| && Changed(bases[k], n)
  }

  /**
   `lineranges`, given the diff against each base (and against nothing, for `--whole`). The
   ranges are the lines changed against at least one base, in normal form.
   */
  method LineRanges(whole: bool, againstNothing: seq<Chunk>, bases: seq<seq<Chunk>>) returns (ranges: seq<Range>)
    ensures NonEmpty(ranges)
    ensures !whole ==> Separated(ranges)
    ensures forall n: nat :: Covers(ranges, n + 1) <==>
            if whole then Changed(againstNothing, n) else ChangedInSome(bases, n)
    ensures forall n :: Covers(ranges, n) ==> n >= 1
  {
    if whole {
      ranges := DiffLineRanges(againstNothing);
      return;
    }
    var rangeslist := [];
    for k := 0 to |bases|
      invariant NonEmpty(rangeslist)
      invariant forall n: nat :: Covers(rangeslist, n + 1) <==> ChangedInSome(bases[..k], n)
      invariant forall n :: Covers(rangeslist, n) ==> n >= 1
    {
      var more := DiffLineRanges(bases[k]);
      forall n
        ensures Covers(rangeslist + more, n) <==> Covers(rangeslist, n) || Covers(more, n)
      {
        CoversConcat(rangeslist, more, n);
      }
      forall n: nat
        ensures ChangedInSome(bases[..k + 1], n) <==> ChangedInSome(bases[..k], n) || Changed(bases[k], n)
      {
        assert bases[..k + 1][k] == bases[k];
        assert forall j :: 0 <= j < k ==> bases[..k + 1][j] == bases[..k][j];
      }
      ghost var upto := bases[..k + 1];
      forall n: nat
        ensures Covers(rangeslist + more, n + 1) <==> ChangedInSome(upto, n)
      {
        assert Covers(more, n + 1) <==> Changed(bases[k], n);
        assert Covers(rangeslist, n + 1) <==> ChangedInSome(bases[..k], n);
      }
      rangeslist := rangeslist + more;
    }
    assert bases[..|bases|] == bases;
    ranges := UnionRanges(rangeslist);
  }

  /** What lies outside the ranges is a line that every base already has. */
  lemma LinesOutsideAreInEveryBase<T>(bases: seq<seq<Chunk>>, olds: seq<seq<T>>, added: seq<T>, ranges: seq<Range>,
      n: nat, k: nat)
    requires |olds| == |bases| && k < |bases| && n < |added|
    requires IsDiff(bases[k], olds[k], added)
    requires forall m: nat :: Covers(ranges, m + 1) <==> ChangedInSome(bases, m)
    requires !Covers(ranges, n + 1)
    ensures added[n] in olds[k]
  {
    assert Covers(ranges, n + 1) <==> ChangedInSome(bases, n);
    UnchangedLineIsOld(bases[k], olds[k], added, n);
  }
}
