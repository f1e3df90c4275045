/** Sequences without repetition, and the sets they list. */
module Lists {

  datatype Option<+T> = None | Some(value: T)

  ghost predicate Distinct<T>(s: seq<T>) {
    forall i, j :: 0 <= i < j < |s| ==> s[i] != s[j]
  }

  ghost function Elements<T>(s: seq<T>): set<T> {
    set x | x in s
  }

  lemma ElementsConcat<T>(a: seq<T>, b: seq<T>)
    ensures Elements(a + b) == Elements(a) + Elements(b)
  {
    assert forall x :: x in a + b <==> x in a || x in b;
  }

  lemma ConcatAssociates<T>(a: seq<T>, b: seq<T>, c: seq<T>)
    ensures (a + b) + c == a + (b + c)
    ensures [] + a == a
  {
  }

  lemma NoElements<T>(s: seq<T>)
    ensures Elements(s) == {} ==> s == []
  {
    assert s != [] ==> s[0] in Elements(s);
  }

  lemma DistinctConcat<T>(a: seq<T>, b: seq<T>)
    requires Distinct(a) && Distinct(b) && Elements(a) !! Elements(b)
    ensures Distinct(a + b)
  {
    assert forall i :: 0 <= i < |a| ==> a[i] in Elements(a);
    assert forall i :: 0 <= i < |b| ==> b[i] in Elements(b);
  }

  lemma DistinctParts<T>(a: seq<T>, b: seq<T>)
    requires Distinct(a + b)
    ensures Distinct(a) && Distinct(b) && Elements(a) !! Elements(b)
  {
    var s := a + b;
    assert forall i :: 0 <= i < |a| ==> a[i] == s[i];
    assert forall i :: 0 <= i < |b| ==> b[i] == s[|a| + i];
  }

  lemma DistinctCount<T>(s: seq<T>)
    requires Distinct(s)
    ensures |Elements(s)| == |s|
  {
    if s != [] {
      var front, last := s[..|s| - 1], s[|s| - 1];
      assert s == front + [last];
      ElementsConcat(front, [last]);
      assert last !in front;
      DistinctCount(front);
      assert Elements(s) == Elements(front) + {last};
    }
  }

  lemma SmallerSet<T>(small: set<T>, big: set<T>)
    requires small <= big
    ensures |small| <= |big|
    ensures small != big ==> |small| < |big|
  {
    assert big == small + (big - small);
  }

  // ---------------------------------------------------------------------------------------
  // Orders

  /** A strict total order. */
  ghost predicate Ordering<T(!new)>(lt: (T, T) -> bool) {
    && (forall x :: !lt(x, x))
    && (forall x, y :: x == y || lt(x, y) || lt(y, x))
    && (forall x, y, z :: lt(x, y) && lt(y, z) ==> lt(x, z))
  }

  predicate LexBefore<T(==)>(lt: (T, T) -> bool, a: seq<T>, b: seq<T>) {
    b != [] && (a == [] || lt(a[0], b[0]) || (a[0] == b[0] && LexBefore(lt, a[1..], b[1..])))
  }

  /** The lexicographic order on sequences. */
  function Lex<T(==)>(lt: (T, T) -> bool): (seq<T>, seq<T>) -> bool {
    (a, b) => LexBefore(lt, a, b)
  }

  lemma LexOrdering<T(!new)>(lt: (T, T) -> bool)
    requires Ordering(lt)
    ensures Ordering(Lex(lt))
  {
    forall a
      ensures !Lex(lt)(a, a)
    {
      LexIrreflexive(lt, a);
    }
    forall a, b
      ensures a == b || Lex(lt)(a, b) || Lex(lt)(b, a)
    {
      LexTotal(lt, a, b);
    }
    forall a, b, c | Lex(lt)(a, b) && Lex(lt)(b, c)
      ensures Lex(lt)(a, c)
    {
      LexTransitive(lt, a, b, c);
    }
  }

  lemma {:induction false} LexIrreflexive<T(!new)>(lt: (T, T) -> bool, a: seq<T>)
    requires Ordering(lt)
    ensures !LexBefore(lt, a, a)
  {
    if a != [] {
      LexIrreflexive(lt, a[1..]);
    }
  }

  lemma {:induction false} LexTotal<T(!new)>(lt: (T, T) -> bool, a: seq<T>, b: seq<T>)
    requires Ordering(lt)
    ensures a == b || LexBefore(lt, a, b) || LexBefore(lt, b, a)
  {
    if a != [] && b != [] && a[0] == b[0] {
      LexTotal(lt, a[1..], b[1..]);
      assert a == [a[0]] + a[1..] && b == [b[0]] + b[1..];
    }
  }

  lemma {:induction false} LexTransitive<T(!new)>(lt: (T, T) -> bool, a: seq<T>, b: seq<T>, c: seq<T>)
    requires Ordering(lt) && LexBefore(lt, a, b) && LexBefore(lt, b, c)
    ensures LexBefore(lt, a, c)
  {
    if a != [] && a[0] == b[0] == c[0] && !lt(a[0], b[0]) && !lt(b[0], c[0]) {
      LexTransitive(lt, a[1..], b[1..], c[1..]);
    }
  }

  /** One sequence comes before another if it is a proper prefix of it, or smaller where they first differ. */
  ghost predicate FirstDifference<T>(lt: (T, T) -> bool, a: seq<T>, b: seq<T>) {
    exists k :: 0 <= k <= |a| && k < |b| && a[..k] == b[..k] && (k == |a| || lt(a[k], b[k]))
  }

  lemma {:induction false} LexMeans<T(!new)>(lt: (T, T) -> bool, a: seq<T>, b: seq<T>)
    requires LexBefore(lt, a, b)
    ensures FirstDifference(lt, a, b)
  {
    if a == [] || lt(a[0], b[0]) {
      assert a[..0] == b[..0];
    } else {
      LexMeans(lt, a[1..], b[1..]);
      var k :| 0 <= k <= |a[1..]| && k < |b[1..]| && a[1..][..k] == b[1..][..k]
               && (k == |a[1..]| || lt(a[1..][k], b[1..][k]));
      assert a[..k + 1] == [a[0]] + a[1..][..k] && b[..k + 1] == [b[0]] + b[1..][..k];
    }
  }

  /** Byte strings are ordered by their first difference. */
  function StringOrder(): (string, string) -> bool {
    Lex((x: char, y: char) => x < y)
  }

  lemma StringsOrdered()
    ensures Ordering(StringOrder())
  {
    LexOrdering((x: char, y: char) => x < y);
  }

  /** `list(s)`, in some order. */
  method SetToList<T(==)>(s: set<T>) returns (l: seq<T>)
    ensures Distinct(l) && Elements(l) == s
  {
    l := [];
    var rest := s;
    while rest != {}
      invariant Distinct(l) && Elements(l) + rest == s && Elements(l) !! rest
    {
      var x :| x in rest;
      assert x !in Elements(l);
      l, rest := l + [x], rest - {x};
    }
  }
}
