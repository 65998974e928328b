/** Lexicographic order, and sorting whose result does not depend on how it was reached. */
module Ordering {

  predicate LexLess(a: seq<int>, b: seq<int>) {
    b != [] && (a == [] || a[0] < b[0] || (a[0] == b[0] && LexLess(a[1..], b[1..])))
  }

  lemma {:induction false} LexIrreflexive(a: seq<int>)
    ensures !LexLess(a, a)
  {
    if a != [] {
      LexIrreflexive(a[1..]);
    }
  }

  lemma {:induction false} LexTransitive(a: seq<int>, b: seq<int>, c: seq<int>)
    requires LexLess(a, b) && LexLess(b, c)
    ensures LexLess(a, c)
  {
    if a != [] && a[0] == b[0] && b[0] == c[0] {
      LexTransitive(a[1..], b[1..], c[1..]);
    }
  }

  lemma {:induction false} LexTotal(a: seq<int>, b: seq<int>)
    ensures a == b || LexLess(a, b) || LexLess(b, a)
  {
    if a != [] && b != [] && a[0] == b[0] {
      LexTotal(a[1..], b[1..]);
      assert a == [a[0]] + a[1..] && b == [b[0]] + b[1..];
    }
  }

  /** They differ first at k, where a is smaller or has ended. */
  ghost predicate SmallerAt(a: seq<int>, b: seq<int>, k: nat) {
    k <= |a| && k < |b| && a[..k] == b[..k] && (k < |a| ==> a[k] < b[k])
  }

  /** The order is that of the first difference. */
  lemma {:induction false} LexLessIff(a: seq<int>, b: seq<int>)
    ensures LexLess(a, b) <==> exists k: nat :: SmallerAt(a, b, k)
  {
    if b == [] {
    } else if a == [] || a[0] < b[0] {
      assert SmallerAt(a, b, 0);
    } else if a[0] == b[0] {
      LexLessIff(a[1..], b[1..]);
      if k: nat :| SmallerAt(a[1..], b[1..], k) {
        assert a[..k + 1] == [a[0]] + a[1..][..k] && b[..k + 1] == [b[0]] + b[1..][..k];
        assert SmallerAt(a, b, k + 1);
      }
      if k: nat :| SmallerAt(a, b, k) {
        assert a[..k][0] == a[0] || k == 0;
        assert a[1..][..k - 1] == a[..k][1..] && b[1..][..k - 1] == b[..k][1..];
        assert SmallerAt(a[1..], b[1..], k - 1);
      }
    } else {
      forall k: nat ensures !SmallerAt(a, b, k) {
        assert 0 < k <= |a| && k <= |b| ==> a[..k][0] != b[..k][0];
      }
    }
  }

  ghost predicate StrictOrder<T(!new)>(less: (T, T) -> bool) {
    && (forall x :: !less(x, x))
    && (forall x, y, z :: less(x, y) && less(y, z) ==> less(x, z))
  }

  ghost predicate Sorted<T>(less: (T, T) -> bool, s: seq<T>) {
    forall i, j :: 0 <= i < j < |s| ==> less(s[i], s[j])
  }

  /** A set has only one strictly sorted listing. */
  lemma {:induction false} SortedUnique<T(!new)>(less: (T, T) -> bool, a: seq<T>, b: seq<T>)
    requires StrictOrder(less) && Sorted(less, a) && Sorted(less, b)
    requires forall x :: x in a <==> x in b
    ensures a == b
  {
    if a == [] {
      assert forall i :: 0 <= i < |b| ==> b[i] in a;
    } else {
      assert a[0] in b && b != [] && b[0] in a;
      assert a[0] == b[0] by {
        var i :| 0 <= i < |b| && b[i] == a[0];
        var j :| 0 <= j < |a| && a[j] == b[0];
      }
      forall x ensures x in a[1..] <==> x in b[1..] {
        assert x in a[1..] ==> x in a && less(a[0], x);
        assert x in b[1..] ==> x in b && less(b[0], x);
        assert x in a && x != a[0] ==> x in a[1..];
        assert x in b && x != b[0] ==> x in b[1..];
      }
      SortedUnique(less, a[1..], b[1..]);
      assert a == [a[0]] + a[1..] && b == [b[0]] + b[1..];
    }
  }

  ghost predicate Distinct<T>(s: seq<T>) {
    forall i, j :: 0 <= i < j < |s| ==> s[i] != s[j]
  }

  ghost predicate TotalOn<T>(less: (T, T) -> bool, s: seq<T>) {
    forall i, j :: 0 <= i < j < |s| ==> less(s[i], s[j]) || less(s[j], s[i])
  }

  method Insert<T(!new)>(less: (T, T) -> bool, s: seq<T>, x: T) returns (r: seq<T>)
    requires StrictOrder(less) && Sorted(less, s)
    requires forall y :: y in s ==> less(x, y) || less(y, x)
    ensures Sorted(less, r) && |r| == |s| + 1
    ensures forall y :: y in r <==> y in s || y == x
  {
    var i := 0;
    while i < |s| && less(s[i], x)
      invariant i <= |s|
      invariant forall k :: 0 <= k < i ==> less(s[k], x)
    {
      i := i + 1;
    }
    r := s[..i] + [x] + s[i..];
    assert i < |s| ==> s[i] in s && less(x, s[i]);
    InsertedAt(less, s, x, i, r);
  }

  lemma InsertedAt<T(!new)>(less: (T, T) -> bool, s: seq<T>, x: T, i: nat, r: seq<T>)
    requires StrictOrder(less) && Sorted(less, s) && i <= |s|
    requires (forall k :: 0 <= k < i ==> less(s[k], x)) && (i < |s| ==> less(x, s[i]))
    requires r == s[..i] + [x] + s[i..]
    ensures Sorted(less, r)
    ensures forall y :: y in r <==> y in s || y == x
  {
    assert s == s[..i] + s[i..];
    forall j, k | 0 <= j < k < |r| ensures less(r[j], r[k]) {
      assert k > i ==> r[k] == s[k - 1] && (k - 1 == i || less(s[i], s[k - 1]));
      assert j > i ==> r[j] == s[j - 1];
    }
  }

  /** Stands for the library sort: all that a caller learns is that the result is a sorted
      listing of the same elements, which by SortedUnique is only one sequence. */
  method Sort<T(!new)>(less: (T, T) -> bool, s: seq<T>) returns (r: seq<T>)
    requires StrictOrder(less) && TotalOn(less, s)
    ensures Sorted(less, r) && |r| == |s|
    ensures forall x :: x in r <==> x in s
  {
    r := [];
    for i := 0 to |s|
      invariant Sorted(less, r) && |r| == i
      invariant forall x :: x in r <==> x in s[..i]
    {
      forall y | y in r ensures less(s[i], y) || less(y, s[i]) {
        var k :| 0 <= k < i && s[..i][k] == y;
        assert s[k] == y;
      }
      r := Insert(less, r, s[i]);
      assert s[..i + 1] == s[..i] + [s[i]];
    }
    assert s[..|s|] == s;
  }
}
