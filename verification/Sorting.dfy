/** Strictly sorted lists as canonical forms of finite sets. */
module Sorting {

  ghost predicate StrictTotalOrder<T(!new)>(less: (T, T) -> bool) {
    && (forall x :: !less(x, x))
    && (forall x, y, z :: less(x, y) && less(y, z) ==> less(x, z))
    && (forall x, y :: x == y || less(x, y) || less(y, x))
  }

  /** What `std::list::sort` promises: no element is less than an earlier one. */
  ghost predicate Sorted<T>(less: (T, T) -> bool, s: seq<T>) {
    forall i, j :: 0 <= i < j < |s| ==> !less(s[j], s[i])
  }

  ghost predicate StrictlySorted<T>(less: (T, T) -> bool, s: seq<T>) {
    forall i, j :: 0 <= i < j < |s| ==> less(s[i], s[j])
  }

  ghost function Elements<T>(s: seq<T>): set<T> {
    set x | x in s
  }

  /** `s` lists the set `elems` in ascending order without repeats. */
  ghost predicate IsEnumeration<T(!new)>(less: (T, T) -> bool, s: seq<T>, elems: set<T>) {
    StrictlySorted(less, s) && forall x :: x in s <==> x in elems
  }

  /** A set has at most one ascending enumeration. */
  lemma {:induction false} EnumerationUnique<T(!new)>(less: (T, T) -> bool, s: seq<T>, t: seq<T>, elems: set<T>)
    requires StrictTotalOrder(less)
    requires IsEnumeration(less, s, elems) && IsEnumeration(less, t, elems)
    ensures s == t
  {
    assert s == [] <==> elems == {} by {
      if s != [] { assert s[0] in elems; }
    }
    assert t == [] <==> elems == {} by {
      if t != [] { assert t[0] in elems; }
    }
    if s != [] {
      assert s[0] in t && t[0] in s;
      assert s[0] == t[0];
      assert s == [s[0]] + s[1..] && t == [t[0]] + t[1..];
      EnumerationUnique(less, s[1..], t[1..], elems - {s[0]});
    }
  }

  /** `s` is what is left of `t` when some elements are taken out: it has the same elements in the same order. */
  ghost predicate IsSubsequence<T(!new)>(s: seq<T>, t: seq<T>) {
    exists at: seq<nat> :: PicksAt(s, t, at)
  }

  ghost predicate PicksAt<T>(s: seq<T>, t: seq<T>, at: seq<nat>) {
    && |at| == |s|
    && (forall i :: 0 <= i < |s| ==> at[i] < |t| && t[at[i]] == s[i])
    && (forall i, j :: 0 <= i < j < |s| ==> at[i] < at[j])
  }

  lemma EmptyIsSubsequence<T(!new)>(t: seq<T>)
    ensures IsSubsequence([], t)
  {
    assert PicksAt([], t, []);
  }

  /** The head of `t` is kept or taken out. */
  lemma SubsequenceGrows<T(!new)>(s: seq<T>, t: seq<T>)
    requires t != [] && IsSubsequence(s, t[1..])
    ensures IsSubsequence(s, t) && IsSubsequence([t[0]] + s, t)
  {
    var at :| PicksAt(s, t[1..], at);
    var later := seq(|at|, i requires 0 <= i < |at| => at[i] + 1);
    assert PicksAt(s, t, later);
    assert PicksAt([t[0]] + s, t, [0] + later);
  }

  /** Ordered insertion. */
  function InsertSorted<T>(less: (T, T) -> bool, s: seq<T>, x: T): (r: seq<T>)
    ensures multiset(r) == multiset(s) + multiset{x}
  {
    if s == [] || less(x, s[0]) then
      assert [x] + s == [x] + s[..];
      [x] + s
    else
      assert s == [s[0]] + s[1..];
      [s[0]] + InsertSorted(less, s[1..], x)
  }

  lemma {:induction false} InsertSortedMembers<T(!new)>(less: (T, T) -> bool, s: seq<T>, x: T)
    ensures forall y :: y in InsertSorted(less, s, x) <==> y in s || y == x
    ensures |InsertSorted(less, s, x)| == |s| + 1
  {
    var r := InsertSorted(less, s, x);
    assert forall y :: y in r <==> y in multiset(r);
    assert forall y :: y in s <==> y in multiset(s);
    assert |multiset(r)| == |r| && |multiset(s)| == |s|;
  }

  lemma {:induction false} InsertSortedKeepsStrict<T(!new)>(less: (T, T) -> bool, s: seq<T>, x: T)
    requires StrictTotalOrder(less) && StrictlySorted(less, s) && x !in s
    ensures StrictlySorted(less, InsertSorted(less, s, x))
  {
    if s == [] || less(x, s[0]) {
    } else {
      InsertSortedKeepsStrict(less, s[1..], x);
      InsertSortedMembers(less, s[1..], x);
      var rest := InsertSorted(less, s[1..], x);
      forall y | y in rest ensures less(s[0], y) {
        assert x != s[0];
        if y in s[1..] {
          var k :| 0 <= k < |s[1..]| && s[1..][k] == y;
          assert s[k + 1] == y;
        }
      }
    }
  }

  lemma {:induction false} InsertSortedKeepsSorted<T(!new)>(less: (T, T) -> bool, s: seq<T>, x: T)
    requires StrictTotalOrder(less) && Sorted(less, s)
    ensures Sorted(less, InsertSorted(less, s, x))
  {
    if s == [] || less(x, s[0]) {
    } else {
      InsertSortedKeepsSorted(less, s[1..], x);
      InsertSortedMembers(less, s[1..], x);
      var rest := InsertSorted(less, s[1..], x);
      forall y | y in rest ensures !less(y, s[0]) {
        if y in s[1..] {
          var k :| 0 <= k < |s[1..]| && s[1..][k] == y;
          assert s[k + 1] == y;
        }
      }
    }
  }

  /** A finite set has an ascending enumeration. */
  lemma {:induction false} EnumerationExists<T(!new)>(less: (T, T) -> bool, elems: set<T>)
    requires StrictTotalOrder(less)
    ensures exists s :: IsEnumeration(less, s, elems)
  {
    if elems == {} {
      assert IsEnumeration(less, [], elems);
    } else {
      var x :| x in elems;
      EnumerationExists(less, elems - {x});
      var s :| IsEnumeration(less, s, elems - {x});
      InsertSortedKeepsStrict(less, s, x);
      InsertSortedMembers(less, s, x);
      assert IsEnumeration(less, InsertSorted(less, s, x), elems);
    }
  }

  /** A list without repeats is no longer than the set it draws from. */
  lemma {:induction false} StrictLength<T(!new)>(less: (T, T) -> bool, s: seq<T>, elems: set<T>)
    requires StrictTotalOrder(less) && StrictlySorted(less, s) && forall x :: x in s ==> x in elems
    ensures |s| <= |elems|
  {
    if s != [] {
      assert forall k :: 0 <= k < |s[1..]| ==> s[1..][k] == s[k + 1] && less(s[0], s[k + 1]);
      StrictLength(less, s[1..], elems - {s[0]});
    }
  }

  /** Every sorting of a strictly sorted list with one new element at its end is the ordered insertion. */
  lemma PushBackThenSort<T(!new)>(less: (T, T) -> bool, s: seq<T>, x: T, r: seq<T>)
    requires StrictTotalOrder(less) && StrictlySorted(less, s) && x !in s
    requires Sorted(less, r) && multiset(r) == multiset(s + [x])
    ensures r == InsertSorted(less, s, x)
  {
    var t := InsertSorted(less, s, x);
    InsertSortedKeepsStrict(less, s, x);
    assert multiset(r) == multiset(t);
    SortedPermutationStrict(less, t, r);
    assert forall y :: y in r <==> y in multiset(r);
    assert forall y :: y in t <==> y in multiset(t);
    EnumerationUnique(less, r, t, Elements(t));
  }

  lemma SortedPermutationStrict<T(!new)>(less: (T, T) -> bool, t: seq<T>, r: seq<T>)
    requires StrictTotalOrder(less) && StrictlySorted(less, t)
    requires Sorted(less, r) && multiset(r) == multiset(t)
    ensures StrictlySorted(less, r)
  {
    forall i, j | 0 <= i < j < |r| ensures less(r[i], r[j]) {
      if r[i] == r[j] {
        assert r == r[..j] + [r[j]] + r[j + 1..];
        assert r[i] in r[..j];
        assert multiset(r)[r[j]] >= 2;
        StrictlySortedMultiplicity(less, t, r[j]);
      }
    }
  }

  lemma {:induction false} StrictlySortedMultiplicity<T(!new)>(less: (T, T) -> bool, t: seq<T>, x: T)
    requires StrictTotalOrder(less) && StrictlySorted(less, t)
    ensures multiset(t)[x] <= 1
  {
    if t != [] {
      StrictlySortedMultiplicity(less, t[1..], x);
      assert t == [t[0]] + t[1..];
      if x == t[0] {
        assert forall k :: 0 <= k < |t[1..]| ==> t[1..][k] == t[k + 1] && less(t[0], t[k + 1]);
        assert x !in t[1..];
      }
    }
  }

  /** `std::list::sort(less)`, as an insertion sort. */
  method Sort<T(!new)>(less: (T, T) -> bool, s: seq<T>) returns (r: seq<T>)
    requires StrictTotalOrder(less)
    ensures Sorted(less, r) && multiset(r) == multiset(s)
  {
    r := [];
    for k := 0 to |s|
      invariant Sorted(less, r) && multiset(r) == multiset(s[..k])
    {
      InsertSortedKeepsSorted(less, r, s[k]);
      assert s[..k + 1] == s[..k] + [s[k]];
      r := InsertSorted(less, r, s[k]);
    }
    assert s[..|s|] == s;
  }
}
