/** The two algorithms of the C++ standard library that the tables use, over vectors ordered by
    a key.  Of the sort nothing is said about elements with equal keys. */
module Algorithms {
  predicate SortedBy<T>(s: seq<T>, key: T -> nat) {
    forall i, j | 0 <= i < j < |s| :: key(s[i]) <= key(s[j])
  }

  predicate StrictlySortedBy<T>(s: seq<T>, key: T -> nat) {
    forall i, j | 0 <= i < j < |s| :: key(s[i]) < key(s[j])
  }

  /** `i` splits the sequence into what is below `x` and what is not. */
  predicate IsLowerBound<T>(s: seq<T>, key: T -> nat, x: nat, i: nat) {
    && i <= |s|
    && (forall k | 0 <= k < i :: key(s[k]) < x)
    && (forall k | i <= k < |s| :: key(s[k]) >= x)
  }

  /** Where the first element that is not below `x` stands. */
  function LowerIndex<T>(s: seq<T>, key: T -> nat, x: nat): (i: nat)
    ensures i <= |s| && (i < |s| ==> key(s[i]) >= x)
    ensures forall k | 0 <= k < i :: key(s[k]) < x
  {
    if s == [] || key(s[0]) >= x then 0 else 1 + LowerIndex(s[1..], key, x)
  }

  lemma {:induction false} LowerIndexIs<T>(s: seq<T>, key: T -> nat, x: nat, i: nat)
    requires IsLowerBound(s, key, x, i)
    ensures i == LowerIndex(s, key, x)
    decreases |s|
  {
    if s != [] && key(s[0]) < x {
      assert i > 0;
      LowerIndexIs(s[1..], key, x, i - 1);
    }
  }

  method LowerBound<T>(s: seq<T>, key: T -> nat, x: nat) returns (i: nat)
    requires SortedBy(s, key)
    ensures IsLowerBound(s, key, x, i)
  {
    var lo, hi := 0, |s|;
    while lo < hi
      invariant 0 <= lo <= hi <= |s|
      invariant forall k | 0 <= k < lo :: key(s[k]) < x
      invariant forall k | hi <= k < |s| :: key(s[k]) >= x
    {
      var mid := lo + (hi - lo) / 2;
      if key(s[mid]) < x {
        lo := mid + 1;
      } else {
        hi := mid;
      }
    }
    i := lo;
  }

  function InsertAt<T>(s: seq<T>, i: nat, x: T): (r: seq<T>)
    requires i <= |s|
    ensures |r| == |s| + 1
    ensures forall k | 0 <= k < |r| :: r[k] == if k < i then s[k] else if k == i then x else s[k - 1]
  {
    s[..i] + [x] + s[i..]
  }

  /** Inserting at the lower bound of its own key keeps a vector sorted. */
  lemma InsertSorted<T>(s: seq<T>, key: T -> nat, x: T, i: nat)
    requires SortedBy(s, key) && IsLowerBound(s, key, key(x), i)
    ensures SortedBy(InsertAt(s, i, x), key)
    ensures StrictlySortedBy(s, key) && (i == |s| || key(s[i]) != key(x)) ==> StrictlySortedBy(InsertAt(s, i, x), key)
  {
  }

  method Sort<T(==)>(s: seq<T>, key: T -> nat) returns (r: seq<T>)
    ensures SortedBy(r, key)
    ensures multiset(r) == multiset(s)
  {
    r := [];
    var i := 0;
    while i < |s|
      invariant i <= |s|
      invariant SortedBy(r, key)
      invariant multiset(r) == multiset(s[..i])
    {
      var at := LowerBound(r, key, key(s[i]));
      InsertSorted(r, key, s[i], at);
      assert r == r[..at] + r[at..];
      assert s[..i + 1] == s[..i] + [s[i]];
      r := InsertAt(r, at, s[i]);
      i := i + 1;
    }
    assert s[..i] == s;
  }

  lemma WithoutFirst<T>(s: seq<T>)
    requires s != []
    ensures multiset(s[1..]) == multiset(s) - multiset{s[0]}
  {
    assert s == [s[0]] + s[1..];
  }

  lemma SameFirst<T>(r: seq<T>, s: seq<T>, key: T -> nat)
    requires SortedBy(r, key) && StrictlySortedBy(s, key) && multiset(r) == multiset(s) && s != []
    ensures r != [] && r[0] == s[0]
  {
    assert s[0] in multiset(r);
    var j :| 0 <= j < |r| && r[j] == s[0];
    assert r[0] in multiset(s);
    var i :| 0 <= i < |s| && s[i] == r[0];
    assert key(r[0]) <= key(s[0]);
  }

  /** Sorting what is strictly sorted already changes nothing. */
  lemma {:induction false} SortedAlready<T>(r: seq<T>, s: seq<T>, key: T -> nat)
    requires SortedBy(r, key) && StrictlySortedBy(s, key) && multiset(r) == multiset(s)
    ensures r == s
    decreases |s|
  {
    if s != [] {
      SameFirst(r, s, key);
      WithoutFirst(r);
      WithoutFirst(s);
      SortedAlready(r[1..], s[1..], key);
      assert r == [r[0]] + r[1..] && s == [s[0]] + s[1..];
    } else {
      assert |multiset(r)| == 0;
    }
  }
}
