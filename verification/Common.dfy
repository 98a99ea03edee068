/** Optional values, and the few facts about finite sets and lists the other modules share. */
module Common {

  datatype Option<+T> = None | Some(value: T)

  predicate Distinct<T(==)>(list: seq<T>)
  {
    forall i, j :: 0 <= i < j < |list| ==> list[i] != list[j]
  }

  lemma SubsetSize<T>(a: set<T>, b: set<T>)
    requires a <= b
    ensures |a| <= |b|
  {
    var rest := b - a;
    assert b == a + rest;
  }

  lemma ProperSubsetSize<T>(a: set<T>, b: set<T>)
    requires a < b
    ensures |a| < |b|
  {
    var rest := b - a;
    assert b == a + rest;
    var x :| x in rest;
  }

  /** A set of numbers below `n` has at most `n` elements. */
  lemma {:induction false} BelowSize(s: set<nat>, n: nat)
    requires forall k :: k in s ==> k < n
    ensures |s| <= n
  {
    if n == 0 {
      assert s == {};
    } else {
      BelowSize(s - {n - 1}, n - 1);
      assert s == (s - {n - 1}) + if n - 1 in s then {n - 1} else {};
    }
  }

  /** And all of them when it has `n`. */
  lemma BelowAll(s: set<nat>, n: nat)
    requires |s| == n && forall k :: k in s ==> k < n
    ensures forall k: nat :: k < n ==> k in s
  {
    forall k: nat | k < n ensures k in s {
      if k !in s { BelowSize(s + {k}, n); }
    }
  }

  lemma {:induction false} OnceEach<T>(list: seq<T>, x: T)
    requires Distinct(list)
    ensures multiset(list)[x] <= 1
  {
    if list != [] {
      OnceEach(list[1..], x);
      assert list == [list[0]] + list[1..];
      if list[0] == x { assert x !in list[1..]; }
    }
  }

  function Elements<T(!new, ==)>(list: seq<T>): (e: set<T>)
    ensures forall x :: x in e <==> x in list
  {
    if list == [] then {} else {list[0]} + Elements(list[1..])
  }

  lemma {:induction false} DistinctSize<T(!new)>(list: seq<T>)
    requires Distinct(list)
    ensures |Elements(list)| == |list|
  {
    if list != [] {
      var rest := list[1..];
      forall j | 0 <= j < |rest| ensures rest[j] == list[j + 1] && rest[j] != list[0] {}
      DistinctSize(rest);
    }
  }
}
