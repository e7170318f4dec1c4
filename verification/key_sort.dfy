/**
 * Python's `sorted(xs, key=...)` and `list.sort(key=...)` for keys that are tuples of
 * integers, compared the way Python compares tuples, and `sorted()` of a set of integers.
 * The sort is stable: each element goes after every element whose key is not greater.
 */
module KeySort {

  /** Python tuple order `a <= b` on integer tuples; a proper prefix is smaller. */
  predicate TupleLessEq(a: seq<int>, b: seq<int>) {
    if a == [] then true
    else if b == [] then false
    else if a[0] != b[0] then a[0] < b[0]
    else TupleLessEq(a[1..], b[1..])
  }

  /** Any two tuples are ordered one way or the other. */
  lemma {:induction false} TupleTotal(a: seq<int>, b: seq<int>)
    ensures TupleLessEq(a, b) || TupleLessEq(b, a)
  {
    if a != [] && b != [] && a[0] == b[0] {
      TupleTotal(a[1..], b[1..]);
    }
  }

  /** Each element's key is at most the next one's. */
  predicate SortedBy<T>(xs: seq<T>, key: T -> seq<int>) {
    forall i :: 0 <= i < |xs| - 1 ==> TupleLessEq(key(xs[i]), key(xs[i + 1]))
  }

  /** Insert `x` after the last element whose key is not greater than its own. */
  function InsertBy<T>(xs: seq<T>, x: T, key: T -> seq<int>): (r: seq<T>)
    ensures multiset(r) == multiset(xs) + multiset{x}
    ensures |r| == |xs| + 1
    ensures r[|r| - 1] == x || (xs != [] && r[|r| - 1] == xs[|xs| - 1])
  {
    if xs == [] || TupleLessEq(key(xs[|xs| - 1]), key(x)) then xs + [x]
    else
      var init := xs[..|xs| - 1];
      assert xs == init + [xs[|xs| - 1]];
      InsertBy(init, x, key) + [xs[|xs| - 1]]
  }

  lemma {:induction false} InsertSorted<T>(xs: seq<T>, x: T, key: T -> seq<int>)
    requires SortedBy(xs, key)
    ensures SortedBy(InsertBy(xs, x, key), key)
  {
    if xs != [] && !TupleLessEq(key(xs[|xs| - 1]), key(x)) {
      var init, last := xs[..|xs| - 1], xs[|xs| - 1];
      assert SortedBy(init, key) by {
        forall i | 0 <= i < |init| - 1 ensures TupleLessEq(key(init[i]), key(init[i + 1])) {
          assert init[i] == xs[i] && init[i + 1] == xs[i + 1];
        }
      }
      InsertSorted(init, x, key);
      TupleTotal(key(last), key(x));
      var r := InsertBy(init, x, key);
      assert TupleLessEq(key(r[|r| - 1]), key(last));
    }
  }

  /** `sorted(xs, key=key)`. */
  function SortBy<T>(xs: seq<T>, key: T -> seq<int>): (r: seq<T>)
    ensures multiset(r) == multiset(xs)
    ensures |r| == |xs|
  {
    if xs == [] then []
    else
      assert xs == xs[..|xs| - 1] + [xs[|xs| - 1]];
      InsertBy(SortBy(xs[..|xs| - 1], key), xs[|xs| - 1], key)
  }

  /** The result of the sort is in key order. */
  lemma {:induction false} SortBySorted<T>(xs: seq<T>, key: T -> seq<int>)
    ensures SortedBy(SortBy(xs, key), key)
  {
    if xs != [] {
      SortBySorted(xs[..|xs| - 1], key);
      InsertSorted(SortBy(xs[..|xs| - 1], key), xs[|xs| - 1], key);
    }
  }

  predicate StrictlyAscending(xs: seq<int>) {
    forall i :: 0 <= i < |xs| - 1 ==> xs[i] < xs[i + 1]
  }

  function InsertInt(xs: seq<int>, x: int): (r: seq<int>)
    requires StrictlyAscending(xs) && x !in xs
    ensures StrictlyAscending(r)
    ensures forall y :: y in r <==> y in xs || y == x
    ensures r[|r| - 1] == x || (xs != [] && r[|r| - 1] == xs[|xs| - 1])
  {
    if xs == [] || xs[|xs| - 1] < x then xs + [x]
    else
      var init := xs[..|xs| - 1];
      assert xs == init + [xs[|xs| - 1]];
      InsertInt(init, x) + [xs[|xs| - 1]]
  }

  /** Some element of a non-empty set. */
  ghost function Pick(s: set<int>): (x: int)
    requires s != {}
    ensures x in s
  {
    EmptyIfNone(s);
    var e :| e in s; e
  }

  /** A set with no elements is the empty set. */
  lemma EmptyIfNone(s: set<int>)
    ensures (forall e :: e !in s) ==> s == {}
  {
    if forall e :: e !in s {
      assert s == {};
    }
  }

  /** `sorted(keys)` for a set of integers. */
  method SortInts(s: set<int>) returns (r: seq<int>)
    ensures StrictlyAscending(r)
    ensures forall y :: y in r <==> y in s
  {
    r := [];
    var rest := s;
    while rest != {}
      invariant rest <= s
      invariant StrictlyAscending(r)
      invariant forall y :: y in r <==> y in s && y !in rest
      decreases |rest|
    {
      ghost var w := Pick(rest);
      var x :| x in rest;
      assert x !in r;
      r := InsertInt(r, x);
      rest := rest - {x};
    }
  }
}
