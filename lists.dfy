/** `Array.prototype.filter` over sequences, and the facts the task list needs about it. */
module Lists {

  /** The elements of `s` that satisfy `p`, in their original order. */
  function Filter<T(!new)>(s: seq<T>, p: T -> bool): (r: seq<T>)
    ensures |r| <= |s|
    ensures forall x :: x in r <==> x in s && p(x)
  {
    if s == [] then [] else (if p(s[0]) then [s[0]] else []) + Filter(s[1..], p)
  }

  /** Each kept element occurs as often as in `s`; every other element not at all. */
  lemma {:induction false} FilterMultiplicity<T(!new)>(s: seq<T>, p: T -> bool, x: T)
    ensures multiset(Filter(s, p))[x] == if p(x) then multiset(s)[x] else 0
  {
    if s != [] {
      FilterMultiplicity(s[1..], p, x);
      assert s == [s[0]] + s[1..];
    }
  }

  /** Filtering a list with a new head: the head is kept exactly when it passes the test. */
  lemma FilterCons<T(!new)>(x: T, s: seq<T>, p: T -> bool)
    ensures Filter([x] + s, p) == (if p(x) then [x] else []) + Filter(s, p)
  {
    assert ([x] + s)[0] == x && ([x] + s)[1..] == s;
  }

  lemma {:induction false} FilterAppend<T(!new)>(a: seq<T>, b: seq<T>, p: T -> bool)
    ensures Filter(a + b, p) == Filter(a, p) + Filter(b, p)
  {
    if a == [] {
      assert a + b == b;
    } else {
      assert (a + b)[0] == a[0] && (a + b)[1..] == a[1..] + b;
      FilterAppend(a[1..], b, p);
    }
  }

  lemma {:induction false} FilterKeepsAll<T(!new)>(s: seq<T>, p: T -> bool)
    requires forall x :: x in s ==> p(x)
    ensures Filter(s, p) == s
  {
    if s != [] {
      FilterKeepsAll(s[1..], p);
    }
  }

  lemma FilterDropsAll<T(!new)>(s: seq<T>, p: T -> bool)
    requires forall x :: x in s ==> !p(x)
    ensures Filter(s, p) == []
  {
  }

  /** Filtering twice is filtering once by the conjunction. */
  lemma {:induction false} FilterTwice<T(!new)>(s: seq<T>, p: T -> bool, q: T -> bool, pq: T -> bool)
    requires forall x :: x in s ==> pq(x) == (p(x) && q(x))
    ensures Filter(Filter(s, p), q) == Filter(s, pq)
  {
    if s != [] {
      FilterTwice(s[1..], p, q, pq);
      var head := if p(s[0]) then [s[0]] else [];
      assert Filter(s, p) == head + Filter(s[1..], p);
      FilterAppend(head, Filter(s[1..], p), q);
      if p(s[0]) {
        assert head[1..] == [];
        assert Filter(head, q) == (if q(s[0]) then [s[0]] else []);
      }
    }
  }

  /** A predicate and its negation split `s` into two parts that make up all of it. */
  lemma {:induction false} FilterSplit<T(!new)>(s: seq<T>, p: T -> bool, q: T -> bool)
    requires forall x :: x in s ==> q(x) == !p(x)
    ensures multiset(Filter(s, p)) + multiset(Filter(s, q)) == multiset(s)
  {
    if s != [] {
      assert s == [s[0]] + s[1..];
      FilterSplit(s[1..], p, q);
    }
  }

  /** The elements of rank `k`. */
  function RankIs<T>(rank: T -> nat, k: nat): T -> bool {
    (x: T) => rank(x) == k
  }

  /**
   * A stable bucket sort: the elements of `s` of rank `k` up to `n - 1`,
   * grouped by rank, each group in its original order.
   */
  function Buckets<T(!new)>(s: seq<T>, rank: T -> nat, k: nat, n: nat): seq<T>
    decreases n - k
  {
    if k >= n then [] else Filter(s, RankIs(rank, k)) + Buckets(s, rank, k + 1, n)
  }

  lemma {:induction false} BucketsEmpty<T(!new)>(rank: T -> nat, k: nat, n: nat)
    ensures Buckets([], rank, k, n) == []
    decreases n - k
  {
    if k < n {
      BucketsEmpty(rank, k + 1, n);
    }
  }

  lemma {:induction false} BucketsCons<T(!new)>(x: T, s: seq<T>, rank: T -> nat, k: nat, n: nat)
    ensures multiset(Buckets([x] + s, rank, k, n))
         == multiset(Buckets(s, rank, k, n)) + (if k <= rank(x) < n then multiset{x} else multiset{})
    decreases n - k
  {
    if k < n {
      BucketsCons(x, s, rank, k + 1, n);
      FilterCons(x, s, RankIs(rank, k));
      var head := if rank(x) == k then [x] else [];
      var a, b := Filter(s, RankIs(rank, k)), Buckets(s, rank, k + 1, n);
      var b' := Buckets([x] + s, rank, k + 1, n);
      assert Buckets([x] + s, rank, k, n) == head + a + b';
      assert Buckets(s, rank, k, n) == a + b;
      assert multiset(head + a + b') == multiset(head) + multiset(a) + multiset(b');
    }
  }

  /** Every element has a rank below `n`, so the buckets hold all of `s`. */
  lemma {:induction false} BucketsPermute<T(!new)>(s: seq<T>, rank: T -> nat, n: nat)
    requires forall x :: x in s ==> rank(x) < n
    ensures multiset(Buckets(s, rank, 0, n)) == multiset(s)
  {
    if s == [] {
      BucketsEmpty(rank, 0, n);
    } else {
      BucketsPermute(s[1..], rank, n);
      BucketsCons(s[0], s[1..], rank, 0, n);
      assert s == [s[0]] + s[1..];
    }
  }
}
