/** Key-ordered sequences of (key, item) pairs. `Insert` places an item after
    every item whose key is not larger, which is where `std::multimap::insert`
    puts it; `SortByKey` inserts the items one by one, which gives the stable
    order of Python's `list.sort(key=...)`. */
module Sorting {
  import opened Wrappers

  predicate SortedByKey<T>(xs: seq<(int, T)>) {
    forall i, j :: 0 <= i < j < |xs| ==> xs[i].0 <= xs[j].0
  }

  /** The items of `xs` whose key is `k`, in their order in `xs`. */
  function WithKey<T>(xs: seq<(int, T)>, k: int): (r: seq<(int, T)>)
    ensures forall i :: 0 <= i < |r| ==> r[i].0 == k
    ensures |r| <= |xs|
  {
    if xs == [] then [] else (if xs[0].0 == k then [xs[0]] else []) + WithKey(xs[1..], k)
  }

  lemma {:induction false} WithKeyConcat<T>(a: seq<(int, T)>, b: seq<(int, T)>, k: int)
    ensures WithKey(a + b, k) == WithKey(a, k) + WithKey(b, k)
  {
    if a != [] {
      WithKeyConcat(a[1..], b, k);
      assert (a + b)[1..] == a[1..] + b;
    } else {
      assert a + b == b;
    }
  }

  lemma {:induction false} WithKeyNone<T>(xs: seq<(int, T)>, k: int)
    requires forall i :: 0 <= i < |xs| ==> xs[i].0 != k
    ensures WithKey(xs, k) == []
  {
    if xs != [] {
      WithKeyNone(xs[1..], k);
    }
  }

  /** Insertion after the last item whose key is not larger than `x`'s. */
  function Insert<T>(xs: seq<(int, T)>, x: (int, T)): (r: seq<(int, T)>)
    requires SortedByKey(xs)
    ensures SortedByKey(r)
    ensures |r| == |xs| + 1
    ensures r[0] == x || (xs != [] && r[0] == xs[0])
  {
    if xs == [] then [x]
    else if x.0 < xs[0].0 then [x] + xs
    else
      var rest := Insert(xs[1..], x);
      assert xs == [xs[0]] + xs[1..];
      assert forall i :: 0 <= i < |rest| ==> xs[0].0 <= rest[0].0 <= rest[i].0;
      [xs[0]] + rest
  }

  lemma WithKeyCons<T>(x: (int, T), xs: seq<(int, T)>, k: int)
    ensures WithKey([x] + xs, k) == (if x.0 == k then [x] else []) + WithKey(xs, k)
  {
    assert ([x] + xs)[1..] == xs;
  }

  /** Insertion adds exactly the inserted item. */
  lemma {:induction false} InsertPermutes<T>(xs: seq<(int, T)>, x: (int, T))
    requires SortedByKey(xs)
    ensures multiset(Insert(xs, x)) == multiset(xs) + multiset{x}
  {
    if xs != [] && x.0 >= xs[0].0 {
      InsertPermutes(xs[1..], x);
      assert xs == [xs[0]] + xs[1..];
    }
  }

  /** Among equal keys, the inserted item comes last. */
  lemma {:induction false} InsertStable<T>(xs: seq<(int, T)>, x: (int, T), k: int)
    requires SortedByKey(xs)
    ensures WithKey(Insert(xs, x), k) == WithKey(xs, k) + (if x.0 == k then [x] else [])
  {
    if xs == [] {
      WithKeyCons(x, xs, k);
      assert [x] + xs == [x];
    } else if x.0 < xs[0].0 {
      InsertFront(xs, x, k);
    } else {
      assert SortedByKey(xs[1..]);
      InsertStable(xs[1..], x, k);
      InsertBehind(xs, x, k);
    }
  }

  /** An item with a smaller key than the first goes in front. */
  lemma InsertFront<T>(xs: seq<(int, T)>, x: (int, T), k: int)
    requires SortedByKey(xs) && xs != [] && x.0 < xs[0].0
    ensures WithKey(Insert(xs, x), k) == WithKey(xs, k) + (if x.0 == k then [x] else [])
  {
    assert Insert(xs, x) == [x] + xs;
    if x.0 == k {
      forall i | 0 <= i < |xs| ensures xs[i].0 != k {
        assert xs[0].0 <= xs[i].0;
      }
    }
    hide *;
    WithKeyCons(x, xs, k);
    if x.0 == k {
      WithKeyNone(xs, k);
    }
  }

  /** Otherwise the first item stays first and `x` goes into the rest. */
  lemma InsertBehind<T>(xs: seq<(int, T)>, x: (int, T), k: int)
    requires SortedByKey(xs) && xs != [] && x.0 >= xs[0].0
    requires WithKey(Insert(xs[1..], x), k) == WithKey(xs[1..], k) + (if x.0 == k then [x] else [])
    ensures WithKey(Insert(xs, x), k) == WithKey(xs, k) + (if x.0 == k then [x] else [])
  {
    InsertUnfold(xs, x);
    WithKeyCons(xs[0], Insert(xs[1..], x), k);
    WithKeyCons(xs[0], xs[1..], k);
  }

  lemma InsertUnfold<T>(xs: seq<(int, T)>, x: (int, T))
    requires SortedByKey(xs) && xs != [] && x.0 >= xs[0].0
    ensures SortedByKey(xs[1..])
    ensures xs == [xs[0]] + xs[1..]
    ensures Insert(xs, x) == [xs[0]] + Insert(xs[1..], x)
  {
  }

  /** `x` goes in at one position and the other items keep their order. */
  lemma {:induction false} InsertSplit<T>(xs: seq<(int, T)>, x: (int, T)) returns (p: nat)
    requires SortedByKey(xs)
    ensures p <= |xs| && Insert(xs, x) == xs[..p] + [x] + xs[p..]
  {
    if xs == [] || x.0 < xs[0].0 {
      p := 0;
    } else {
      InsertUnfold(xs, x);
      var q := InsertSplit(xs[1..], x);
      p := q + 1;
      assert xs[..p] == [xs[0]] + xs[1..][..q];
      assert xs[p..] == xs[1..][q..];
    }
  }

  /** Stable sort by key. */
  function SortByKey<T>(xs: seq<(int, T)>): (r: seq<(int, T)>)
    ensures SortedByKey(r)
    ensures |r| == |xs|
  {
    if xs == [] then []
    else
      var n := |xs| - 1;
      assert xs == xs[..n] + [xs[n]];
      Insert(SortByKey(xs[..n]), xs[n])
  }

  /** Sorting only reorders. */
  lemma {:induction false} SortPermutes<T>(xs: seq<(int, T)>)
    ensures multiset(SortByKey(xs)) == multiset(xs)
  {
    if xs != [] {
      var n := |xs| - 1;
      var init := xs[..n];
      assert SortByKey(xs) == Insert(SortByKey(init), xs[n]);
      assert xs == init + [xs[n]];
      hide *;
      SortPermutes(init);
      InsertPermutes(SortByKey(init), xs[n]);
    }
  }

  /** Items with equal keys keep their relative order. */
  lemma {:induction false} SortStable<T>(xs: seq<(int, T)>, k: int)
    ensures WithKey(SortByKey(xs), k) == WithKey(xs, k)
  {
    if xs != [] {
      var n := |xs| - 1;
      SortStable(xs[..n], k);
      InsertStable(SortByKey(xs[..n]), xs[n], k);
      assert xs == xs[..n] + [xs[n]];
      WithKeyConcat(xs[..n], [xs[n]], k);
    }
  }

  /** Sorting an already sorted sequence changes nothing. */
  lemma {:induction false} SortSorted<T>(xs: seq<(int, T)>)
    requires SortedByKey(xs)
    ensures SortByKey(xs) == xs
  {
    if xs != [] {
      var n := |xs| - 1;
      var init := xs[..n];
      assert SortedByKey(init) && forall i :: 0 <= i < |init| ==> init[i].0 <= xs[n].0;
      assert SortByKey(xs) == Insert(SortByKey(init), xs[n]);
      assert xs == init + [xs[n]];
      hide *;
      SortSorted(init);
      InsertLast(init, xs[n]);
    }
  }

  lemma {:induction false} InsertLast<T>(xs: seq<(int, T)>, x: (int, T))
    requires SortedByKey(xs)
    requires forall i :: 0 <= i < |xs| ==> xs[i].0 <= x.0
    ensures Insert(xs, x) == xs + [x]
  {
    if xs != [] {
      InsertLast(xs[1..], x);
      assert xs + [x] == [xs[0]] + (xs[1..] + [x]);
    }
  }

  /** The items without their keys. */
  function Items<T>(xs: seq<(int, T)>): (r: seq<T>)
    ensures |r| == |xs|
    ensures forall i :: 0 <= i < |xs| ==> r[i] == xs[i].1
  {
    if xs == [] then [] else [xs[0].1] + Items(xs[1..])
  }

  /** No item is listed twice. */
  predicate Distinct<T(==)>(s: seq<T>) {
    forall j, k :: 0 <= j < k < |s| ==> s[j] != s[k]
  }

  lemma {:induction false} AtMostOnce<T>(s: seq<T>, x: T)
    requires Distinct(s)
    ensures multiset(s)[x] <= 1
  {
    if s != [] {
      var n := |s| - 1;
      assert s == s[..n] + [s[n]];
      AtMostOnce(s[..n], x);
      if s[n] == x {
        forall k | 0 <= k < n
          ensures s[..n][k] != x
        {
          assert s[k] != s[n];
        }
        assert x !in s[..n];
      }
    }
  }

  /** A reordering of a list without repeats has no repeats. */
  lemma DistinctPerm<T>(a: seq<T>, b: seq<T>)
    requires Distinct(a) && multiset(a) == multiset(b)
    ensures Distinct(b)
  {
    forall j, k | 0 <= j < k < |b|
      ensures b[j] != b[k]
    {
      AtMostOnce(a, b[j]);
      assert b == b[..j] + [b[j]] + b[j + 1..k] + [b[k]] + b[k + 1..];
    }
  }

  /** The results of `f` that are present, in list order: a loop that
      tries every item and keeps what succeeds. */
  function Successes<A, B>(xs: seq<A>, f: A -> Option<B>): (r: seq<B>)
    ensures |r| <= |xs|
  {
    if xs == [] then []
    else
      var n := |xs| - 1;
      Successes(xs[..n], f) + (if f(xs[n]).Some? then [f(xs[n]).value] else [])
  }

  /** Trying the items of a concatenation tries each part in turn. */
  lemma {:induction false} SuccessesConcat<A, B>(xs: seq<A>, ys: seq<A>, f: A -> Option<B>)
    ensures Successes(xs + ys, f) == Successes(xs, f) + Successes(ys, f)
  {
    if ys == [] {
      assert xs + ys == xs;
    } else {
      var n := |ys| - 1;
      SuccessesConcat(xs, ys[..n], f);
      assert (xs + ys)[..|xs + ys| - 1] == xs + ys[..n];
    }
  }

  /** When every item succeeds, one result is kept per item, in order. */
  lemma {:induction false} SuccessesAll<A, B>(xs: seq<A>, f: A -> Option<B>)
    requires forall k :: 0 <= k < |xs| ==> f(xs[k]).Some?
    ensures |Successes(xs, f)| == |xs|
    ensures forall k :: 0 <= k < |xs| ==> Successes(xs, f)[k] == f(xs[k]).value
  {
    if xs != [] {
      var n := |xs| - 1;
      assert forall k :: 0 <= k < n ==> xs[..n][k] == xs[k];
      SuccessesAll(xs[..n], f);
    }
  }

  /** Concatenation is associative; stated once so that proofs hiding
      function bodies can regroup an appended log. */
  lemma ConcatAssoc<T>(a: seq<T>, b: seq<T>, c: seq<T>)
    ensures a + b + c == a + (b + c)
  {
  }
}
