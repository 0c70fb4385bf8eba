/** The tabu list of the tabu search: a multimap from remaining tenure to a
    normalised city pair, kept here as a sequence ordered by tenure in which
    equal tenures keep their insertion order. */
module Tabu {
  import opened Sorting

  datatype TenureType = Constant | Random

  /** A city pair, smaller city first once normalised. */
  type Move = (int, int)

  /** A list entry: remaining tenure and the move. */
  type Entry = (int, Move)

  /** The pair with the smaller city first. */
  function Normalize(a: int, b: int): (m: Move)
    ensures m.0 <= m.1
    ensures (m.0 == a && m.1 == b) || (m.0 == b && m.1 == a)
  {
    if a > b then (b, a) else (a, b)
  }

  /** The order of the two cities does not matter. */
  lemma NormalizeSymmetric(a: int, b: int)
    ensures Normalize(a, b) == Normalize(b, a)
  {
  }

  /** The size check after an insertion: the size is compared as an unsigned
      number, so a negative limit never evicts; otherwise the entry with the
      smallest tenure (the first) goes when the size exceeds the limit. */
  function Enforced(es: seq<Entry>, limit: int): (r: seq<Entry>)
    ensures |r| <= |es|
  {
    if limit >= 0 && |es| > limit then es[1..] else es
  }

  /** The list after inserting `x` and enforcing the limit. */
  function Added(es: seq<Entry>, x: Entry, limit: int): (r: seq<Entry>)
    requires SortedByKey(es)
    ensures SortedByKey(r)
    ensures |es| <= |r| <= |es| + 1
    ensures 0 <= limit && |es| <= limit ==> |r| <= limit
  {
    Enforced(Insert(es, x), limit)
  }

  /** The moves on the list, in list order. */
  function Moves(es: seq<Entry>): (r: seq<Move>)
    ensures |r| == |es|
    ensures forall i :: 0 <= i < |es| ==> r[i] == es[i].1
  {
    Items(es)
  }

  /** One decrement: every tenure lowered by one, and the entries that reach
      zero or less dropped; the rest keep their order. */
  function Decremented(es: seq<Entry>): (r: seq<Entry>)
    ensures |r| <= |es|
  {
    if es == [] then []
    else
      var last := es[|es| - 1];
      Decremented(es[..|es| - 1]) + (if last.0 - 1 > 0 then [(last.0 - 1, last.1)] else [])
  }

  /** `k` decrements in a row. */
  function DecrementedTimes(es: seq<Entry>, k: nat): (r: seq<Entry>)
    ensures |r| <= |es|
  {
    if k == 0 then es else Decremented(DecrementedTimes(es, k - 1))
  }

  lemma {:induction false} DecrementedEntries(es: seq<Entry>, e: Entry)
    ensures e in Decremented(es) <==> e.0 > 0 && (e.0 + 1, e.1) in es
  {
    if es != [] {
      var init := es[..|es| - 1];
      DecrementedEntries(init, e);
      assert es == init + [es[|es| - 1]];
    }
  }

  /** A decrement keeps a move exactly when some entry for it had tenure
      above one. */
  lemma DecrementedMoves(es: seq<Entry>, m: Move)
    ensures m in Moves(Decremented(es)) <==> exists i :: 0 <= i < |es| && es[i].1 == m && es[i].0 > 1
  {
    var d := Decremented(es);
    if m in Moves(d) {
      var j :| 0 <= j < |d| && Moves(d)[j] == m;
      var i := DecrementedSource(es, j);
    }
    if exists i :: 0 <= i < |es| && es[i].1 == m && es[i].0 > 1 {
      var i :| 0 <= i < |es| && es[i].1 == m && es[i].0 > 1;
      DecrementedMoveSurvives(es, i);
    }
  }

  /** The entry a decremented one comes from. */
  lemma {:induction false} DecrementedSource(es: seq<Entry>, j: int) returns (i: int)
    requires 0 <= j < |Decremented(es)|
    ensures 0 <= i < |es| && es[i].1 == Decremented(es)[j].1 && es[i].0 == Decremented(es)[j].0 + 1
    ensures Decremented(es)[j].0 > 0
  {
    var init := es[..|es| - 1];
    var last := es[|es| - 1];
    var tail := if last.0 - 1 > 0 then [(last.0 - 1, last.1)] else [];
    assert Decremented(es) == Decremented(init) + tail;
    if j < |Decremented(init)| {
      i := DecrementedSource(init, j);
    } else {
      i := |es| - 1;
    }
  }

  lemma DecrementedMoveSurvives(es: seq<Entry>, i: int)
    requires 0 <= i < |es| && es[i].0 > 1
    ensures es[i].1 in Moves(Decremented(es))
  {
    var d := Decremented(es);
    DecrementedEntries(es, (es[i].0 - 1, es[i].1));
    var j :| 0 <= j < |d| && d[j] == (es[i].0 - 1, es[i].1);
    assert Moves(d)[j] == es[i].1;
  }

  /** After `k` decrements a move is still on the list exactly when it was
      entered with a tenure above `k`: an entry with tenure t survives t - 1
      decrements and is gone after the t-th. */
  lemma SurvivesDecrements(es: seq<Entry>, k: nat, m: Move)
    requires k >= 1
    ensures m in Moves(DecrementedTimes(es, k)) <==> exists i :: 0 <= i < |es| && es[i].1 == m && es[i].0 > k
  {
    var d := DecrementedTimes(es, k);
    if m in Moves(d) {
      var j :| 0 <= j < |d| && Moves(d)[j] == m;
      TimesEntries(es, k, d[j]);
      var i :| 0 <= i < |es| && es[i] == (d[j].0 + k, m);
      assert es[i].1 == m && es[i].0 > k;
    }
    if exists i :: 0 <= i < |es| && es[i].1 == m && es[i].0 > k {
      var i :| 0 <= i < |es| && es[i].1 == m && es[i].0 > k;
      TimesEntries(es, k, (es[i].0 - k, m));
      var j :| 0 <= j < |d| && d[j] == (es[i].0 - k, m);
      assert Moves(d)[j] == m;
    }
  }

  lemma {:induction false} TimesEntries(es: seq<Entry>, k: nat, e: Entry)
    requires k >= 1
    ensures e in DecrementedTimes(es, k) <==> e.0 > 0 && (e.0 + k, e.1) in es
  {
    DecrementedEntries(DecrementedTimes(es, k - 1), e);
    if k > 1 {
      TimesEntries(es, k - 1, (e.0 + 1, e.1));
    }
  }

  /** A decrement keeps the list ordered by tenure. */
  lemma {:induction false} DecrementedSorted(es: seq<Entry>)
    requires SortedByKey(es)
    ensures SortedByKey(Decremented(es))
  {
    if es != [] {
      var init := es[..|es| - 1];
      var last := es[|es| - 1];
      DecrementedSorted(init);
      var d := Decremented(init);
      forall i | 0 <= i < |d|
        ensures d[i].0 <= last.0 - 1
      {
        DecrementedEntries(init, d[i]);
      }
    }
  }

  lemma MovesCons(e: Entry, es: seq<Entry>)
    ensures Moves([e] + es) == [e.1] + Moves(es)
  {
    assert forall i :: 0 <= i < |es| ==> ([e] + es)[i + 1] == es[i];
  }

  lemma {:induction false} ItemsInsert(es: seq<Entry>, x: Entry)
    requires SortedByKey(es)
    ensures multiset(Moves(Insert(es, x))) == multiset(Moves(es)) + multiset{x.1}
  {
    if es == [] {
    } else if x.0 < es[0].0 {
      assert Moves([x] + es) == [x.1] + Moves(es);
    } else {
      InsertUnfold(es, x);
      ItemsInsert(es[1..], x);
      MovesCons(es[0], Insert(es[1..], x));
      MovesCons(es[0], es[1..]);
    }
  }

  /** Every call adds an entry, so adding the same pair twice leaves two
      entries for it (as long as nothing is evicted). */
  lemma AddCounts(es: seq<Entry>, x: Entry)
    requires SortedByKey(es)
    ensures multiset(Moves(Insert(es, x)))[x.1] == multiset(Moves(es))[x.1] + 1
  {
    ItemsInsert(es, x);
  }

  /** Without an eviction, a move just added is tabu, in either city order. */
  lemma AddThenTabu(es: seq<Entry>, limit: int, t: int, a: int, b: int)
    requires SortedByKey(es)
    requires limit < 0 || |es| < limit
    ensures Normalize(b, a) in Moves(Added(es, (t, Normalize(a, b)), limit))
  {
    var x := (t, Normalize(a, b));
    AddCounts(es, x);
    assert Enforced(Insert(es, x), limit) == Insert(es, x);
    assert x.1 in multiset(Moves(Insert(es, x)));
  }

  class TabuList {
    const tenure: int
    const low: int
    const high: int
    const tenureType: TenureType
    const limit: int
    var entries: seq<Entry>

    /** The multimap order: tenures never decrease along the list. */
    predicate Valid()
      reads this
    {
      SortedByKey(entries)
    }

    constructor (tenure: int, range: (int, int), tenureType: TenureType, limit: int)
      ensures Valid() && entries == []
      ensures this.tenure == tenure && low == range.0 && high == range.1
      ensures this.tenureType == tenureType && this.limit == limit
    {
      this.tenure := tenure;
      low := range.0;
      high := range.1;
      this.tenureType := tenureType;
      this.limit := limit;
      entries := [];
    }

    /** get_tenure: the configured tenure, or the number `draw` drawn
        uniformly from the range. */
    function GetTenure(draw: int): (t: int)
      requires tenureType == Random ==> low <= draw <= high
      ensures tenureType == Constant ==> t == tenure
      ensures tenureType == Random ==> low <= t <= high
    {
      if tenureType == Random then draw else tenure
    }

    method EnforceLimit()
      requires Valid()
      modifies this
      ensures Valid() && entries == Enforced(old(entries), limit)
    {
      if limit >= 0 && |entries| > limit {
        entries := entries[1..];
      }
    }

    /** add_move: the normalised pair under a fresh tenure, then the limit. */
    method AddMove(a: int, b: int, draw: int)
      requires Valid()
      requires tenureType == Random ==> low <= draw <= high
      modifies this
      ensures Valid()
      ensures entries == Added(old(entries), (GetTenure(draw), Normalize(a, b)), limit)
    {
      var c1, c2 := a, b;
      if c1 > c2 {
        c1, c2 := c2, c1;
      }
      entries := Insert(entries, (GetTenure(draw), (c1, c2)));
      EnforceLimit();
    }

    /** is_tabu: a scan for the normalised pair; the list is left alone. */
    method IsTabu(a: int, b: int) returns (r: bool)
      ensures r <==> Normalize(a, b) in Moves(entries)
    {
      var c1, c2 := a, b;
      if c1 > c2 {
        c1, c2 := c2, c1;
      }
      for i := 0 to |entries|
        invariant forall k :: 0 <= k < i ==> entries[k].1 != (c1, c2)
      {
        if entries[i].1 == (c1, c2) {
          assert Moves(entries)[i] == (c1, c2);
          return true;
        }
      }
      return false;
    }

    /** decrement_tenure: every entry is erased, those whose lowered tenure
        stays positive are collected and inserted back. */
    method DecrementTenure()
      requires Valid()
      modifies this
      ensures Valid() && entries == Decremented(old(entries))
    {
      var updated := EraseAll();
      DecrementedSorted(old(entries));
      Reinsert(updated);
    }

    /** The erase loop of decrement_tenure, collecting the lowered entries. */
    method EraseAll() returns (updated: seq<Entry>)
      modifies this
      ensures entries == [] && updated == Decremented(old(entries))
    {
      ghost var original := entries;
      updated := [];
      var i := 0;
      while entries != []
        invariant 0 <= i <= |original| && entries == original[i..]
        invariant updated == Decremented(original[..i])
        decreases |entries|
      {
        var e := entries[0];
        assert original[..i + 1][..i] == original[..i];
        if e.0 - 1 > 0 {
          updated := updated + [(e.0 - 1, e.1)];
        }
        entries := entries[1..];
        i := i + 1;
      }
      assert original[..i] == original;
    }

    /** The reinsert loop of decrement_tenure: the collected entries are
        already in tenure order, so each insertion lands at the end. */
    method Reinsert(updated: seq<Entry>)
      requires entries == [] && SortedByKey(updated)
      modifies this
      ensures entries == updated
    {
      for k := 0 to |updated|
        invariant entries == updated[..k]
      {
        InsertLast(entries, updated[k]);
        assert updated[..k + 1] == updated[..k] + [updated[k]];
        entries := Insert(entries, updated[k]);
      }
      assert updated[..|updated|] == updated;
    }
  }
}
