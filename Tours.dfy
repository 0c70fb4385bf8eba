/** Tours over an n x n integer distance matrix, as both solvers use them:
    the closed-tour cost, the nearest-neighbour starting tour, and the moves
    that produce neighbouring tours. */
module Tours {
  import opened Sorting

  /** `std::numeric_limits<int>::max()`, the starting minimum of the greedy scan. */
  const IntMax := 2147483647

  predicate IsMatrix(d: seq<seq<int>>) {
    forall i :: 0 <= i < |d| ==> |d[i]| == |d|
  }

  /** Every distance is below the starting minimum of the greedy scan. */
  predicate Bounded(d: seq<seq<int>>) {
    forall i, j :: 0 <= i < |d| && 0 <= j < |d[i]| ==> d[i][j] < IntMax
  }

  predicate InRange(s: seq<int>, n: int) {
    forall k :: 0 <= k < |s| ==> 0 <= s[k] < n
  }

  /** A tour visits each of the cities 0..n-1 exactly once. */
  predicate IsTour(s: seq<int>, n: nat) {
    |s| == n && InRange(s, n) && Distinct(s)
  }

  /** Reordering a tour gives a tour. */
  lemma PermutationTour(s: seq<int>, t: seq<int>, n: nat)
    requires IsTour(s, n) && multiset(s) == multiset(t)
    ensures IsTour(t, n)
  {
    assert |t| == |multiset(t)| == |multiset(s)| == |s|;
    forall k | 0 <= k < |t|
      ensures 0 <= t[k] < n
    {
      assert t[k] in multiset(t);
      assert t[k] in s;
    }
    DistinctPerm(s, t);
  }

  // ---------------------------------------------------------------- cost

  /** The sum of the edges between consecutive cities of `s`. */
  function PathCost(d: seq<seq<int>>, s: seq<int>): int
    requires IsMatrix(d) && InRange(s, |d|)
  {
    if |s| <= 1 then 0
    else PathCost(d, s[..|s| - 1]) + d[s[|s| - 2]][s[|s| - 1]]
  }

  /** The closed tour: the path and the edge from the last city back to the first. */
  function TourCost(d: seq<seq<int>>, s: seq<int>): int
    requires IsMatrix(d) && InRange(s, |d|) && s != []
  {
    PathCost(d, s) + d[s[|s| - 1]][s[0]]
  }

  /** calculate_cost: the loop over consecutive pairs, then the closing edge.
      The source reads `solution.back()`, so it demands a non-empty tour. */
  method CalculateCost(d: seq<seq<int>>, s: seq<int>) returns (cost: int)
    requires IsMatrix(d) && InRange(s, |d|) && s != []
    ensures cost == TourCost(d, s)
  {
    cost := 0;
    for i := 0 to |s| - 1
      invariant cost == PathCost(d, s[..i + 1])
    {
      assert s[..i + 2][..i + 1] == s[..i + 1];
      cost := cost + d[s[i]][s[i + 1]];
    }
    assert s[..|s|] == s;
    cost := cost + d[s[|s| - 1]][s[0]];
  }

  lemma {:induction false} PathCons(d: seq<seq<int>>, a: int, t: seq<int>)
    requires IsMatrix(d) && 0 <= a < |d| && InRange(t, |d|) && t != []
    ensures PathCost(d, [a] + t) == d[a][t[0]] + PathCost(d, t)
    decreases |t|
  {
    var s := [a] + t;
    if |t| > 1 {
      assert s[..|s| - 1] == [a] + t[..|t| - 1];
      PathCons(d, a, t[..|t| - 1]);
    } else {
      assert s[..|s| - 1] == [a];
    }
  }

  lemma PathSnoc(d: seq<seq<int>>, t: seq<int>, a: int)
    requires IsMatrix(d) && 0 <= a < |d| && InRange(t, |d|) && t != []
    ensures PathCost(d, t + [a]) == PathCost(d, t) + d[t[|t| - 1]][a]
  {
    var s := t + [a];
    assert InRange(s, |d|);
    assert s[..|t|] == t;
    assert s[|s| - 2] == t[|t| - 1] && s[|s| - 1] == a;
    assert 0 <= t[|t| - 1] < |d| && |d[t[|t| - 1]]| == |d|;
    hide *;
    PathCostLast(d, s);
  }

  lemma PathCostLast(d: seq<seq<int>>, s: seq<int>)
    requires IsMatrix(d) && InRange(s, |d|) && |s| >= 2
    ensures InRange(s[..|s| - 1], |d|)
    ensures PathCost(d, s) == PathCost(d, s[..|s| - 1]) + d[s[|s| - 2]][s[|s| - 1]]
  {
  }

  /** The cost of a closed tour does not depend on the city it starts from. */
  lemma CostRotate(d: seq<seq<int>>, s: seq<int>)
    requires IsMatrix(d) && InRange(s, |d|) && s != []
    ensures TourCost(d, s[1..] + [s[0]]) == TourCost(d, s)
  {
    var t := s[1..];
    if t != [] {
      PathCons(d, s[0], t);
      assert [s[0]] + t == s;
      PathSnoc(d, t, s[0]);
    } else {
      assert s[1..] + [s[0]] == s;
    }
  }

  // -------------------------------------------------------------- greedy

  /** The state of the inner greedy scan after the cities below `upto`: the
      closest unvisited city so far (-1 for none) and its distance. A city
      replaces the current choice only when it is strictly nearer. */
  function Closest(row: seq<int>, visited: seq<bool>, upto: nat): (r: (int, int))
    requires upto <= |row| && upto <= |visited|
    ensures -1 <= r.0 < upto
    ensures r.0 == -1 ==> r.1 == IntMax
    ensures r.0 >= 0 ==> !visited[r.0] && row[r.0] == r.1
    ensures forall c :: 0 <= c < upto && !visited[c] ==> r.1 <= row[c]
    ensures r.0 >= 0 ==> forall c :: 0 <= c < r.0 && !visited[c] ==> r.1 < row[c]
  {
    if upto == 0 then (-1, IntMax)
    else
      var p := Closest(row, visited, upto - 1);
      if !visited[upto - 1] && row[upto - 1] < p.1 then (upto - 1, row[upto - 1]) else p
  }

  /** Step `k` of the tour went to the nearest city not yet on the tour, and
      to the lowest-numbered one among equally near cities. */
  predicate NearestAt(d: seq<seq<int>>, s: seq<int>, k: int)
    requires IsMatrix(d) && InRange(s, |d|) && 1 <= k < |s|
  {
    forall c :: 0 <= c < |d| && c !in s[..k] ==>
      d[s[k - 1]][s[k]] <= d[s[k - 1]][c] && (c < s[k] ==> d[s[k - 1]][s[k]] < d[s[k - 1]][c])
  }

  predicate NearestNeighbour(d: seq<seq<int>>, s: seq<int>)
    requires IsMatrix(d) && InRange(s, |d|)
  {
    forall k :: 1 <= k < |s| ==> NearestAt(d, s, k)
  }

  /** A tour shorter than n leaves a city out. */
  lemma {:induction false} Unvisited(s: seq<int>, n: nat)
    requires |s| < n && InRange(s, n) && Distinct(s)
    ensures exists c :: 0 <= c < n && c !in s
  {
    if n - 1 in s {
      var p :| 0 <= p < |s| && s[p] == n - 1;
      var t := s[..p] + s[p + 1..];
      assert forall k :: 0 <= k < |t| ==> t[k] == (if k < p then s[k] else s[k + 1]);
      forall k | 0 <= k < |t|
        ensures 0 <= t[k] < n - 1
      {
        if k < p { assert s[k] != s[p]; } else { assert s[k + 1] != s[p]; }
      }
      Unvisited(t, n - 1);
      var c :| 0 <= c < n - 1 && c !in t;
      forall q | 0 <= q < |s|
        ensures s[q] != c
      {
        if q < p {
          assert t[q] == s[q];
        } else if q > p {
          assert t[q - 1] == s[q];
        }
      }
      assert c !in s;
    } else {
      assert 0 <= n - 1 < n;
    }
  }

  /** The inner loop of the greedy step: the nearest unvisited city. */
  method ClosestCity(row: seq<int>, visited: seq<bool>) returns (closest: int, minDistance: int)
    requires |visited| == |row|
    ensures (closest, minDistance) == Closest(row, visited, |row|)
  {
    closest, minDistance := -1, IntMax;
    for city := 0 to |row|
      invariant (closest, minDistance) == Closest(row, visited, city)
    {
      if !visited[city] && row[city] < minDistance {
        closest, minDistance := city, row[city];
      }
    }
  }

  /** Appending a city keeps the earlier choices nearest. */
  lemma NearestExtend(d: seq<seq<int>>, s: seq<int>, c: int)
    requires IsMatrix(d) && InRange(s, |d|) && 0 <= c < |d| && NearestNeighbour(d, s)
    ensures InRange(s + [c], |d|)
    ensures forall k :: 1 <= k < |s| ==> NearestAt(d, s + [c], k)
  {
    var next := s + [c];
    forall k | 1 <= k < |s|
      ensures NearestAt(d, next, k)
    {
      assert next[..k] == s[..k];
      assert NearestAt(d, s, k);
    }
  }

  /** initialize_greedy_solution, with the randomly drawn first city passed
      in: every later city is the nearest one not yet visited. */
  method GreedyTour(d: seq<seq<int>>, start: int) returns (s: seq<int>)
    requires IsMatrix(d) && Bounded(d) && 0 <= start < |d|
    ensures IsTour(s, |d|) && s[0] == start
    ensures NearestNeighbour(d, s)
  {
    var n := |d|;
    s := [start];
    var visited := seq(n, c => c == start);
    var current := start;
    for step := 1 to n
      invariant |s| == step && s[0] == start && current == s[step - 1]
      invariant InRange(s, n) && Distinct(s)
      invariant |visited| == n && forall c :: 0 <= c < n ==> (visited[c] <==> c in s)
      invariant NearestNeighbour(d, s)
    {
      var closest, minDistance := ClosestCity(d[current], visited);
      Unvisited(s, n);
      var free :| 0 <= free < n && free !in s;
      assert d[current][free] < IntMax;
      assert closest >= 0;
      var next := s + [closest];
      assert next[..step] == s;
      assert NearestAt(d, next, step);
      NearestExtend(d, s, closest);
      s := next;
      visited := visited[closest := true];
      current := closest;
    }
  }

  // --------------------------------------------------------------- moves

  /** `std::swap` of the cities at positions i and j. */
  function Swapped(s: seq<int>, i: int, j: int): (r: seq<int>)
    requires 0 <= i < |s| && 0 <= j < |s|
    ensures |r| == |s| && r[i] == s[j] && r[j] == s[i]
    ensures forall k :: 0 <= k < |s| && k != i && k != j ==> r[k] == s[k]
  {
    s[i := s[j]][j := s[i]]
  }

  lemma SwapPermutes(s: seq<int>, i: int, j: int)
    requires 0 <= i < |s| && 0 <= j < |s|
    ensures multiset(Swapped(s, i, j)) == multiset(s)
  {
  }

  function Reverse(s: seq<int>): (r: seq<int>)
    ensures |r| == |s|
    ensures forall k :: 0 <= k < |s| ==> r[k] == s[|s| - 1 - k]
  {
    if s == [] then [] else Reverse(s[1..]) + [s[0]]
  }

  lemma {:induction false} ReversePermutes(s: seq<int>)
    ensures multiset(Reverse(s)) == multiset(s)
  {
    if s != [] {
      ReversePermutes(s[1..]);
      assert s == [s[0]] + s[1..];
    }
  }

  /** `std::reverse` of the positions lo..hi-1. */
  function Reversed(s: seq<int>, lo: int, hi: int): (r: seq<int>)
    requires 0 <= lo <= hi <= |s|
    ensures |r| == |s|
    ensures forall k :: 0 <= k < |s| && !(lo <= k < hi) ==> r[k] == s[k]
    ensures forall k :: lo <= k < hi ==> r[k] == s[lo + hi - 1 - k]
  {
    s[..lo] + Reverse(s[lo..hi]) + s[hi..]
  }

  lemma ReversedPermutes(s: seq<int>, lo: int, hi: int)
    requires 0 <= lo <= hi <= |s|
    ensures multiset(Reversed(s, lo, hi)) == multiset(s)
  {
    var a, m, b := s[..lo], s[lo..hi], s[hi..];
    assert Reversed(s, lo, hi) == a + Reverse(m) + b;
    assert s == a + m + b;
    hide *;
    ReversePermutes(m);
    assert multiset(a + Reverse(m) + b) == multiset(a) + multiset(Reverse(m)) + multiset(b);
  }

  /** `std::reverse` in place: swap the outermost pair and move inwards. */
  method ReverseRange(a: array<int>, lo: int, hi: int)
    requires 0 <= lo <= hi <= a.Length
    modifies a
    ensures a[..] == Reversed(old(a[..]), lo, hi)
  {
    ghost var s := a[..];
    var i, j := lo, hi;
    while i + 1 < j
      invariant lo <= i <= j <= hi && i - lo == hi - j
      invariant forall k :: 0 <= k < a.Length && !(lo <= k < hi) ==> a[k] == s[k]
      invariant forall k :: i <= k < j ==> a[k] == s[k]
      invariant forall k :: lo <= k < i ==> a[k] == s[lo + hi - 1 - k]
      invariant forall k :: j <= k < hi ==> a[k] == s[lo + hi - 1 - k]
      decreases j - i
    {
      a[i], a[j - 1] := a[j - 1], a[i];
      i, j := i + 1, j - 1;
    }
    assert forall k :: i <= k < j ==> a[k] == s[lo + hi - 1 - k];
    ReversedPointwise(s, a[..], lo, hi);
  }

  /** A sequence that agrees with the reversal cell by cell is the reversal. */
  lemma ReversedPointwise(s: seq<int>, t: seq<int>, lo: int, hi: int)
    requires 0 <= lo <= hi <= |s| == |t|
    requires forall k :: 0 <= k < |s| && !(lo <= k < hi) ==> t[k] == s[k]
    requires forall k :: lo <= k < hi ==> t[k] == s[lo + hi - 1 - k]
    ensures t == Reversed(s, lo, hi)
  {
  }

  /** `erase` at position i, then `insert` of the removed city at position j. */
  function Inserted(s: seq<int>, i: int, j: int): (r: seq<int>)
    requires 0 <= i < |s| && 0 <= j < |s|
    ensures |r| == |s| && r[j] == s[i]
  {
    var t := s[..i] + s[i + 1..];
    t[..j] + [s[i]] + t[j..]
  }

  /** Where every city goes under an insertion: positions between i and j
      shift by one towards i, the rest stay. */
  lemma InsertedPositions(s: seq<int>, i: int, j: int)
    requires 0 <= i < |s| && 0 <= j < |s|
    ensures forall k :: 0 <= k < |s| && k < i && k < j ==> Inserted(s, i, j)[k] == s[k]
    ensures forall k :: 0 <= k < |s| && k > i && k > j ==> Inserted(s, i, j)[k] == s[k]
    ensures i < j ==> forall k :: i <= k < j ==> Inserted(s, i, j)[k] == s[k + 1]
    ensures j < i ==> forall k :: j < k <= i ==> Inserted(s, i, j)[k] == s[k - 1]
  {
  }

  lemma InsertedPermutes(s: seq<int>, i: int, j: int)
    requires 0 <= i < |s| && 0 <= j < |s|
    ensures multiset(Inserted(s, i, j)) == multiset(s)
  {
    var t := s[..i] + s[i + 1..];
    var x := s[i];
    assert s == s[..i] + [x] + s[i + 1..];
    assert t == t[..j] + t[j..];
    calc {
      multiset(Inserted(s, i, j));
      multiset(t[..j] + [x] + t[j..]);
      multiset(t[..j]) + multiset([x]) + multiset(t[j..]);
      multiset(t[..j]) + multiset(t[j..]) + multiset([x]);
      multiset(t) + multiset([x]);
      multiset(s[..i]) + multiset(s[i + 1..]) + multiset([x]);
      multiset(s[..i]) + multiset([x]) + multiset(s[i + 1..]);
      multiset(s);
    }
  }

  /** `new_solution = solution` followed by `std::swap` of two positions. */
  method SwapCopy(s: seq<int>, i: int, j: int) returns (t: seq<int>)
    requires 0 <= i < |s| && 0 <= j < |s|
    ensures t == Swapped(s, i, j)
  {
    var a := new int[|s|](k requires 0 <= k < |s| => s[k]);
    a[i], a[j] := a[j], a[i];
    t := a[..];
  }

  /** `new_solution = solution` followed by `std::reverse` of lo..hi-1. */
  method ReverseCopy(s: seq<int>, lo: int, hi: int) returns (t: seq<int>)
    requires 0 <= lo <= hi <= |s|
    ensures t == Reversed(s, lo, hi)
  {
    var a := new int[|s|](k requires 0 <= k < |s| => s[k]);
    assert a[..] == s;
    ReverseRange(a, lo, hi);
    t := a[..];
  }

  /** A tour the search may hold: a tour of all cities with its cost. */
  predicate Costed(d: seq<seq<int>>, s: seq<int>, cost: int) {
    IsMatrix(d) && |d| >= 1 && IsTour(s, |d|) && cost == TourCost(d, s)
  }

  datatype InitialMethod = RandomStart | GreedyStart

  /** initialize_solution: the shuffled tour, or the greedy tour from the
      drawn start city. */
  method InitialSolution(m: InitialMethod, d: seq<seq<int>>, shuffled: seq<int>, start: int)
    returns (s: seq<int>)
    requires IsMatrix(d) && IsTour(shuffled, |d|)
    requires m == GreedyStart ==> Bounded(d) && 0 <= start < |d|
    ensures IsTour(s, |d|)
    ensures m == RandomStart ==> s == shuffled
    ensures m == GreedyStart ==> s[0] == start && NearestNeighbour(d, s)
  {
    if m == RandomStart {
      s := shuffled;
    } else {
      s := GreedyTour(d, start);
    }
  }
}
