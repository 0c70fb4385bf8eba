/** The tabu search solver: the tabu-list limit formula, the swap and 2-opt
    neighbourhoods drawn from a stream of random indices and ordered by cost,
    and the acceptance of a neighbour (not tabu, or better than the best). */
module TabuSearch {
  import opened Sorting
  import opened Tours
  import opened Tabu
  import opened Telemetry

  // --------------------------------------------------------------- limit

  datatype LimitMethod = N | SqrtN | ThreeN | NSquared | Custom

  function CeilSqrtFrom(n: nat, r: nat): (s: nat)
    requires r == 0 || (r - 1) * (r - 1) < n
    ensures s * s >= n && (s == 0 || (s - 1) * (s - 1) < n)
    decreases n - r
  {
    if r * r >= n then r
    else
      assert r == 0 || r <= r * r;
      CeilSqrtFrom(n, r + 1)
  }

  /** `ceil(sqrt(n))`, computed exactly on integers. */
  function CeilSqrt(n: nat): (r: nat)
    ensures r * r >= n && (r == 0 || (r - 1) * (r - 1) < n)
  {
    CeilSqrtFrom(n, 0)
  }

  /** calculate_tabu_list_limit for a problem with `n` cities: the built-in
      limits are zero only for an empty problem, the square-root limit is
      the exact ceiling of the square root, and a custom limit is used as
      given. */
  function TabuListLimit(m: LimitMethod, n: nat, custom: int): (r: int)
    ensures m != Custom ==> r >= 0 && (r == 0 <==> n == 0)
    ensures m == SqrtN ==> r * r >= n && (r == 0 || (r - 1) * (r - 1) < n)
    ensures m == Custom ==> r == custom
  {
    match m
    case N => n
    case SqrtN => CeilSqrt(n)
    case ThreeN => 3 * n
    case NSquared => n * n
    case Custom => custom
  }

  /** From three cities on, the built-in limits are ordered:
      ceil(sqrt n) <= n <= 3n <= n^2. */
  lemma LimitOrder(n: nat, custom: int)
    requires n >= 3
    ensures TabuListLimit(SqrtN, n, custom) <= TabuListLimit(N, n, custom)
    ensures TabuListLimit(N, n, custom) <= TabuListLimit(ThreeN, n, custom) <= TabuListLimit(NSquared, n, custom)
  {
    var r := CeilSqrt(n);
    assert n <= 3 * n <= n * n;
    if r > 0 {
      SquareLess(r - 1, n);
    }
  }

  lemma SquareLess(a: nat, b: nat)
    ensures a * a < b * b ==> a < b
  {
    if a >= b {
      assert b * b <= a * b <= a * a;
    }
  }

  // --------------------------------------------------------- neighbours

  /** The move that made a neighbour: the two swapped cities, or the two
      removed edges of a 2-opt move. */
  datatype Move = SwapMove(c1: int, c2: int) | TwoOptMove(e1: (int, int), e2: (int, int))

  datatype Neighbor = Neighbor(solution: seq<int>, move: Move, cost: int)

  /** The index pairs the 2-opt builder accepts: two edges that are
      different, not adjacent, and not the pair that closes the tour. */
  predicate TwoOptIndices(n: int, i: int, j: int) {
    0 <= i < j < n && j - i >= 2 && !(j == n - 1 && i == 0)
  }

  /** The positions a 2-opt move reverses: i+1..j, or 0..i when the second
      edge is the closing edge (j = n-1); as a half-open range. */
  function TwoOptRange(n: int, i: int, j: int): (r: (int, int))
    requires TwoOptIndices(n, i, j)
    ensures 0 <= r.0 < r.1 <= n
  {
    if j == n - 1 then (0, i + 1) else (i + 1, j + 1)
  }

  /** The 2-opt neighbour of `s`. */
  function TwoOpt(s: seq<int>, i: int, j: int): (r: seq<int>)
    requires TwoOptIndices(|s|, i, j)
    ensures |r| == |s|
  {
    var range := TwoOptRange(|s|, i, j);
    Reversed(s, range.0, range.1)
  }

  lemma TwoOptPermutes(s: seq<int>, i: int, j: int)
    requires TwoOptIndices(|s|, i, j)
    ensures multiset(TwoOpt(s, i, j)) == multiset(s)
  {
    var range := TwoOptRange(|s|, i, j);
    ReversedPermutes(s, range.0, range.1);
  }

  /** The two edges a 2-opt move at positions i and j removes, as city
      pairs. */
  function TwoOptMoveAt(s: seq<int>, i: int, j: int): Move
    requires TwoOptIndices(|s|, i, j)
  {
    TwoOptMove((s[i], s[i + 1]), (s[j], s[(j + 1) % |s|]))
  }

  /** A correctly built swap neighbour of `s`. */
  ghost predicate SwapNeighbor(d: seq<seq<int>>, s: seq<int>, nb: Neighbor)
    requires IsMatrix(d) && IsTour(s, |d|)
  {
    IsTour(nb.solution, |d|) && nb.solution != [] && nb.cost == TourCost(d, nb.solution) &&
    exists i, j :: 0 <= i < |s| && 0 <= j < |s| && i != j &&
      nb.solution == Swapped(s, i, j) && nb.move == SwapMove(s[i], s[j])
  }

  /** A correctly built 2-opt neighbour of `s`. */
  ghost predicate TwoOptNeighbor(d: seq<seq<int>>, s: seq<int>, nb: Neighbor)
    requires IsMatrix(d) && IsTour(s, |d|)
  {
    IsTour(nb.solution, |d|) && nb.solution != [] && nb.cost == TourCost(d, nb.solution) &&
    exists i, j {:trigger TwoOpt(s, i, j)} :: TwoOptIndices(|s|, i, j) &&
      nb.solution == TwoOpt(s, i, j) &&
      nb.move == TwoOptMoveAt(s, i, j)
  }

  predicate Draws(draws: seq<int>, n: int) {
    forall k :: 0 <= k < |draws| ==> 0 <= draws[k] < n
  }

  /** One swap neighbour: the copy with positions i and j exchanged, its
      cost, and the two cities as the move. */
  method SwapNeighborAt(d: seq<seq<int>>, s: seq<int>, i: int, j: int) returns (nb: Neighbor)
    requires IsMatrix(d) && IsTour(s, |d|)
    requires 0 <= i < |s| && 0 <= j < |s| && i != j
    ensures SwapNeighbor(d, s, nb) && nb.move == SwapMove(s[i], s[j])
  {
    var t := SwapCopy(s, i, j);
    SwapPermutes(s, i, j);
    PermutationTour(s, t, |d|);
    var cost := CalculateCost(d, t);
    nb := Neighbor(t, SwapMove(s[i], s[j]), cost);
  }

  /** One 2-opt neighbour: the copy with the segment reversed, its cost, and
      the two removed edges as the move. */
  method TwoOptNeighborAt(d: seq<seq<int>>, s: seq<int>, i: int, j: int) returns (nb: Neighbor)
    requires IsMatrix(d) && IsTour(s, |d|)
    requires TwoOptIndices(|s|, i, j)
    ensures TwoOptNeighbor(d, s, nb) && nb.move == TwoOptMoveAt(s, i, j)
  {
    var t := TwoOptCopy(s, i, j);
    TwoOptPermutes(s, i, j);
    PermutationTour(s, t, |d|);
    var cost := CalculateCost(d, t);
    var move := TwoOptMoveAt(s, i, j);
    nb := Neighbor(t, move, cost);
    TwoOptNeighborIntro(d, s, nb, i, j);
  }

  /** The reversal of a 2-opt move on a copy of the tour. */
  method TwoOptCopy(s: seq<int>, i: int, j: int) returns (t: seq<int>)
    requires TwoOptIndices(|s|, i, j)
    ensures t == TwoOpt(s, i, j)
  {
    var n := |s|;
    var lo, hi;
    if j == n - 1 {
      lo, hi := (j + 1) % n, i + 1;
    } else {
      lo, hi := i + 1, (j + 1) % n;
    }
    assert (lo, hi) == TwoOptRange(n, i, j);
    t := ReverseCopy(s, lo, hi);
  }

  lemma TwoOptNeighborIntro(d: seq<seq<int>>, s: seq<int>, nb: Neighbor, i: int, j: int)
    requires IsMatrix(d) && IsTour(s, |d|) && TwoOptIndices(|s|, i, j)
    requires IsTour(nb.solution, |d|) && nb.solution != [] && nb.cost == TourCost(d, nb.solution)
    requires nb.solution == TwoOpt(s, i, j)
    requires nb.move == TwoOptMoveAt(s, i, j)
    ensures TwoOptNeighbor(d, s, nb)
  {
  }

  // ------------------------------------------------------ neighbourhoods

  /** The index pair a swap builder files a drawn pair under: the smaller
      index first. */
  function SwapKey(i: int, j: int): (int, int) {
    if i < j then (i, j) else (j, i)
  }

  /** The move a neighbour is told apart by: a swap's two cities in
      ascending order, a 2-opt move as it is. */
  function MoveKey(m: Move): Move {
    match m
    case SwapMove(c1, c2) => if c1 <= c2 then m else SwapMove(c2, c1)
    case TwoOptMove(_, _) => m
  }

  /** The index quadruple a 2-opt builder files a drawn pair under: the
      positions of the two removed edges, (i, i+1) and (j, (j+1) mod n). */
  function EdgeKey(n: int, i: int, j: int): (int, int, int, int)
    requires n > 0
  {
    (i, i + 1, j, (j + 1) % n)
  }

  /** No two entries of a neighbourhood come from the same move. */
  predicate MovesApart(hood: seq<(int, Neighbor)>) {
    forall a, b :: 0 <= a < b < |hood| ==> MoveKey(hood[a].1.move) != MoveKey(hood[b].1.move)
  }

  /** A swap of the cities at two positions read from `draws[..used]`. */
  ghost predicate SwapDrawn(s: seq<int>, draws: seq<int>, used: int, mv: Move)
    requires used <= |draws| && Draws(draws, |s|)
  {
    exists p, q :: 0 <= p < q < used && mv == SwapMove(s[draws[p]], s[draws[q]])
  }

  /** A 2-opt move at two consecutive positions of `draws[..used]` that pass
      the 2-opt index check. */
  ghost predicate TwoOptDrawn(s: seq<int>, draws: seq<int>, used: int, mv: Move)
    requires used <= |draws| && Draws(draws, |s|)
  {
    exists p :: 0 <= p && p + 1 < used && TwoOptIndices(|s|, draws[p], draws[p + 1]) &&
      mv == TwoOptMoveAt(s, draws[p], draws[p + 1])
  }

  lemma TourIndex(s: seq<int>, a: int, b: int)
    requires Distinct(s) && 0 <= a < |s| && 0 <= b < |s| && s[a] == s[b]
    ensures a == b
  {
  }

  /** On a tour, two swaps have the same move key exactly when they were
      drawn as the same index pair, so the builder's duplicate check on
      index pairs is a check on moves. */
  lemma SwapKeysMatch(s: seq<int>, a: int, b: int, i: int, j: int)
    requires Distinct(s) && 0 <= a < |s| && 0 <= b < |s| && 0 <= i < |s| && 0 <= j < |s|
    ensures MoveKey(SwapMove(s[a], s[b])) == MoveKey(SwapMove(s[i], s[j])) <==> SwapKey(a, b) == SwapKey(i, j)
  {
    if MoveKey(SwapMove(s[a], s[b])) == MoveKey(SwapMove(s[i], s[j])) {
      if s[a] == s[i] {
        TourIndex(s, a, i);
        TourIndex(s, b, j);
      } else {
        TourIndex(s, a, j);
        TourIndex(s, b, i);
      }
    }
  }

  /** On a tour, two 2-opt moves are the same exactly when they were drawn
      as the same edge pair (i, i+1, j, (j+1) mod n). */
  lemma TwoOptKeysMatch(s: seq<int>, a: int, b: int, i: int, j: int)
    requires Distinct(s) && TwoOptIndices(|s|, a, b) && TwoOptIndices(|s|, i, j)
    ensures MoveKey(TwoOptMoveAt(s, a, b)) == MoveKey(TwoOptMoveAt(s, i, j)) <==> EdgeKey(|s|, a, b) == EdgeKey(|s|, i, j)
  {
    if s[a] == s[i] && s[b] == s[j] {
      TourIndex(s, a, i);
      TourIndex(s, b, j);
    }
  }

  /** Inserting an entry whose move differs from every listed one keeps the
      moves apart. */
  lemma InsertApart(xs: seq<(int, Neighbor)>, x: (int, Neighbor))
    requires SortedByKey(xs) && MovesApart(xs)
    requires forall e :: e in xs ==> MoveKey(e.1.move) != MoveKey(x.1.move)
    ensures MovesApart(Insert(xs, x))
  {
    var p := InsertSplit(xs, x);
    var r := Insert(xs, x);
    assert forall t :: 0 <= t < p ==> r[t] == xs[t];
    assert r[p] == x;
    assert forall t :: p < t < |r| ==> r[t] == xs[t - 1];
    forall a, b | 0 <= a < b < |r|
      ensures MoveKey(r[a].1.move) != MoveKey(r[b].1.move)
    {
      if b < p || a > p {
      } else if a == p {
        assert r[b] in xs;
      } else if b == p {
        assert r[a] in xs;
      }
    }
  }

  /** The entries of a swap neighbourhood after reading `pos` draws: each
      filed under its cost, a swap neighbour of `s` drawn so far, with its
      move key in `moves`. */
  ghost predicate SwapEntries(d: seq<seq<int>>, s: seq<int>, draws: seq<int>, pos: int, hood: seq<(int, Neighbor)>,
                              moves: set<Move>)
    requires IsMatrix(d) && IsTour(s, |d|) && Draws(draws, |s|) && pos <= |draws|
  {
    forall e :: e in hood ==>
      e.0 == e.1.cost && SwapNeighbor(d, s, e.1) && SwapDrawn(s, draws, pos, e.1.move) && MoveKey(e.1.move) in moves
  }

  /** Every index pair whose swap is among `moves` is in `seen`. */
  ghost predicate SwapSeen(s: seq<int>, moves: set<Move>, seen: set<(int, int)>) {
    forall a, b :: 0 <= a < |s| && 0 <= b < |s| && MoveKey(SwapMove(s[a], s[b])) in moves ==> SwapKey(a, b) in seen
  }

  /** What the swap builder keeps after reading `pos` draws: the entries
      sorted by cost, no move twice, and `seen` covering their moves. */
  ghost predicate SwapBuilt(d: seq<seq<int>>, s: seq<int>, draws: seq<int>, pos: int, hood: seq<(int, Neighbor)>,
                            moves: set<Move>, seen: set<(int, int)>)
    requires IsMatrix(d) && IsTour(s, |d|) && Draws(draws, |s|) && pos <= |draws|
  {
    SortedByKey(hood) && MovesApart(hood) && SwapEntries(d, s, draws, pos, hood, moves) && SwapSeen(s, moves, seen)
  }

  lemma SwapBuiltLater(d: seq<seq<int>>, s: seq<int>, draws: seq<int>, pos: int, pos': int,
                       hood: seq<(int, Neighbor)>, moves: set<Move>, seen: set<(int, int)>)
    requires IsMatrix(d) && IsTour(s, |d|) && Draws(draws, |s|) && pos <= pos' <= |draws|
    requires SwapBuilt(d, s, draws, pos, hood, moves, seen)
    ensures SwapBuilt(d, s, draws, pos', hood, moves, seen)
  {
    forall e | e in hood
      ensures SwapDrawn(s, draws, pos', e.1.move)
    {
      var p, q :| 0 <= p < q < pos && e.1.move == SwapMove(s[draws[p]], s[draws[q]]);
    }
  }

  lemma SwapEntriesGrow(d: seq<seq<int>>, s: seq<int>, draws: seq<int>, pos: int,
                        hood: seq<(int, Neighbor)>, moves: set<Move>, nb: Neighbor)
    requires IsMatrix(d) && IsTour(s, |d|) && Draws(draws, |s|) && pos <= |draws|
    requires SortedByKey(hood) && SwapEntries(d, s, draws, pos, hood, moves)
    requires SwapNeighbor(d, s, nb) && SwapDrawn(s, draws, pos, nb.move)
    ensures SwapEntries(d, s, draws, pos, Insert(hood, (nb.cost, nb)), moves + {MoveKey(nb.move)})
  {
    InsertPermutes(hood, (nb.cost, nb));
    var hood' := Insert(hood, (nb.cost, nb));
    forall e | e in hood'
      ensures e.0 == e.1.cost && SwapNeighbor(d, s, e.1) && SwapDrawn(s, draws, pos, e.1.move)
      ensures MoveKey(e.1.move) in moves + {MoveKey(nb.move)}
    {
      assert e in multiset(hood');
      if e != (nb.cost, nb) {
        assert e in hood;
      }
    }
  }

  lemma SwapSeenGrows(s: seq<int>, moves: set<Move>, seen: set<(int, int)>, i: int, j: int)
    requires Distinct(s) && 0 <= i < |s| && 0 <= j < |s| && SwapSeen(s, moves, seen)
    ensures SwapSeen(s, moves + {MoveKey(SwapMove(s[i], s[j]))}, seen + {SwapKey(i, j)})
  {
    forall a, b | 0 <= a < |s| && 0 <= b < |s| && MoveKey(SwapMove(s[a], s[b])) in moves + {MoveKey(SwapMove(s[i], s[j]))}
      ensures SwapKey(a, b) in seen + {SwapKey(i, j)}
    {
      SwapKeysMatch(s, a, b, i, j);
    }
  }

  /** Adding the neighbour of a fresh index pair drawn at positions p and q
      keeps what the swap builder promises. */
  lemma SwapBuiltGrows(d: seq<seq<int>>, s: seq<int>, draws: seq<int>, pos: int, pos': int,
                       hood: seq<(int, Neighbor)>, moves: set<Move>, seen: set<(int, int)>, p: int, q: int, nb: Neighbor)
    requires IsMatrix(d) && IsTour(s, |d|) && Draws(draws, |s|) && pos <= pos' <= |draws|
    requires SwapBuilt(d, s, draws, pos, hood, moves, seen)
    requires 0 <= p < q < pos' && SwapKey(draws[p], draws[q]) !in seen
    requires SwapNeighbor(d, s, nb) && nb.move == SwapMove(s[draws[p]], s[draws[q]])
    ensures SwapBuilt(d, s, draws, pos', Insert(hood, (nb.cost, nb)), moves + {MoveKey(nb.move)},
                      seen + {SwapKey(draws[p], draws[q])})
  {
    SwapBuiltLater(d, s, draws, pos, pos', hood, moves, seen);
    var i, j := draws[p], draws[q];
    forall e | e in hood
      ensures MoveKey(e.1.move) != MoveKey(nb.move)
    {
    }
    InsertApart(hood, (nb.cost, nb));
    assert SwapDrawn(s, draws, pos', nb.move);
    SwapEntriesGrow(d, s, draws, pos', hood, moves, nb);
    SwapSeenGrows(s, moves, seen, i, j);
  }

  /** generate_swap_neighborhood over the stream `draws` of random indices:
      draw i and j, redraw j while it equals i, skip an index pair already
      used, and insert the swapped tour under its cost. The loop stops after
      `maxNeighbors` neighbours or when the stream runs out; `used` is the
      number of draws read. */
  method SwapNeighborhood(d: seq<seq<int>>, s: seq<int>, draws: seq<int>, maxNeighbors: int)
    returns (hood: seq<(int, Neighbor)>, used: nat)
    requires IsMatrix(d) && IsTour(s, |d|) && Draws(draws, |s|)
    ensures used <= |draws|
    ensures SortedByKey(hood)
    ensures |hood| <= maxNeighbors || hood == []
    ensures |hood| == maxNeighbors || (used + 2 > |draws| && |hood| < maxNeighbors) || (maxNeighbors < 0 && hood == [])
    ensures MovesApart(hood)
    ensures forall e :: e in hood ==> e.0 == e.1.cost && SwapNeighbor(d, s, e.1) && SwapDrawn(s, draws, used, e.1.move)
  {
    hood := [];
    var seen: set<(int, int)> := {};
    ghost var moves: set<Move> := {};
    var k, pos := 0, 0;
    while k < maxNeighbors && pos + 2 <= |draws|
      invariant 0 <= pos <= |draws| && 0 <= k && |hood| == k
      invariant k <= maxNeighbors || k == 0
      invariant SwapBuilt(d, s, draws, pos, hood, moves, seen)
      decreases |draws| - pos
    {
      ghost var pos0, p0 := pos, pos;
      var i, j := draws[pos], draws[pos + 1];
      pos := pos + 2;
      ghost var q0 := p0 + 1;
      while i == j && pos < |draws|
        invariant 0 <= pos <= |draws| && 0 <= j < |s|
        invariant p0 < q0 < pos && i == draws[p0] && j == draws[q0]
        decreases |draws| - pos
      {
        j := draws[pos];
        q0 := pos;
        pos := pos + 1;
      }
      if i == j {
        SwapBuiltLater(d, s, draws, pos0, pos, hood, moves, seen);
        break;
      }
      var key := SwapKey(i, j);
      if key in seen {
        SwapBuiltLater(d, s, draws, pos0, pos, hood, moves, seen);
        continue;
      }
      var nb := SwapNeighborAt(d, s, i, j);
      SwapBuiltGrows(d, s, draws, pos0, pos, hood, moves, seen, p0, q0, nb);
      hood := Insert(hood, (nb.cost, nb));
      seen := seen + {key};
      moves := moves + {MoveKey(nb.move)};
      k := k + 1;
    }
    used := pos;
  }

  /** The entries of a 2-opt neighbourhood after reading `pos` draws, as for
      swaps. */
  ghost predicate TwoOptEntries(d: seq<seq<int>>, s: seq<int>, draws: seq<int>, pos: int, hood: seq<(int, Neighbor)>,
                                moves: set<Move>)
    requires IsMatrix(d) && IsTour(s, |d|) && Draws(draws, |s|) && pos <= |draws|
  {
    forall e :: e in hood ==>
      e.0 == e.1.cost && TwoOptNeighbor(d, s, e.1) && TwoOptDrawn(s, draws, pos, e.1.move) && MoveKey(e.1.move) in moves
  }

  /** Every edge quadruple (i, i+1, j, (j+1) mod n) whose 2-opt move is
      among `moves` is in `seen`. */
  ghost predicate TwoOptSeen(s: seq<int>, moves: set<Move>, seen: set<(int, int, int, int)>) {
    forall a, b {:trigger TwoOptMoveAt(s, a, b)} :: TwoOptIndices(|s|, a, b) && MoveKey(TwoOptMoveAt(s, a, b)) in moves ==>
      EdgeKey(|s|, a, b) in seen
  }

  /** What the 2-opt builder keeps after reading `pos` draws, as for swaps. */
  ghost predicate TwoOptBuilt(d: seq<seq<int>>, s: seq<int>, draws: seq<int>, pos: int, hood: seq<(int, Neighbor)>,
                              moves: set<Move>, seen: set<(int, int, int, int)>)
    requires IsMatrix(d) && IsTour(s, |d|) && Draws(draws, |s|) && pos <= |draws|
  {
    SortedByKey(hood) && MovesApart(hood) && TwoOptEntries(d, s, draws, pos, hood, moves) && TwoOptSeen(s, moves, seen)
  }

  lemma TwoOptBuiltLater(d: seq<seq<int>>, s: seq<int>, draws: seq<int>, pos: int, pos': int,
                         hood: seq<(int, Neighbor)>, moves: set<Move>, seen: set<(int, int, int, int)>)
    requires IsMatrix(d) && IsTour(s, |d|) && Draws(draws, |s|) && pos <= pos' <= |draws|
    requires TwoOptBuilt(d, s, draws, pos, hood, moves, seen)
    ensures TwoOptBuilt(d, s, draws, pos', hood, moves, seen)
  {
    forall e | e in hood
      ensures TwoOptDrawn(s, draws, pos', e.1.move)
    {
      var p :| 0 <= p && p + 1 < pos && TwoOptIndices(|s|, draws[p], draws[p + 1]) &&
        e.1.move == TwoOptMoveAt(s, draws[p], draws[p + 1]);
    }
  }

  lemma TwoOptEntriesGrow(d: seq<seq<int>>, s: seq<int>, draws: seq<int>, pos: int,
                          hood: seq<(int, Neighbor)>, moves: set<Move>, nb: Neighbor)
    requires IsMatrix(d) && IsTour(s, |d|) && Draws(draws, |s|) && pos <= |draws|
    requires SortedByKey(hood) && TwoOptEntries(d, s, draws, pos, hood, moves)
    requires TwoOptNeighbor(d, s, nb) && TwoOptDrawn(s, draws, pos, nb.move)
    ensures TwoOptEntries(d, s, draws, pos, Insert(hood, (nb.cost, nb)), moves + {MoveKey(nb.move)})
  {
    hide TwoOptNeighbor, TwoOptDrawn;
    InsertPermutes(hood, (nb.cost, nb));
    var hood' := Insert(hood, (nb.cost, nb));
    forall e | e in hood'
      ensures e.0 == e.1.cost && TwoOptNeighbor(d, s, e.1) && TwoOptDrawn(s, draws, pos, e.1.move)
      ensures MoveKey(e.1.move) in moves + {MoveKey(nb.move)}
    {
      assert e in multiset(hood');
      if e != (nb.cost, nb) {
        assert e in hood;
      }
    }
  }

  lemma TwoOptSeenGrows(s: seq<int>, moves: set<Move>, seen: set<(int, int, int, int)>, i: int, j: int)
    requires Distinct(s) && TwoOptIndices(|s|, i, j) && TwoOptSeen(s, moves, seen)
    ensures TwoOptSeen(s, moves + {MoveKey(TwoOptMoveAt(s, i, j))}, seen + {EdgeKey(|s|, i, j)})
  {
    forall a, b | TwoOptIndices(|s|, a, b) && MoveKey(TwoOptMoveAt(s, a, b)) in moves + {MoveKey(TwoOptMoveAt(s, i, j))}
      ensures EdgeKey(|s|, a, b) in seen + {EdgeKey(|s|, i, j)}
    {
      TwoOptKeysMatch(s, a, b, i, j);
    }
  }

  /** Adding the neighbour of a fresh edge pair drawn at positions p and p+1
      keeps what the 2-opt builder promises. */
  lemma TwoOptBuiltGrows(d: seq<seq<int>>, s: seq<int>, draws: seq<int>, pos: int, pos': int,
                         hood: seq<(int, Neighbor)>, moves: set<Move>, seen: set<(int, int, int, int)>,
                         p: int, i: int, j: int, nb: Neighbor)
    requires IsMatrix(d) && IsTour(s, |d|) && Draws(draws, |s|) && pos <= pos' <= |draws|
    requires TwoOptBuilt(d, s, draws, pos, hood, moves, seen)
    requires 0 <= p && p + 1 < pos' && i == draws[p] && j == draws[p + 1] && TwoOptIndices(|s|, i, j)
    requires EdgeKey(|s|, i, j) !in seen
    requires TwoOptNeighbor(d, s, nb) && nb.move == TwoOptMoveAt(s, i, j)
    ensures TwoOptBuilt(d, s, draws, pos', Insert(hood, (nb.cost, nb)), moves + {MoveKey(nb.move)},
                        seen + {EdgeKey(|s|, i, j)})
  {
    TwoOptBuiltLater(d, s, draws, pos, pos', hood, moves, seen);
    assert MoveKey(TwoOptMoveAt(s, i, j)) !in moves;
    InsertApart(hood, (nb.cost, nb));
    assert TwoOptDrawn(s, draws, pos', nb.move);
    TwoOptEntriesGrow(d, s, draws, pos', hood, moves, nb);
    TwoOptSeenGrows(s, moves, seen, i, j);
  }

  /** generate_2opt_neighborhood over the stream `draws`: draw i and j, redraw
      both until they pass the 2-opt index check, skip an edge pair already
      used, and insert the reversed tour under its cost; `used` is the number
      of draws read. */
  method TwoOptNeighborhood(d: seq<seq<int>>, s: seq<int>, draws: seq<int>, maxNeighbors: int)
    returns (hood: seq<(int, Neighbor)>, used: nat)
    requires IsMatrix(d) && IsTour(s, |d|) && Draws(draws, |s|)
    ensures used <= |draws|
    ensures SortedByKey(hood)
    ensures |hood| <= maxNeighbors || hood == []
    ensures |hood| == maxNeighbors || (used + 2 > |draws| && |hood| < maxNeighbors) || (maxNeighbors < 0 && hood == [])
    ensures MovesApart(hood)
    ensures forall e :: e in hood ==> e.0 == e.1.cost && TwoOptNeighbor(d, s, e.1) && TwoOptDrawn(s, draws, used, e.1.move)
  {
    var n := |s|;
    hood := [];
    var seen: set<(int, int, int, int)> := {};
    ghost var moves: set<Move> := {};
    var k, pos := 0, 0;
    while k < maxNeighbors && pos + 2 <= |draws|
      invariant 0 <= pos <= |draws| && 0 <= k && |hood| == k
      invariant k <= maxNeighbors || k == 0
      invariant TwoOptBuilt(d, s, draws, pos, hood, moves, seen)
      decreases |draws| - pos
    {
      ghost var pos0, p0 := pos, pos;
      var i, j := draws[pos], draws[pos + 1];
      pos := pos + 2;
      while !TwoOptIndices(n, i, j) && pos + 2 <= |draws|
        invariant 0 <= pos <= |draws| && 0 <= i < n && 0 <= j < n
        invariant 0 <= p0 && p0 + 2 <= pos && i == draws[p0] && j == draws[p0 + 1]
        decreases |draws| - pos
      {
        i, j := draws[pos], draws[pos + 1];
        p0 := pos;
        pos := pos + 2;
      }
      if !TwoOptIndices(n, i, j) {
        TwoOptBuiltLater(d, s, draws, pos0, pos, hood, moves, seen);
        break;
      }
      var key := EdgeKey(n, i, j);
      if key in seen {
        TwoOptBuiltLater(d, s, draws, pos0, pos, hood, moves, seen);
        continue;
      }
      var nb := TwoOptNeighborAt(d, s, i, j);
      TwoOptBuiltGrows(d, s, draws, pos0, pos, hood, moves, seen, p0, i, j, nb);
      hood := Insert(hood, (nb.cost, nb));
      seen := seen + {key};
      moves := moves + {MoveKey(nb.move)};
      k := k + 1;
    }
    used := pos;
  }

  datatype NeighborMethod = Swap | Opt2

  /** A neighbour of `s` built by the chosen method. */
  ghost predicate ValidNeighbor(d: seq<seq<int>>, s: seq<int>, nb: Neighbor)
    requires IsMatrix(d) && IsTour(s, |d|)
  {
    SwapNeighbor(d, s, nb) || TwoOptNeighbor(d, s, nb)
  }

  /** generate_neighborhood: the neighbours of the chosen kind, read out of
      the cost-ordered multimap, so cheapest first; `used` is the number of
      draws read. */
  method GenerateNeighborhood(m: NeighborMethod, d: seq<seq<int>>, s: seq<int>, draws: seq<int>, maxNeighbors: int)
    returns (neighborhood: seq<Neighbor>, used: nat)
    requires IsMatrix(d) && IsTour(s, |d|) && Draws(draws, |s|)
    ensures used <= |draws|
    ensures |neighborhood| <= maxNeighbors || neighborhood == []
    ensures |neighborhood| == maxNeighbors || (used + 2 > |draws| && |neighborhood| < maxNeighbors) ||
            (maxNeighbors < 0 && neighborhood == [])
    ensures forall a, b :: 0 <= a < b < |neighborhood| ==>
              neighborhood[a].cost <= neighborhood[b].cost && MoveKey(neighborhood[a].move) != MoveKey(neighborhood[b].move)
    ensures m == Swap ==> forall k :: 0 <= k < |neighborhood| ==>
              SwapNeighbor(d, s, neighborhood[k]) && SwapDrawn(s, draws, used, neighborhood[k].move)
    ensures m == Opt2 ==> forall k :: 0 <= k < |neighborhood| ==>
              TwoOptNeighbor(d, s, neighborhood[k]) && TwoOptDrawn(s, draws, used, neighborhood[k].move)
    ensures forall k :: 0 <= k < |neighborhood| ==> Costed(d, neighborhood[k].solution, neighborhood[k].cost)
  {
    var hood;
    if m == Swap {
      hood, used := SwapNeighborhood(d, s, draws, maxNeighbors);
    } else {
      hood, used := TwoOptNeighborhood(d, s, draws, maxNeighbors);
    }
    neighborhood := Items(hood);
    forall a, b | 0 <= a < b < |neighborhood|
      ensures neighborhood[a].cost <= neighborhood[b].cost && MoveKey(neighborhood[a].move) != MoveKey(neighborhood[b].move)
    {
      assert hood[a] in hood && hood[b] in hood;
    }
    forall k | 0 <= k < |neighborhood|
      ensures m == Swap ==> SwapNeighbor(d, s, neighborhood[k]) && SwapDrawn(s, draws, used, neighborhood[k].move)
      ensures m == Opt2 ==> TwoOptNeighbor(d, s, neighborhood[k]) && TwoOptDrawn(s, draws, used, neighborhood[k].move)
      ensures Costed(d, neighborhood[k].solution, neighborhood[k].cost)
    {
      assert hood[k] in hood;
    }
  }

  // ------------------------------------------------------------- search

  /** Whether the search takes a neighbour, judged against the tabu list
      `es` and the best cost: a swap when its city pair is not tabu, a 2-opt
      move when at least one of its edges is not tabu; either one when its
      cost beats the best (the aspiration criterion). */
  predicate Acceptable(nb: Neighbor, es: seq<Entry>, best: int) {
    match nb.move
    case SwapMove(c1, c2) =>
      Normalize(c1, c2) !in Moves(es) || nb.cost < best
    case TwoOptMove(e1, e2) =>
      Normalize(e1.0, e1.1) !in Moves(es) || Normalize(e2.0, e2.1) !in Moves(es) || nb.cost < best
  }

  /** The tabu list after a 2-opt move is taken: each removed edge that was
      not tabu before the move is added, the first one first. */
  function TwoOptAdded(es: seq<Entry>, e1: (int, int), e2: (int, int), t1: int, t2: int, limit: int): (r: seq<Entry>)
    requires SortedByKey(es)
    ensures SortedByKey(r)
    ensures |es| <= |r| <= |es| + 2
  {
    var m1, m2 := Normalize(e1.0, e1.1), Normalize(e2.0, e2.1);
    var after1 := if m1 !in Moves(es) then Added(es, (t1, m1), limit) else es;
    if m2 !in Moves(es) then Added(after1, (t2, m2), limit) else after1
  }

  /** The tabu list after a neighbour is taken: a swap's city pair, or the
      edges of a 2-opt move that were not tabu, entered with the tenures
      `t1` (first) and `t2` (second). */
  function TakenEntries(es: seq<Entry>, mv: Move, t1: int, t2: int, limit: int): (r: seq<Entry>)
    requires SortedByKey(es)
    ensures SortedByKey(r) && |es| <= |r|
  {
    match mv
    case SwapMove(c1, c2) => Added(es, (t1, Normalize(c1, c2)), limit)
    case TwoOptMove(e1, e2) => TwoOptAdded(es, e1, e2, t1, t2, limit)
  }

  /** The state of one tabu search run. */
  class Solver {
    const d: seq<seq<int>>
    const tabuList: TabuList
    var currentSolution: seq<int>
    var currentCost: int
    var bestSolution: seq<int>
    var bestCost: int

    /** Both tours are tours of all cities with their true costs, and the
        best is never worse than the current one. */
    predicate Valid()
      reads this, tabuList
    {
      tabuList.Valid() && Costed(d, currentSolution, currentCost) && Costed(d, bestSolution, bestCost) &&
      bestCost <= currentCost
    }

    /** The constructor: the tabu list with the computed limit, the initial
        tour and its cost, and the best set to the initial tour. */
    constructor (d: seq<seq<int>>, initial: seq<int>, tenure: int, range: (int, int), tenureType: TenureType,
                 limitMethod: LimitMethod, customLimit: int)
      requires IsMatrix(d) && |d| >= 1 && IsTour(initial, |d|)
      ensures Valid() && fresh(tabuList)
      ensures this.d == d && currentSolution == initial && bestSolution == initial && bestCost == currentCost
      ensures tabuList.entries == [] && tabuList.limit == TabuListLimit(limitMethod, |d|, customLimit)
      ensures tabuList.tenure == tenure && tabuList.tenureType == tenureType
      ensures tabuList.low == range.0 && tabuList.high == range.1
    {
      this.d := d;
      tabuList := new TabuList(tenure, range, tenureType, TabuListLimit(limitMethod, |d|, customLimit));
      var cost := CalculateCost(d, initial);
      currentSolution := initial;
      currentCost := cost;
      bestSolution := initial;
      bestCost := cost;
    }

    /** aspiration_criteria: a neighbour cheaper than the best is taken
        even when it is tabu. The criterion holds exactly when every
        neighbour of that cost is acceptable whatever the tabu list holds. */
    predicate Aspiration(cost: int): (r: bool)
      reads this
      ensures r <==> forall nb: Neighbor, es: seq<Entry> :: nb.cost == cost ==> Acceptable(nb, es, bestCost)
    {
      var tabu := Neighbor([], SwapMove(0, 1), cost);
      assert Moves([(1, (0, 1))]) == [(0, 1)];
      assert Acceptable(tabu, [(1, (0, 1))], bestCost) ==> cost < bestCost;
      cost < bestCost
    }

    /** update_best_solution: the current tour becomes the best only when it
        is strictly cheaper. */
    method UpdateBestSolution()
      requires Costed(d, currentSolution, currentCost) && Costed(d, bestSolution, bestCost)
      modifies this
      ensures currentSolution == old(currentSolution) && currentCost == old(currentCost)
      ensures old(currentCost) < old(bestCost) ==> bestSolution == currentSolution && bestCost == currentCost
      ensures old(currentCost) >= old(bestCost) ==> bestSolution == old(bestSolution) && bestCost == old(bestCost)
      ensures bestCost <= old(bestCost) && bestCost <= currentCost
    {
      if currentCost < bestCost {
        bestSolution := currentSolution;
        bestCost := currentCost;
      }
    }

    /** process_swap_move: take the neighbour when its pair is not tabu or
        it beats the best, make the pair tabu and update the best. */
    method ProcessSwapMove(nb: Neighbor, draw: int) returns (applied: bool)
      requires Valid() && nb.move.SwapMove? && Costed(d, nb.solution, nb.cost)
      requires tabuList.tenureType == Random ==> tabuList.low <= draw <= tabuList.high
      modifies this, tabuList
      ensures Valid()
      ensures applied <==> Acceptable(nb, old(tabuList.entries), old(bestCost))
      ensures applied ==> currentSolution == nb.solution && currentCost == nb.cost
      ensures applied ==> (tabuList.entries ==
        Added(old(tabuList.entries), (tabuList.GetTenure(draw), Normalize(nb.move.c1, nb.move.c2)), tabuList.limit))
      ensures applied ==> bestCost == (if nb.cost < old(bestCost) then nb.cost else old(bestCost))
      ensures applied && nb.cost < old(bestCost) ==> bestSolution == nb.solution
      ensures !(applied && nb.cost < old(bestCost)) ==> bestSolution == old(bestSolution)
      ensures !applied ==> unchanged(this) && unchanged(tabuList)
    {
      var tabu := tabuList.IsTabu(nb.move.c1, nb.move.c2);
      if !tabu || Aspiration(nb.cost) {
        currentSolution := nb.solution;
        currentCost := nb.cost;
        tabuList.AddMove(nb.move.c1, nb.move.c2, draw);
        UpdateBestSolution();
        applied := true;
      } else {
        applied := false;
      }
    }

    /** process_2opt_move: take the neighbour when one of its edges is not
        tabu or it beats the best; only the edges that were not tabu are
        added to the list. */
    method Process2OptMove(nb: Neighbor, draw1: int, draw2: int) returns (applied: bool)
      requires Valid() && nb.move.TwoOptMove? && Costed(d, nb.solution, nb.cost)
      requires tabuList.tenureType == Random ==> tabuList.low <= draw1 <= tabuList.high
      requires tabuList.tenureType == Random ==> tabuList.low <= draw2 <= tabuList.high
      modifies this, tabuList
      ensures Valid()
      ensures applied <==> Acceptable(nb, old(tabuList.entries), old(bestCost))
      ensures applied ==> currentSolution == nb.solution && currentCost == nb.cost
      ensures applied ==> (tabuList.entries ==
        TwoOptAdded(old(tabuList.entries), nb.move.e1, nb.move.e2,
                    tabuList.GetTenure(draw1), tabuList.GetTenure(draw2), tabuList.limit))
      ensures applied ==> bestCost == (if nb.cost < old(bestCost) then nb.cost else old(bestCost))
      ensures applied && nb.cost < old(bestCost) ==> bestSolution == nb.solution
      ensures !(applied && nb.cost < old(bestCost)) ==> bestSolution == old(bestSolution)
      ensures !applied ==> unchanged(this) && unchanged(tabuList)
    {
      var e1, e2 := nb.move.e1, nb.move.e2;
      var tabu1 := tabuList.IsTabu(e1.0, e1.1);
      var tabu2 := tabuList.IsTabu(e2.0, e2.1);
      if !tabu1 || !tabu2 || Aspiration(nb.cost) {
        currentSolution := nb.solution;
        currentCost := nb.cost;
        if !tabu1 {
          tabuList.AddMove(e1.0, e1.1, draw1);
        }
        if !tabu2 {
          tabuList.AddMove(e2.0, e2.1, draw2);
        }
        UpdateBestSolution();
        applied := true;
      } else {
        applied := false;
      }
    }

    /** One pass of the run loop: the tenures are decremented, the
        neighbourhood of the current tour is built, and its neighbours,
        cheapest first, are offered until one is taken; a taken move is
        followed by a send of the current state. */
    method Iterate(m: NeighborMethod, draws: seq<int>, maxNeighbors: int, draw1: int, draw2: int,
                   sender: Sender, now: int)
      returns (neighborhood: seq<Neighbor>, used: nat, taken: int)
      requires Valid() && Draws(draws, |d|)
      requires tabuList.tenureType == Random ==> tabuList.low <= draw1 <= tabuList.high
      requires tabuList.tenureType == Random ==> tabuList.low <= draw2 <= tabuList.high
      modifies this, tabuList, sender
      ensures Valid() && bestCost <= old(bestCost)
      ensures -1 <= taken < |neighborhood|
      ensures forall k :: 0 <= k < |neighborhood| && (taken == -1 || k < taken) ==>
                !Acceptable(neighborhood[k], Decremented(old(tabuList.entries)), old(bestCost))
      ensures taken >= 0 ==> Acceptable(neighborhood[taken], Decremented(old(tabuList.entries)), old(bestCost))
      ensures used <= |draws|
      ensures |neighborhood| <= maxNeighbors || neighborhood == []
      ensures |neighborhood| == maxNeighbors || (used + 2 > |draws| && |neighborhood| < maxNeighbors) ||
              (maxNeighbors < 0 && neighborhood == [])
      ensures taken >= 0 ==> currentSolution == neighborhood[taken].solution && currentCost == neighborhood[taken].cost
      ensures taken >= 0 ==> (SortedByKey(Decremented(old(tabuList.entries))) && tabuList.entries ==
                TakenEntries(Decremented(old(tabuList.entries)), neighborhood[taken].move,
                             tabuList.GetTenure(draw1), tabuList.GetTenure(draw2), tabuList.limit))
      ensures taken == -1 ==> currentSolution == old(currentSolution) && currentCost == old(currentCost)
      ensures taken == -1 ==> tabuList.entries == Decremented(old(tabuList.entries)) && unchanged(sender)
      ensures taken >= 0 && neighborhood[taken].cost < old(bestCost) ==>
                bestSolution == neighborhood[taken].solution && bestCost == neighborhood[taken].cost
      ensures !(taken >= 0 && neighborhood[taken].cost < old(bestCost)) ==>
                bestSolution == old(bestSolution) && bestCost == old(bestCost)
      ensures taken >= 0 && Due(now, old(sender.lastSend), sender.frequency) ==>
                sender.lastSend == now &&
                sender.sent == old(sender.sent) + [EncodeMessage(Report(now - sender.start, bestCost, currentCost, currentSolution))]
      ensures !(taken >= 0 && Due(now, old(sender.lastSend), sender.frequency)) ==>
                sender.lastSend == old(sender.lastSend) && sender.sent == old(sender.sent)
    {
      hide SwapNeighbor, TwoOptNeighbor, SwapDrawn, TwoOptDrawn, MoveKey, Acceptable, TakenEntries, Decremented;
      tabuList.DecrementTenure();
      DecrementedSorted(old(tabuList.entries));
      neighborhood, used := GenerateNeighborhood(m, d, currentSolution, draws, maxNeighbors);
      taken := TryMoves(neighborhood, draw1, draw2);
      if taken >= 0 {
        SendState(sender, now);
      }
    }

    /** The loop over the neighbourhood: the first acceptable neighbour is
        applied and ends the loop. */
    method TryMoves(neighborhood: seq<Neighbor>, draw1: int, draw2: int) returns (taken: int)
      requires Valid()
      requires forall k :: 0 <= k < |neighborhood| ==> Costed(d, neighborhood[k].solution, neighborhood[k].cost)
      requires tabuList.tenureType == Random ==> tabuList.low <= draw1 <= tabuList.high
      requires tabuList.tenureType == Random ==> tabuList.low <= draw2 <= tabuList.high
      modifies this, tabuList
      ensures Valid() && bestCost <= old(bestCost)
      ensures -1 <= taken < |neighborhood|
      ensures forall k :: 0 <= k < |neighborhood| && (taken == -1 || k < taken) ==>
                !Acceptable(neighborhood[k], old(tabuList.entries), old(bestCost))
      ensures taken >= 0 ==> Acceptable(neighborhood[taken], old(tabuList.entries), old(bestCost))
      ensures taken >= 0 ==> currentSolution == neighborhood[taken].solution && currentCost == neighborhood[taken].cost
      ensures taken >= 0 ==> (tabuList.entries ==
                TakenEntries(old(tabuList.entries), neighborhood[taken].move,
                             tabuList.GetTenure(draw1), tabuList.GetTenure(draw2), tabuList.limit))
      ensures taken == -1 ==> unchanged(this) && unchanged(tabuList)
      ensures taken >= 0 && neighborhood[taken].cost < old(bestCost) ==>
                bestSolution == neighborhood[taken].solution && bestCost == neighborhood[taken].cost
      ensures !(taken >= 0 && neighborhood[taken].cost < old(bestCost)) ==>
                bestSolution == old(bestSolution) && bestCost == old(bestCost)
    {
      taken := -1;
      var k := 0;
      while k < |neighborhood|
        invariant 0 <= k <= |neighborhood|
        invariant Valid() && unchanged(this) && unchanged(tabuList)
        invariant forall q :: 0 <= q < k ==> !Acceptable(neighborhood[q], old(tabuList.entries), old(bestCost))
        decreases |neighborhood| - k
      {
        var nb := neighborhood[k];
        var applied;
        if nb.move.SwapMove? {
          applied := ProcessSwapMove(nb, draw1);
        } else {
          applied := Process2OptMove(nb, draw1, draw2);
        }
        if applied {
          taken := k;
          return;
        }
        k := k + 1;
      }
    }

    /** The `send_data` call after an applied move. */
    method SendState(sender: Sender, now: int)
      modifies sender
      ensures Due(now, old(sender.lastSend), sender.frequency) ==>
                sender.lastSend == now &&
                sender.sent == old(sender.sent) + [EncodeMessage(Report(now - sender.start, bestCost, currentCost, currentSolution))]
      ensures !Due(now, old(sender.lastSend), sender.frequency) ==>
                sender.lastSend == old(sender.lastSend) && sender.sent == old(sender.sent)
    {
      sender.SendData(now, bestCost, currentCost, currentSolution);
    }
  }
}
