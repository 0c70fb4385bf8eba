/** The integer parts of the simulated annealing solver: the three ways of
    moving to a neighbouring tour, and the state of a run (current and best
    tour) with the acceptance step. The temperature and the Metropolis test
    are floating point; their verdict is an input here. */
module SimulatedAnnealing {
  import opened Tours
  import opened Telemetry

  datatype NeighborMethod = Swap | Insert | Invert

  /** The neighbour for two distinct drawn positions: the two cities
      exchanged, the city at i moved to position j, or the positions from
      the smaller to the larger index, both included, reversed. */
  function Neighbor(m: NeighborMethod, s: seq<int>, i: int, j: int): (r: seq<int>)
    requires 0 <= i < |s| && 0 <= j < |s|
    ensures |r| == |s| && multiset(r) == multiset(s)
  {
    match m
    case Swap =>
      SwapPermutes(s, i, j);
      Swapped(s, i, j)
    case Insert =>
      InsertedPermutes(s, i, j);
      Inserted(s, i, j)
    case Invert =>
      var lo, hi := if i < j then i else j, if i < j then j else i;
      ReversedPermutes(s, lo, hi + 1);
      Reversed(s, lo, hi + 1)
  }

  lemma NeighborCases(m: NeighborMethod, s: seq<int>, i: int, j: int)
    requires 0 <= i < |s| && 0 <= j < |s|
    ensures m == Swap ==> Neighbor(m, s, i, j) == Swapped(s, i, j)
    ensures m == Insert ==> Neighbor(m, s, i, j) == Inserted(s, i, j)
    ensures m == Invert && i <= j ==> Neighbor(m, s, i, j) == Reversed(s, i, j + 1)
    ensures m == Invert && j < i ==> Neighbor(m, s, i, j) == Reversed(s, j, i + 1)
  {
  }

  /** Every neighbour of a tour is a tour of the same cities. */
  lemma NeighborIsTour(m: NeighborMethod, s: seq<int>, n: nat, i: int, j: int)
    requires IsTour(s, n) && 0 <= i < n && 0 <= j < n
    ensures IsTour(Neighbor(m, s, i, j), n)
  {
    PermutationTour(s, Neighbor(m, s, i, j), n);
  }

  /** SWAP exchanges exactly the cities at i and j. */
  lemma SwapPositions(s: seq<int>, i: int, j: int)
    requires 0 <= i < |s| && 0 <= j < |s|
    ensures Neighbor(Swap, s, i, j)[i] == s[j] && Neighbor(Swap, s, i, j)[j] == s[i]
    ensures forall k :: 0 <= k < |s| && k != i && k != j ==> Neighbor(Swap, s, i, j)[k] == s[k]
  {
    NeighborCases(Swap, s, i, j);
  }

  /** INSERT puts the city of i at j and shifts the cities in between by
      one towards i; the rest stay. */
  lemma InsertPositions(s: seq<int>, i: int, j: int)
    requires 0 <= i < |s| && 0 <= j < |s|
    ensures Neighbor(Insert, s, i, j)[j] == s[i]
    ensures forall k :: 0 <= k < |s| && ((k < i && k < j) || (k > i && k > j)) ==> Neighbor(Insert, s, i, j)[k] == s[k]
    ensures i < j ==> forall k :: i <= k < j ==> Neighbor(Insert, s, i, j)[k] == s[k + 1]
    ensures j < i ==> forall k :: j < k <= i ==> Neighbor(Insert, s, i, j)[k] == s[k - 1]
  {
    NeighborCases(Insert, s, i, j);
    hide Neighbor;
    InsertedPositions(s, i, j);
  }

  /** INVERT mirrors the segment between i and j, both included, and leaves
      the rest. */
  lemma InvertPositions(s: seq<int>, i: int, j: int)
    requires 0 <= i < |s| && 0 <= j < |s|
    ensures forall k :: 0 <= k < |s| && ((k < i && k < j) || (k > i && k > j)) ==> Neighbor(Invert, s, i, j)[k] == s[k]
    ensures i <= j ==> forall k :: i <= k <= j ==> Neighbor(Invert, s, i, j)[k] == s[i + j - k]
    ensures j < i ==> forall k :: j <= k <= i ==> Neighbor(Invert, s, i, j)[k] == s[i + j - k]
  {
    NeighborCases(Invert, s, i, j);
  }

  /** The closed-tour cost of a neighbour. */
  function NeighborCost(d: seq<seq<int>>, m: NeighborMethod, s: seq<int>, i: int, j: int): int
    requires IsMatrix(d) && IsTour(s, |d|) && 0 <= i < |d| && 0 <= j < |d|
  {
    NeighborIsTour(m, s, |d|, i, j);
    TourCost(d, Neighbor(m, s, i, j))
  }

  /** generate_neighbor: `i` is the first draw; the second position is
      drawn again while it equals `i`. The draws are the stream `redraws`;
      when it holds no position other than `i` the tour comes back as it
      was and `j` is -1. */
  method GenerateNeighbor(m: NeighborMethod, s: seq<int>, i: int, redraws: seq<int>)
    returns (r: seq<int>, j: int)
    requires 0 <= i < |s|
    requires forall k :: 0 <= k < |redraws| ==> 0 <= redraws[k] < |s|
    ensures j == -1 ==> r == s && forall k :: 0 <= k < |redraws| ==> redraws[k] == i
    ensures j != -1 ==> (exists k :: 0 <= k < |redraws| && redraws[k] == j && forall q :: 0 <= q < k ==> redraws[q] == i)
    ensures j != -1 ==> 0 <= j < |s| && j != i && r == Neighbor(m, s, i, j)
  {
    j := SecondPosition(i, redraws);
    if j == -1 {
      return s, j;
    }
    r := ApplyMethod(m, s, i, j);
  }

  /** The redraw loop: the first draw that differs from `i`, or -1. */
  method SecondPosition(i: int, redraws: seq<int>) returns (j: int)
    requires forall k :: 0 <= k < |redraws| ==> 0 <= redraws[k]
    ensures j == -1 ==> forall k :: 0 <= k < |redraws| ==> redraws[k] == i
    ensures j != -1 ==> j != i && exists k :: 0 <= k < |redraws| && redraws[k] == j && forall q :: 0 <= q < k ==> redraws[q] == i
  {
    j := -1;
    var k := 0;
    while k < |redraws|
      invariant 0 <= k <= |redraws|
      invariant forall q :: 0 <= q < k ==> redraws[q] == i
    {
      if redraws[k] != i {
        return redraws[k];
      }
      k := k + 1;
    }
  }

  /** The tour changes of generate_neighbor, on a copy of the tour. */
  method ApplyMethod(m: NeighborMethod, s: seq<int>, i: int, j: int) returns (r: seq<int>)
    requires 0 <= i < |s| && 0 <= j < |s|
    ensures r == Neighbor(m, s, i, j)
  {
    NeighborCases(m, s, i, j);
    hide *;
    match m
    case Swap =>
      r := SwapCopy(s, i, j);
    case Insert =>
      r := InsertCopy(s, i, j);
    case Invert =>
      var lo, hi := i, j;
      if lo > hi {
        lo, hi := hi, lo;
      }
      r := ReverseCopy(s, lo, hi + 1);
  }

  /** `erase` of the city at i, then `insert` of it at j. */
  method InsertCopy(s: seq<int>, i: int, j: int) returns (r: seq<int>)
    requires 0 <= i < |s| && 0 <= j < |s|
    ensures r == Inserted(s, i, j)
  {
    var temp := s[i];
    r := s[..i] + s[i + 1..];
    r := r[..j] + [temp] + r[j..];
  }

  /** The state of one annealing run. */
  class Annealer {
    const d: seq<seq<int>>
    var currentSolution: seq<int>
    var currentCost: int
    var bestSolution: seq<int>
    var bestCost: int

    /** Both tours are tours of all cities with their true costs, and the
        best is never worse than the current one. */
    predicate Valid()
      reads this
    {
      Costed(d, currentSolution, currentCost) && Costed(d, bestSolution, bestCost) && bestCost <= currentCost
    }

    /** The constructor: the initial tour and its cost, and the best set to
        the initial tour. */
    constructor (d: seq<seq<int>>, initial: seq<int>)
      requires IsMatrix(d) && |d| >= 1 && IsTour(initial, |d|)
      ensures Valid() && this.d == d
      ensures currentSolution == initial && bestSolution == initial && bestCost == currentCost
    {
      this.d := d;
      currentSolution := initial;
      var cost := CalculateCost(d, initial);
      currentCost := cost;
      bestSolution := initial;
      bestCost := cost;
    }

    /** update_best_solution: the current tour becomes the best one only
        when it is strictly cheaper. */
    method UpdateBestSolution()
      requires Costed(d, currentSolution, currentCost) && Costed(d, bestSolution, bestCost)
      modifies this
      ensures currentSolution == old(currentSolution) && currentCost == old(currentCost)
      ensures old(currentCost) < old(bestCost) ==> bestSolution == currentSolution && bestCost == currentCost
      ensures old(currentCost) >= old(bestCost) ==> bestSolution == old(bestSolution) && bestCost == old(bestCost)
      ensures bestCost <= old(bestCost) && bestCost <= currentCost
    {
      if currentCost < bestCost {
        bestSolution := currentSolution;
        bestCost := currentCost;
      }
    }

    /** One step at the current temperature: a neighbour is generated and
        costed, taken when it is cheaper or when the Metropolis test
        (`accept`) says so, the best is updated, and the state is sent when
        due. A draw stream without a second position (`j` is -1) moves
        nothing. */
    method Step(m: NeighborMethod, i: int, redraws: seq<int>, accept: bool, sender: Sender, now: int)
      returns (j: int, moved: bool)
      requires Valid() && 0 <= i < |d|
      requires forall k :: 0 <= k < |redraws| ==> 0 <= redraws[k] < |d|
      modifies this, sender
      ensures Valid() && bestCost <= old(bestCost)
      ensures j == -1 ==> !moved
      ensures j != -1 ==> 0 <= j < |d| && j != i && j in redraws
      ensures j != -1 ==> (moved <==> NeighborCost(d, m, old(currentSolution), i, j) < old(currentCost) || accept)
      ensures moved ==> currentSolution == Neighbor(m, old(currentSolution), i, j)
      ensures moved ==> currentCost == NeighborCost(d, m, old(currentSolution), i, j)
      ensures !moved ==> currentSolution == old(currentSolution) && currentCost == old(currentCost)
      ensures !moved ==> bestSolution == old(bestSolution) && bestCost == old(bestCost)
      ensures bestCost == (if currentCost < old(bestCost) then currentCost else old(bestCost))
      ensures currentCost < old(bestCost) ==> bestSolution == currentSolution
      ensures currentCost >= old(bestCost) ==> bestSolution == old(bestSolution)
      ensures Due(now, old(sender.lastSend), sender.frequency) ==>
                sender.lastSend == now &&
                sender.sent == old(sender.sent) + [EncodeMessage(Report(now - sender.start, bestCost, currentCost, currentSolution))]
      ensures !Due(now, old(sender.lastSend), sender.frequency) ==>
                sender.lastSend == old(sender.lastSend) && sender.sent == old(sender.sent)
    {
      hide EncodeMessage;
      var candidate;
      candidate, j := GenerateNeighbor(m, currentSolution, i, redraws);
      moved := false;
      if j != -1 {
        NeighborIsTour(m, currentSolution, |d|, i, j);
        var cost := CalculateCost(d, candidate);
        moved := Consider(candidate, cost, accept);
      }
      sender.SendData(now, bestCost, currentCost, currentSolution);
    }

    /** The acceptance test of the run loop: the candidate replaces the
        current tour when it is cheaper or when `accept` holds, and the best
        is updated after a move. */
    method Consider(candidate: seq<int>, cost: int, accept: bool) returns (moved: bool)
      requires Valid() && Costed(d, candidate, cost)
      modifies this
      ensures Valid() && bestCost <= old(bestCost)
      ensures moved <==> cost < old(currentCost) || accept
      ensures moved ==> currentSolution == candidate && currentCost == cost
      ensures !moved ==> unchanged(this)
      ensures bestCost == (if currentCost < old(bestCost) then currentCost else old(bestCost))
      ensures moved && cost < old(bestCost) ==> bestSolution == candidate
      ensures !(moved && cost < old(bestCost)) ==> bestSolution == old(bestSolution)
    {
      var delta := cost - currentCost;
      if delta < 0 || accept {
        currentSolution := candidate;
        currentCost := cost;
        UpdateBestSolution();
        moved := true;
      } else {
        moved := false;
      }
    }
  }
}
