/** The shapes an EXPLICIT weight stream is decoded into (FULL_MATRIX and the
    four triangular row layouts of TSPLIB 95, section 1.1), the rewrite of the
    four column layouts to their row twins, and the symmetric "fill i < j,
    mirror" loop shared by the coordinate metrics. Matrices are lists of rows. */
module TsplibMatrix {
  import opened Wrappers

  predicate IsSquare(m: seq<seq<int>>, n: nat) {
    |m| == n && forall a :: 0 <= a < n ==> |m[a]| == n
  }

  predicate Symmetric(m: seq<seq<int>>)
    requires IsSquare(m, |m|)
  {
    forall a, b :: 0 <= a < |m| && 0 <= b < |m| ==> m[a][b] == m[b][a]
  }

  predicate ZeroDiagonal(m: seq<seq<int>>)
    requires IsSquare(m, |m|)
  {
    forall a :: 0 <= a < |m| ==> m[a][a] == 0
  }

  function Min(a: int, b: int): int {
    if a <= b then a else b
  }

  /** Python's `list(range(dimension))` length: a negative dimension gives no rows. */
  function Rows(dimension: int): nat {
    if dimension < 0 then 0 else dimension
  }

  /** `values[lo:hi]` for 0 <= lo <= hi: Python clamps both bounds to the length. */
  function Slice(values: seq<int>, lo: nat, hi: nat): (r: seq<int>)
    requires lo <= hi
    ensures |r| == Min(hi, |values|) - Min(lo, |values|)
    ensures hi <= |values| ==> r == values[lo..hi]
  {
    values[Min(lo, |values|)..Min(hi, |values|)]
  }

  // ---------------------------------------------------------------- FULL_MATRIX

  /** `_load_full_matrix`: row i is `values[i*n:(i+1)*n]`; nothing is mirrored
      and short input gives short (possibly empty) rows. */
  function FullMatrix(values: seq<int>, dimension: int): (m: seq<seq<int>>)
    ensures |m| == Rows(dimension)
    ensures |values| >= Rows(dimension) * Rows(dimension) ==> IsSquare(m, Rows(dimension))
  {
    var n := Rows(dimension);
    var m := seq(n, i requires 0 <= i < n => Slice(values, i * n, i * n + n));
    assert |values| >= n * n ==> IsSquare(m, n) by {
      if |values| >= n * n {
        forall i | 0 <= i < n ensures |m[i]| == n {
          RowEnd(n, i);
        }
      }
    }
    m
  }

  lemma RowEnd(n: nat, i: nat)
    requires i < n
    ensures i * n + n <= n * n
  {
    MulMonotone(i + 1, n, n);
  }

  /** With exactly n*n values, cell (i, j) holds the value at offset i*n + j. */
  lemma FullMatrixCell(values: seq<int>, n: nat, i: nat, j: nat)
    requires |values| == n * n && i < n && j < n
    ensures IsSquare(FullMatrix(values, n), n)
    ensures i * n + j < |values| && FullMatrix(values, n)[i][j] == values[i * n + j]
  {
    RowEnd(n, i);
    assert FullMatrix(values, n)[i] == values[i * n..i * n + n];
  }

  lemma MulMonotone(a: nat, b: nat, n: nat)
    requires a <= b
    ensures a * n <= b * n
  {
  }

  /** The rows of a matrix written one after another. */
  function Flatten(m: seq<seq<int>>): (r: seq<int>)
  {
    if m == [] then [] else Flatten(m[..|m| - 1]) + m[|m| - 1]
  }

  /** Flattening peels off the first row as well as the last. */
  lemma {:induction false} FlattenCons(m: seq<seq<int>>)
    requires m != []
    ensures Flatten(m) == m[0] + Flatten(m[1..])
  {
    if |m| > 1 {
      var init, last := m[..|m| - 1], m[|m| - 1];
      FlattenCons(init);
      assert init[0] == m[0];
      assert init[1..] == m[1..][..|m[1..]| - 1] && m[1..][|m[1..]| - 1] == last;
      assert Flatten(m) == Flatten(init) + last;
      assert Flatten(m[1..]) == Flatten(init[1..]) + last;
      hide *;
    } else {
      assert m[..0] == [] && m[1..] == [];
    }
  }

  lemma {:induction false} FlattenSquare(m: seq<seq<int>>, n: nat, k: nat)
    requires k <= |m| && forall a :: 0 <= a < |m| ==> |m[a]| == n
    ensures |Flatten(m[..k])| == k * n
    ensures forall a, b :: 0 <= a < k && 0 <= b < n ==> a * n + b < k * n && Flatten(m[..k])[a * n + b] == m[a][b]
  {
    if k > 0 {
      FlattenSquare(m, n, k - 1);
      assert m[..k][..k - 1] == m[..k - 1];
      var f := Flatten(m[..k]);
      assert f == Flatten(m[..k - 1]) + m[k - 1];
      assert |f| == k * n by {
        assert (k - 1) * n + n == k * n;
      }
      forall a, b | 0 <= a < k && 0 <= b < n
        ensures a * n + b < k * n && f[a * n + b] == m[a][b]
      {
        if a < k - 1 {
          MulMonotone(a + 1, k - 1, n);
          assert a * n + n == (a + 1) * n;
          assert f[a * n + b] == Flatten(m[..k - 1])[a * n + b];
        } else {
          assert a * n == (k - 1) * n;
        }
      }
      hide Flatten;
    }
  }

  /** Writing a square matrix row by row and decoding it as FULL_MATRIX gives it back. */
  lemma FullMatrixRoundTrip(m: seq<seq<int>>, n: nat)
    requires IsSquare(m, n)
    ensures FullMatrix(Flatten(m), n) == m
  {
    FlattenSquare(m, n, n);
    assert m[..n] == m;
    var r := FullMatrix(Flatten(m), n);
    forall a | 0 <= a < n ensures r[a] == m[a] {
      forall b | 0 <= b < n ensures r[a][b] == m[a][b] {
        FullMatrixCell(Flatten(m), n, a, b);
      }
    }
  }

  /** FULL_MATRIX is taken as written: an asymmetric stream stays asymmetric. */
  lemma FullMatrixNotMirrored()
    ensures FullMatrix([0, 1, 2, 0], 2) == [[0, 1], [2, 0]]
  {
    var m := FullMatrix([0, 1, 2, 0], 2);
    assert |m| == 2;
    assert m[0] == [0, 1];
    assert m[1] == [2, 0];
  }

  // ---------------------------------------------------------- triangular layouts

  /** A triangular layout of an n x n matrix: `lower` keeps cells at or below
      the diagonal (else at or above), `diag` says whether the diagonal is kept. */
  datatype Layout = Layout(n: nat, lower: bool, diag: bool)

  /** The columns read in row i: `range(i+1 if diag else i)` for a lower
      layout, `range(i if diag else i+1, n)` for an upper one. */
  function FirstCol(L: Layout, i: nat): nat {
    if L.lower then 0 else if L.diag then i else i + 1
  }

  function EndCol(L: Layout, i: nat): (e: nat)
    requires i < L.n
    ensures FirstCol(L, i) <= e <= L.n
  {
    if L.lower then (if L.diag then i + 1 else i) else L.n
  }

  predicate InRegion(L: Layout, a: nat, b: nat) {
    a < L.n && FirstCol(L, a) <= b < EndCol(L, a)
  }

  /** The number of values the rows before row i consume. */
  function Offset(L: Layout, i: nat): nat
    requires i <= L.n
  {
    if i == 0 then 0 else Offset(L, i - 1) + (EndCol(L, i - 1) - FirstCol(L, i - 1))
  }

  lemma {:induction false} OffsetMonotone(L: Layout, i: nat, k: nat)
    requires i <= k <= L.n
    ensures Offset(L, i) <= Offset(L, k)
    decreases k
  {
    if i < k {
      OffsetMonotone(L, i, k - 1);
    }
  }

  /** The position in the value stream of the value meant for cell (a, b). */
  function Pos(L: Layout, a: nat, b: nat): (p: nat)
    requires InRegion(L, a, b)
    ensures Offset(L, a) <= p < Offset(L, a + 1)
  {
    Offset(L, a) + (b - FirstCol(L, a))
  }

  /** Cells are read in row-major order, each from the next unread value. */
  lemma PosRowMajor(L: Layout, a: nat, b: nat, c: nat, d: nat)
    requires InRegion(L, a, b) && InRegion(L, c, d)
    requires a < c || (a == c && b < d)
    ensures Pos(L, a, b) < Pos(L, c, d)
  {
    if a < c {
      OffsetMonotone(L, a + 1, c);
    }
  }

  /** A stream of length Offset(n) fills exactly the region: n(n+1)/2 values
      with the diagonal, n(n-1)/2 without. */
  lemma {:induction false} LayoutSize(L: Layout, i: nat)
    requires i <= L.n
    ensures L.lower && L.diag ==> 2 * Offset(L, i) == i * (i + 1)
    ensures L.lower && !L.diag ==> 2 * Offset(L, i) == i * (i - 1)
    ensures !L.lower && L.diag ==> 2 * Offset(L, i) == i * (2 * L.n - i + 1)
    ensures !L.lower && !L.diag ==> 2 * Offset(L, i) == i * (2 * L.n - i - 1)
  {
    if i > 0 {
      LayoutSize(L, i - 1);
      var w := EndCol(L, i - 1) - FirstCol(L, i - 1);
      assert Offset(L, i) == Offset(L, i - 1) + w;
      if L.lower && L.diag {
        LowerDiagStep(i);
      } else if L.lower {
        LowerStep(i);
      } else if L.diag {
        UpperDiagStep(i, L.n);
      } else {
        UpperStep(i, L.n);
      }
    }
  }

  lemma LowerDiagStep(i: int)
    ensures (i - 1) * i + 2 * i == i * (i + 1)
  {
  }

  lemma LowerStep(i: int)
    ensures (i - 1) * (i - 2) + 2 * (i - 1) == i * (i - 1)
  {
  }

  lemma UpperDiagStep(i: int, n: int)
    ensures (i - 1) * (2 * n - i + 2) + 2 * (n - i + 1) == i * (2 * n - i + 1)
  {
  }

  lemma UpperStep(i: int, n: int)
    ensures (i - 1) * (2 * n - i) + 2 * (n - i) == i * (2 * n - i - 1)
  {
  }

  /** The value that lands in region cell (a, b), or 0 once the stream has run out. */
  function Val(values: seq<int>, L: Layout, a: nat, b: nat): int
    requires InRegion(L, a, b)
  {
    if Pos(L, a, b) < |values| then values[Pos(L, a, b)] else 0
  }

  /** A cell is written from its own position or, mirrored, from its transpose's. */
  function Cell(values: seq<int>, L: Layout, a: nat, b: nat): int {
    if InRegion(L, a, b) then Val(values, L, a, b)
    else if InRegion(L, b, a) then Val(values, L, b, a)
    else 0
  }

  lemma RegionAntisymmetric(L: Layout, a: nat, b: nat)
    requires InRegion(L, a, b) && InRegion(L, b, a)
    ensures a == b && L.diag
  {
  }

  /** The matrix `_load_triangular` leaves behind. */
  function Triangular(values: seq<int>, L: Layout): (m: seq<seq<int>>)
    ensures IsSquare(m, L.n)
    ensures Symmetric(m)
    ensures !L.diag ==> ZeroDiagonal(m)
  {
    var m := seq(L.n, a requires 0 <= a < L.n => seq(L.n, b requires 0 <= b < L.n => Cell(values, L, a, b)));
    assert forall a, b :: 0 <= a < L.n && 0 <= b < L.n ==> m[a][b] == Cell(values, L, a, b);
    forall a, b | 0 <= a < L.n && 0 <= b < L.n ensures m[a][b] == m[b][a] {
      if InRegion(L, a, b) && InRegion(L, b, a) {
        RegionAntisymmetric(L, a, b);
      }
    }
    m
  }

  /** Which value lands in which cell: the value at Pos(a, b) goes to (a, b)
      and, mirrored, to (b, a); a cell whose value is missing stays 0. */
  lemma TriangularCell(values: seq<int>, L: Layout, a: nat, b: nat)
    requires InRegion(L, a, b)
    ensures b < L.n
    ensures Pos(L, a, b) < |values| ==> Triangular(values, L)[a][b] == values[Pos(L, a, b)]
    ensures Pos(L, a, b) < |values| ==> Triangular(values, L)[b][a] == values[Pos(L, a, b)]
    ensures Pos(L, a, b) >= |values| ==> Triangular(values, L)[a][b] == 0
  {
  }

  /** Values past the end of the region are ignored. */
  lemma TriangularIgnoresExtras(values: seq<int>, extra: seq<int>, L: Layout)
    requires |values| >= Offset(L, L.n)
    ensures Triangular(values + extra, L) == Triangular(values, L)
  {
    var m, m' := Triangular(values + extra, L), Triangular(values, L);
    forall a, b | 0 <= a < L.n && 0 <= b < L.n ensures m[a][b] == m'[a][b] {
      TriangularAt(values + extra, L, a, b);
      TriangularAt(values, L, a, b);
      CellIgnoresExtras(values, extra, L, a, b);
    }
    SameCells(m, m', L.n);
  }

  lemma TriangularAt(values: seq<int>, L: Layout, a: nat, b: nat)
    requires a < L.n && b < L.n
    ensures Triangular(values, L)[a][b] == Cell(values, L, a, b)
  {
  }

  lemma CellIgnoresExtras(values: seq<int>, extra: seq<int>, L: Layout, a: nat, b: nat)
    requires |values| >= Offset(L, L.n)
    ensures Cell(values + extra, L, a, b) == Cell(values, L, a, b)
  {
    hide Offset, FirstCol, EndCol;
    if InRegion(L, a, b) {
      OffsetMonotone(L, a + 1, L.n);
    }
    if InRegion(L, b, a) {
      OffsetMonotone(L, b + 1, L.n);
    }
  }

  /** Two square matrices with the same cells are equal. */
  lemma SameCells(m: seq<seq<int>>, m': seq<seq<int>>, n: nat)
    requires IsSquare(m, n) && IsSquare(m', n)
    requires forall a, b :: 0 <= a < n && 0 <= b < n ==> m[a][b] == m'[a][b]
    ensures m == m'
  {
    forall a | 0 <= a < n ensures m[a] == m'[a] {
      assert forall b :: 0 <= b < n ==> m[a][b] == m'[a][b];
    }
  }

  /** The example of an UPPER_ROW stream for three cities. */
  lemma UpperRowExample()
    ensures Triangular([7, 9, 3], Layout(3, false, false)) == [[0, 7, 9], [7, 0, 3], [9, 3, 0]]
  {
    var L := Layout(3, false, false);
    assert Offset(L, 1) == 2 && Offset(L, 2) == 3;
    var m := Triangular([7, 9, 3], L);
    assert m[0] == [0, 7, 9];
    assert m[1] == [7, 0, 3];
    assert m[2] == [9, 3, 0];
  }

  /** The cells of rows 0..k-1 in the layout's reading order. */
  function ExtractRows(m: seq<seq<int>>, L: Layout, k: nat): (r: seq<int>)
    requires IsSquare(m, L.n) && k <= L.n
    ensures |r| == Offset(L, k)
  {
    if k == 0 then [] else ExtractRows(m, L, k - 1) + m[k - 1][FirstCol(L, k - 1)..EndCol(L, k - 1)]
  }

  /** A cell of row a is read from the values of row a itself. */
  lemma ExtractRowsLast(m: seq<seq<int>>, L: Layout, a: nat, b: nat)
    requires IsSquare(m, L.n) && InRegion(L, a, b)
    ensures Pos(L, a, b) < |ExtractRows(m, L, a + 1)| && ExtractRows(m, L, a + 1)[Pos(L, a, b)] == m[a][b]
  {
    var prev := ExtractRows(m, L, a);
    var row := m[a][FirstCol(L, a)..EndCol(L, a)];
    assert ExtractRows(m, L, a + 1) == prev + row;
    assert row[b - FirstCol(L, a)] == m[a][b];
  }

  lemma {:induction false} ExtractRowsAt(m: seq<seq<int>>, L: Layout, k: nat, a: nat, b: nat)
    requires IsSquare(m, L.n) && k <= L.n
    requires InRegion(L, a, b) && a < k
    ensures Pos(L, a, b) < |ExtractRows(m, L, k)| && ExtractRows(m, L, k)[Pos(L, a, b)] == m[a][b]
  {
    if a < k - 1 {
      ExtractRowsAt(m, L, k - 1, a, b);
      var prev := ExtractRows(m, L, k - 1);
      assert ExtractRows(m, L, k) == prev + m[k - 1][FirstCol(L, k - 1)..EndCol(L, k - 1)];
      hide *;
    } else {
      ExtractRowsLast(m, L, a, b);
    }
  }

  /** Writing a symmetric matrix out in a triangular layout and decoding it
      gives it back (without the diagonal, its diagonal must be zero). */
  lemma TriangularRoundTrip(m: seq<seq<int>>, L: Layout)
    requires IsSquare(m, L.n) && Symmetric(m)
    requires !L.diag ==> ZeroDiagonal(m)
    ensures Triangular(ExtractRows(m, L, L.n), L) == m
  {
    var values := ExtractRows(m, L, L.n);
    var t := Triangular(values, L);
    forall a, b | 0 <= a < L.n && 0 <= b < L.n ensures t[a][b] == m[a][b] {
      TriangularAt(values, L, a, b);
      CellRoundTrip(m, L, a, b);
    }
    SameCells(t, m, L.n);
  }

  lemma CellRoundTrip(m: seq<seq<int>>, L: Layout, a: nat, b: nat)
    requires IsSquare(m, L.n) && Symmetric(m)
    requires !L.diag ==> ZeroDiagonal(m)
    requires a < L.n && b < L.n
    ensures Cell(ExtractRows(m, L, L.n), L, a, b) == m[a][b]
  {
    if InRegion(L, a, b) {
      ExtractRowsAt(m, L, L.n, a, b);
    } else if InRegion(L, b, a) {
      ExtractRowsAt(m, L, L.n, b, a);
    }
  }

  /** Region cell (a, b) is visited before the loops reach row i, column j. */
  predicate Before(a: nat, b: nat, i: nat, j: nat) {
    a < i || (a == i && b < j)
  }

  /** The matrix cell after the loops have visited every region cell before (i, j). */
  function Partial(values: seq<int>, L: Layout, i: nat, j: nat, a: nat, b: nat): int {
    if InRegion(L, a, b) && Before(a, b, i, j) then Val(values, L, a, b)
    else if InRegion(L, b, a) && Before(b, a, i, j) then Val(values, L, b, a)
    else 0
  }

  /** `m` is the matrix after the loops have visited every region cell before (i, j). */
  predicate Visited(m: seq<seq<int>>, values: seq<int>, L: Layout, i: nat, j: nat) {
    IsSquare(m, L.n) &&
    forall a, b :: 0 <= a < L.n && 0 <= b < L.n ==> m[a][b] == Partial(values, L, i, j, a, b)
  }

  /** `_load_triangular`: zero-filled n x n matrix, a running value index, and
      every visited cell written together with its mirror while values last. */
  method LoadTriangular(values: seq<int>, L: Layout) returns (m: seq<seq<int>>)
    ensures m == Triangular(values, L)
  {
    var n := L.n;
    m := seq(n, _ => seq(n, _ => 0));
    var index := 0;
    var i := 0;
    while i < n
      invariant i <= n
      invariant index == Min(Offset(L, i), |values|)
      invariant Visited(m, values, L, i, 0)
    {
      m, index := LoadRow(m, values, L, i, index);
      i := i + 1;
    }
    VisitedAll(m, values, L);
  }

  /** The inner loop of `_load_triangular` for row i. */
  method LoadRow(m0: seq<seq<int>>, values: seq<int>, L: Layout, i: nat, index0: nat)
    returns (m: seq<seq<int>>, index: nat)
    requires i < L.n && index0 == Min(Offset(L, i), |values|)
    requires Visited(m0, values, L, i, 0)
    ensures index == Min(Offset(L, i + 1), |values|)
    ensures Visited(m, values, L, i + 1, 0)
  {
    hide Partial, Val;
    m, index := m0, index0;
    var j := FirstCol(L, i);
    var end := EndCol(L, i);
    RowStart(m, values, L, i);
    while j < end
      invariant FirstCol(L, i) <= j <= end
      invariant index == Min(Offset(L, i) + (j - FirstCol(L, i)), |values|)
      invariant Visited(m, values, L, i, j)
    {
      if index < |values| {
        WriteStep(m, values, L, i, j, index);
        m := m[i := m[i][j := values[index]]];
        m := m[j := m[j][i := values[index]]];
        index := index + 1;
      } else {
        SkipStep(m, values, L, i, j, index);
      }
      j := j + 1;
    }
    RowEnd2(m, values, L, i);
  }

  /** Once every row has been visited the matrix is the decoded one. */
  lemma VisitedAll(m: seq<seq<int>>, values: seq<int>, L: Layout)
    requires Visited(m, values, L, L.n, 0)
    ensures m == Triangular(values, L)
  {
    var t := Triangular(values, L);
    forall a | 0 <= a < L.n ensures m[a] == t[a] {
      assert forall b :: 0 <= b < L.n ==> m[a][b] == t[a][b];
    }
  }

  lemma RowStart(m: seq<seq<int>>, values: seq<int>, L: Layout, i: nat)
    requires i < L.n && Visited(m, values, L, i, 0)
    ensures Visited(m, values, L, i, FirstCol(L, i))
  {
    forall a, b | 0 <= a < L.n && 0 <= b < L.n
      ensures Partial(values, L, i, 0, a, b) == Partial(values, L, i, FirstCol(L, i), a, b)
    {
    }
  }

  lemma RowEnd2(m: seq<seq<int>>, values: seq<int>, L: Layout, i: nat)
    requires i < L.n && Visited(m, values, L, i, EndCol(L, i))
    ensures Visited(m, values, L, i + 1, 0)
  {
    forall a, b | 0 <= a < L.n && 0 <= b < L.n
      ensures Partial(values, L, i, EndCol(L, i), a, b) == Partial(values, L, i + 1, 0, a, b)
    {
    }
  }

  /** Visiting region cell (i, j) settles that cell and its mirror, and no other. */
  lemma StepCell(values: seq<int>, L: Layout, i: nat, j: nat, a: nat, b: nat)
    requires InRegion(L, i, j)
    ensures Partial(values, L, i, j + 1, a, b) ==
      if (a == i && b == j) || (a == j && b == i) then Val(values, L, i, j)
      else Partial(values, L, i, j, a, b)
  {
    hide Val, Pos, Offset;
    if a == i && b == j {
    } else if a == j && b == i {
      if InRegion(L, a, b) {
        RegionAntisymmetric(L, a, b);
      }
    } else {
      assert Before(a, b, i, j + 1) == Before(a, b, i, j);
      assert Before(b, a, i, j + 1) == Before(b, a, i, j);
    }
  }

  /** The running index of the loops points at the value meant for (i, j). */
  lemma NextValue(values: seq<int>, L: Layout, i: nat, j: nat, index: nat)
    requires i < L.n && FirstCol(L, i) <= j < EndCol(L, i)
    requires index == Min(Offset(L, i) + (j - FirstCol(L, i)), |values|)
    ensures index < |values| ==> Val(values, L, i, j) == values[index]
    ensures index >= |values| ==> Val(values, L, i, j) == 0
  {
    var p := Pos(L, i, j);
    assert p == Offset(L, i) + (j - FirstCol(L, i));
    assert index == if p < |values| then p else |values|;
    assert Val(values, L, i, j) == if p < |values| then values[p] else 0;
    hide *;
  }

  /** Writing the next value into (i, j) and (j, i) moves the loops one cell on. */
  lemma WriteStep(m: seq<seq<int>>, values: seq<int>, L: Layout, i: nat, j: nat, index: nat)
    requires i < L.n && FirstCol(L, i) <= j < EndCol(L, i)
    requires index == Min(Offset(L, i) + (j - FirstCol(L, i)), |values|) && index < |values|
    requires Visited(m, values, L, i, j)
    ensures var m1 := m[i := m[i][j := values[index]]];
            Visited(m1[j := m1[j][i := values[index]]], values, L, i, j + 1)
  {
    var v := values[index];
    var m1 := m[i := m[i][j := v]];
    var m2 := m1[j := m1[j][i := v]];
    NextValue(values, L, i, j, index);
    MirrorWrite(m, i, j, v, L.n);
    forall a, b | 0 <= a < L.n && 0 <= b < L.n
      ensures m2[a][b] == Partial(values, L, i, j + 1, a, b)
    {
      StepCell(values, L, i, j, a, b);
    }
    hide Partial, IsSquare, Val;
  }

  /** Writing v into (i, j) and then into (j, i) changes those two cells only. */
  lemma MirrorWrite(m: seq<seq<int>>, i: nat, j: nat, v: int, n: nat)
    requires IsSquare(m, n) && i < n && j < n
    ensures var m1 := m[i := m[i][j := v]];
            var m2 := m1[j := m1[j][i := v]];
            IsSquare(m2, n) &&
            forall a, b :: 0 <= a < n && 0 <= b < n ==>
              m2[a][b] == if (a == i && b == j) || (a == j && b == i) then v else m[a][b]
  {
  }

  /** Once the values have run out a visited cell stays 0. */
  lemma SkipStep(m: seq<seq<int>>, values: seq<int>, L: Layout, i: nat, j: nat, index: nat)
    requires i < L.n && FirstCol(L, i) <= j < EndCol(L, i)
    requires index == Min(Offset(L, i) + (j - FirstCol(L, i)), |values|) && index >= |values|
    requires Visited(m, values, L, i, j)
    ensures Visited(m, values, L, i, j + 1)
  {
    NextValue(values, L, i, j, index);
    hide Partial, Val;
    forall a, b | 0 <= a < L.n && 0 <= b < L.n
      ensures Partial(values, L, i, j + 1, a, b) == Partial(values, L, i, j, a, b)
    {
      SkipCell(values, L, i, j, a, b);
    }
  }

  /** A cell whose value is 0 leaves every cell of the partial matrix as it was. */
  lemma SkipCell(values: seq<int>, L: Layout, i: nat, j: nat, a: nat, b: nat)
    requires InRegion(L, i, j) && Val(values, L, i, j) == 0
    ensures Partial(values, L, i, j + 1, a, b) == Partial(values, L, i, j, a, b)
  {
    StepCell(values, L, i, j, a, b);
    if a == i && b == j {
      assert !Before(a, b, i, j);
      if InRegion(L, b, a) {
        RegionAntisymmetric(L, a, b);
      }
    } else if a == j && b == i {
      assert !Before(b, a, i, j);
      if InRegion(L, a, b) {
        RegionAntisymmetric(L, a, b);
      }
    }
  }

  // ------------------------------------------------------------- format names

  const ColumnFormats: seq<string> := ["LOWER_COL", "UPPER_COL", "LOWER_DIAG_COL", "UPPER_DIAG_COL"]

  /** The four column layouts are read as their row twins; no column name
      survives and every other value is kept. */
  function RemapFormat(format: Option<string>): (r: Option<string>)
    ensures r.Some? ==> r.value !in ColumnFormats
    ensures r.Some? <==> format.Some?
    ensures format.None? || format.value !in ColumnFormats ==> r == format
  {
    match format
    case Some("LOWER_COL") => Some("UPPER_ROW")
    case Some("UPPER_COL") => Some("LOWER_ROW")
    case Some("LOWER_DIAG_COL") => Some("UPPER_DIAG_ROW")
    case Some("UPPER_DIAG_COL") => Some("LOWER_DIAG_ROW")
    case _ => format
  }

  /** Remapping twice is remapping once, so decoding again after validation
      reads the stream with the same layout. */
  lemma RemapIdempotent(format: Option<string>)
    ensures RemapFormat(RemapFormat(format)) == RemapFormat(format)
  {
  }

  /** The layout a (remapped) format name stands for; None for FULL_MATRIX
      and for names with no layout. */
  function LayoutOf(format: string, n: nat): Option<Layout> {
    match format
    case "LOWER_DIAG_ROW" => Some(Layout(n, true, true))
    case "LOWER_ROW" => Some(Layout(n, true, false))
    case "UPPER_DIAG_ROW" => Some(Layout(n, false, true))
    case "UPPER_ROW" => Some(Layout(n, false, false))
    case _ => None
  }

  // -------------------------------------------------------- coordinate metrics

  /** The cell after the fill loops have measured every pair before (i, j). */
  function Filled<T>(points: seq<T>, dist: (T, T) -> int, i: nat, j: nat, a: nat, b: nat): int
    requires a < |points| && b < |points|
  {
    if a < b && Before(a, b, i, j) then dist(points[a], points[b])
    else if b < a && Before(b, a, i, j) then dist(points[b], points[a])
    else 0
  }

  predicate FilledUpTo<T>(m: seq<seq<int>>, points: seq<T>, dist: (T, T) -> int, i: nat, j: nat) {
    IsSquare(m, |points|) &&
    forall a, b :: 0 <= a < |points| && 0 <= b < |points| ==> m[a][b] == Filled(points, dist, i, j, a, b)
  }

  /** The matrix of a coordinate metric: k x k for k points, each pair
      a < b measured once and mirrored, zero on the diagonal. */
  function PairMatrix<T>(points: seq<T>, dist: (T, T) -> int): (m: seq<seq<int>>)
    ensures IsSquare(m, |points|) && Symmetric(m) && ZeroDiagonal(m)
    ensures forall a, b :: 0 <= a < b < |points| ==> m[a][b] == dist(points[a], points[b])
  {
    var n := |points|;
    seq(n, a requires 0 <= a < n =>
      seq(n, b requires 0 <= b < n =>
        if a < b then dist(points[a], points[b])
        else if b < a then dist(points[b], points[a])
        else 0))
  }

  /** The loop shared by the EUC_2D, CEIL_2D, ATT and GEO routines: a zero
      matrix filled pair by pair, the cell (j, i) mirroring (i, j). */
  method FillSymmetric<T>(points: seq<T>, dist: (T, T) -> int) returns (m: seq<seq<int>>)
    ensures m == PairMatrix(points, dist)
  {
    var n := |points|;
    m := seq(n, _ => seq(n, _ => 0));
    var i := 0;
    while i < n
      invariant i <= n
      invariant FilledUpTo(m, points, dist, i, 0)
    {
      var j := i + 1;
      assert forall a, b :: 0 <= a < n && 0 <= b < n ==>
        Filled(points, dist, i, 0, a, b) == Filled(points, dist, i, j, a, b);
      while j < n
        invariant i + 1 <= j <= n
        invariant FilledUpTo(m, points, dist, i, j)
      {
        var d := dist(points[i], points[j]);
        ghost var m0 := m;
        m := m[i := m[i][j := d]];
        m := m[j := m[j][i := d]];
        forall a, b | 0 <= a < n && 0 <= b < n
          ensures m[a][b] == Filled(points, dist, i, j + 1, a, b)
        {
          if (a == i && b == j) || (a == j && b == i) {
          } else {
            assert m[a][b] == m0[a][b];
          }
        }
        j := j + 1;
      }
      assert forall a, b :: 0 <= a < n && 0 <= b < n ==>
        Filled(points, dist, i, n, a, b) == Filled(points, dist, i + 1, 0, a, b);
      i := i + 1;
    }
    assert forall a, b :: 0 <= a < n && 0 <= b < n ==> m[a][b] == Filled(points, dist, n, 0, a, b);
    ghost var p := PairMatrix(points, dist);
    assert forall a :: 0 <= a < n ==> m[a] == p[a];
  }
}
