/** Grid geometry of the Minesweeper board: cell positions, the boundary-clipped
    3x3 window around a cell in the order the board's nested loops visit it,
    and the number of cells of a set that fall inside such a window. */
module Geometry {

  /** A cell position: column `x`, row `y`; the board keeps it at `cells[y][x]`. */
  datatype Pos = Pos(x: int, y: int)

  /** The nine positions of the 3x3 block centred on `p`, in the order of the
      loops `for dy := -1; dy <= 1` (outer) and `for dx := -1; dx <= 1` (inner):
      index `3 * (dy + 1) + (dx + 1)` holds `Pos(p.x + dx, p.y + dy)`; index 4 is `p`. */
  function Around(p: Pos): (ring: seq<Pos>)
    ensures |ring| == 9
  {
    [Pos(p.x - 1, p.y - 1), Pos(p.x, p.y - 1), Pos(p.x + 1, p.y - 1),
     Pos(p.x - 1, p.y), p, Pos(p.x + 1, p.y),
     Pos(p.x - 1, p.y + 1), Pos(p.x, p.y + 1), Pos(p.x + 1, p.y + 1)]
  }

  /** The `k`-th position of the window around (x, y), at offset (dx, dy), with
      `k` counted in row order. */
  lemma AroundAt(x: int, y: int, dx: int, dy: int, k: int)
    requires -1 <= dx <= 1 && -1 <= dy <= 1 && k == 3 * (dy + 1) + (dx + 1)
    ensures 0 <= k < 9 && Around(Pos(x, y))[k] == Pos(x + dx, y + dy)
  {
  }

  /** Every position of an `r x c` grid. */
  function GridCells(r: int, c: int): set<Pos>
  {
    set x, y | 0 <= x < c && 0 <= y < r :: Pos(x, y)
  }

  /** The mine layout of a board: its size, the mine count it was built with,
      and the set of positions that hold a mine. */
  datatype Layout = Layout(rows: int, cols: int, mines: int, mined: set<Pos>)
  {
    predicate InRange(p: Pos)
    {
      0 <= p.x < cols && 0 <= p.y < rows
    }

    /** Every position of the `rows x cols` grid. */
    function Cells(): set<Pos>
    {
      GridCells(rows, cols)
    }

    /** `q` is on the grid and within Chebyshev distance 1 of `p` (`p` itself included). */
    predicate Adjacent(p: Pos, q: Pos)
    {
      InRange(q) && -1 <= q.x - p.x <= 1 && -1 <= q.y - p.y <= 1
    }

    /** A layout as the board builds it: a non-empty grid whose `mines` mines lie on it. */
    predicate WellFormed()
    {
      0 < rows && 0 < cols && 0 <= mines &&
      (forall p :: p in mined ==> InRange(p)) &&
      |mined| == mines
    }

    /** How many of `ring[..n]` are on the grid and in `s`. */
    function CountFirst(ring: seq<Pos>, s: set<Pos>, n: nat): nat
      requires n <= |ring|
    {
      if n == 0 then 0
      else CountFirst(ring, s, n - 1) + (if InRange(ring[n - 1]) && ring[n - 1] in s then 1 else 0)
    }

    /** How many cells of `s` lie in the boundary-clipped 3x3 window around `p`. */
    function CountIn(p: Pos, s: set<Pos>): nat
    {
      CountFirst(Around(p), s, |Around(p)|)
    }

    /** The `neighbor` value the board stores in the cell at `p`: the number of
        mines around it, or the zero it is left with when `p` is itself a mine. */
    function Neighbor(p: Pos): nat
    {
      if p in mined then 0 else CountIn(p, mined)
    }
  }

  lemma InCells(L: Layout, p: Pos)
    ensures p in L.Cells() <==> L.InRange(p)
  {
    if L.InRange(p) {
      assert p == Pos(p.x, p.y);
    }
  }

  /** Every in-range position adjacent to `p` appears in `Around(p)`, at the index
      the nested loops reach it; conversely every in-range entry of the ring is adjacent. */
  lemma AdjacentInAround(L: Layout, p: Pos, q: Pos)
    ensures L.Adjacent(p, q) ==>
      var k := 3 * (q.y - p.y + 1) + (q.x - p.x + 1);
      0 <= k < 9 && Around(p)[k] == q
    ensures forall k :: 0 <= k < 9 && Around(p)[k] == q && L.InRange(q) ==> L.Adjacent(p, q)
  {
    if L.Adjacent(p, q) {
      AroundAt(p.x, p.y, q.x - p.x, q.y - p.y, 3 * (q.y - p.y + 1) + (q.x - p.x + 1));
    }
  }

  lemma {:induction false} CountFirstBound(L: Layout, ring: seq<Pos>, s: set<Pos>, n: nat)
    requires n <= |ring|
    ensures L.CountFirst(ring, s, n) <= n
    ensures 4 < n && ring[4] !in s ==> L.CountFirst(ring, s, n) <= n - 1
  {
    if n > 0 {
      CountFirstBound(L, ring, s, n - 1);
    }
  }

  /** One step of a window walk in loop order: position `(dx, dy)` is counted
      when it is on the grid and in `s`. */
  lemma CountStep(L: Layout, p: Pos, s: set<Pos>, dx: int, dy: int)
    requires -1 <= dx <= 1 && -1 <= dy <= 1
    ensures var k := 3 * (dy + 1) + (dx + 1); var q := Pos(p.x + dx, p.y + dy);
      L.CountFirst(Around(p), s, k + 1) == L.CountFirst(Around(p), s, k) + (if L.InRange(q) && q in s then 1 else 0)
  {
    AroundAt(p.x, p.y, dx, dy, 3 * (dy + 1) + (dx + 1));
  }

  /** A window count lies in 0..9, and in 0..8 when the centre is not in the set:
      so the `neighbor` value of a safe cell is between 0 and 8. */
  lemma CountInBound(L: Layout, p: Pos, s: set<Pos>)
    ensures L.CountIn(p, s) <= 9
    ensures p !in s ==> L.CountIn(p, s) <= 8
  {
    CountFirstBound(L, Around(p), s, |Around(p)|);
  }

  lemma NeighborBound(L: Layout, p: Pos)
    ensures 0 <= L.Neighbor(p) <= 8
  {
    CountInBound(L, p, L.mined);
  }

  lemma {:induction false} CountFirstZero(L: Layout, ring: seq<Pos>, s: set<Pos>, n: nat)
    requires n <= |ring|
    ensures L.CountFirst(ring, s, n) == 0 <==>
            forall k :: 0 <= k < n && L.InRange(ring[k]) ==> ring[k] !in s
  {
    if n > 0 {
      CountFirstZero(L, ring, s, n - 1);
    }
  }

  /** A window count is zero exactly when no adjacent cell is in the set. */
  lemma CountInZero(L: Layout, p: Pos, s: set<Pos>)
    ensures L.CountIn(p, s) == 0 <==> forall q :: L.Adjacent(p, q) ==> q !in s
  {
    CountFirstZero(L, Around(p), s, |Around(p)|);
    forall q | L.Adjacent(p, q) {
      AdjacentInAround(L, p, q);
    }
    forall k | 0 <= k < 9 && L.InRange(Around(p)[k]) {
      AdjacentInAround(L, p, Around(p)[k]);
    }
  }

  function RowCells(y: int, c: int): set<Pos>
  {
    set x | 0 <= x < c :: Pos(x, y)
  }

  lemma {:induction false} RowCellsCard(y: int, c: nat)
    ensures |RowCells(y, c)| == c
  {
    if c > 0 {
      RowCellsCard(y, c - 1);
      assert RowCells(y, c) == RowCells(y, c - 1) + {Pos(c - 1, y)};
    }
  }

  lemma BlockSplit(r: nat, c: int)
    ensures GridCells(r + 1, c) == GridCells(r, c) + RowCells(r, c)
    ensures GridCells(r, c) * RowCells(r, c) == {}
  {
    forall p | p in GridCells(r + 1, c)
      ensures p in GridCells(r, c) + RowCells(r, c)
    {
      if p.y < r {
        assert p in GridCells(r, c);
      } else {
        assert p in RowCells(r, c);
      }
    }
    forall p | p in GridCells(r, c) + RowCells(r, c)
      ensures p in GridCells(r + 1, c)
    {
      assert 0 <= p.x < c && 0 <= p.y < r + 1 && p == Pos(p.x, p.y);
    }
  }

  lemma MulStep(r: int, c: int)
    ensures r * c == (r - 1) * c + c
  {
  }

  lemma {:induction false} GridCellsCard(r: nat, c: nat)
    ensures |GridCells(r, c)| == r * c
  {
    if r > 0 {
      GridCellsCard(r - 1, c);
      RowCellsCard(r - 1, c);
      BlockSplit(r - 1, c);
      var A, B := GridCells(r - 1, c), RowCells(r - 1, c);
      assert |A + B| == |A| + |B|;
      MulStep(r, c);
    }
  }

  /** The grid has `rows * cols` cells. */
  lemma CellsCard(L: Layout)
    requires 0 <= L.rows && 0 <= L.cols
    ensures |L.Cells()| == L.rows * L.cols
  {
    GridCellsCard(L.rows, L.cols);
  }

  /** A subset is no larger than its superset. */
  lemma {:induction false} SubsetCard<T>(a: set<T>, b: set<T>)
    requires a <= b
    ensures |a| <= |b|
    decreases |b|
  {
    if a != {} {
      var x :| x in a;
      SubsetCard(a - {x}, b - {x});
    }
  }
}
