/** The board: a `rows x cols` grid of cells updated in place, the `open` and
    `flags` counters, the game-over flags and the settings panel's fields. Each
    method is proved to change the board's state exactly as the rule of the
    same name in `Rules` says. */
module Minesweeper {
  import opened Geometry
  import opened Flood
  import opened Rules
  import opened Placement
  import opened Settings

  /** One cell of the grid. */
  datatype Cell = Cell(isMine: bool, neighbor: int, isOpen: bool, isFlagged: bool, isFocused: bool)

  /** The placement loop of `NewBoard` on a fresh grid: draw positions until
      `mines` distinct ones hold a mine. */
  method PlaceMines(rows: int, cols: int, mines: int, draws: seq<Pos>) returns (g: array2<Cell>, ghost placed: set<Pos>)
    requires DrawsFit(rows, cols, mines, draws)
    ensures fresh(g) && g.Length0 == rows && g.Length1 == cols
    ensures placed == Placed(draws, mines) && |placed| == mines
    ensures forall p :: p in placed ==> 0 <= p.x < cols && 0 <= p.y < rows
    ensures forall y, x :: 0 <= y < rows && 0 <= x < cols ==>
      g[y, x] == Cell(Pos(x, y) in placed, 0, false, false, false)
  {
    g := new Cell[rows, cols]((y, x) => Cell(false, 0, false, false, false));
    placed := {};
    var i := 0;
    var k := 0;
    while i < mines
      invariant 0 <= k <= |draws|
      invariant placed == Placed(draws[..k], mines) && i == |placed| && i <= mines
      invariant forall y, x :: 0 <= y < rows && 0 <= x < cols ==>
        g[y, x] == Cell(Pos(x, y) in placed, 0, false, false, false)
      decreases |draws| - k
    {
      PlacedShort(draws, k, mines);
      var d := draws[k];
      assert draws[..k + 1][..k] == draws[..k];
      if !g[d.y, d.x].isMine {
        g[d.y, d.x] := g[d.y, d.x].(isMine := true);
        placed := placed + {d};
        i := i + 1;
      }
      k := k + 1;
    }
    PlacedFull(draws, k, mines);
    PlacedInRange(Layout(rows, cols, mines, placed), draws, mines);
  }

  /** `NewDefaultBoard`: the 16 x 16 board with 40 mines and 25-pixel cells the
      game starts with. */
  method NewDefaultBoard(draws: seq<Pos>) returns (b: Board)
    requires DrawsFit(16, 16, 40, draws)
    ensures fresh(b) && b.Valid() && b.rows == 16 && b.cols == 16 && b.cellSize == 25 && b.mines == 40
    ensures b.Mined == Placed(draws, 40) && b.State() == Initial(b.MineLayout())
    ensures b.settings.Value() == Fresh(16, 16, 40)
  {
    b := new Board(16, 16, 25, 40, draws);
  }

  /** The settings panel's fields of a board: the size and mine count the next
      game will use, and the state of the text field being edited. */
  class SettingsPanel {
    var currentRows: int
    var currentCols: int
    var currentMines: int
    var isEditingRows: bool
    var isEditingCols: bool
    var isEditingMines: bool
    var inputBuffer: string
    var editField: EditField
    var isCursorOn: bool

    function Value(): Panel
      reads this
    {
      Panel(currentRows, currentCols, currentMines, isEditingRows, isEditingCols,
            isEditingMines, inputBuffer, editField, isCursorOn)
    }

    /** The panel `NewBoard` sets up. */
    constructor (rows: int, cols: int, mines: int)
      ensures Value() == Fresh(rows, cols, mines)
    {
      currentRows, currentCols, currentMines := rows, cols, mines;
      isEditingRows, isEditingCols, isEditingMines := false, false, false;
      inputBuffer, editField, isCursorOn := "", NoField, false;
    }
  }

  class Board {
    const rows: int
    const cols: int
    const cellSize: int
    const mines: int
    /** The grid, indexed `cells[y, x]`. */
    const cells: array2<Cell>

    var flags: int
    var open: int
    var isGameOver: bool
    var isWin: bool

    /** The settings panel's fields. */
    const settings: SettingsPanel

    /** Where the mines are, fixed when the board is built. */
    ghost const Mined: set<Pos>
    /** The `neighbor` value each cell is given when the board is built. */
    ghost const Numbers: Pos -> int
    /** The open, flagged and focused cells, mirroring the cells' flags. */
    ghost var OpenCells: set<Pos>
    ghost var FlagCells: set<Pos>
    ghost var FocusCells: set<Pos>

    ghost function MineLayout(): Layout
    {
      Layout(rows, cols, mines, Mined)
    }

    ghost function State(): BoardState
      reads this`OpenCells, this`FlagCells, this`FocusCells,
        this`open, this`flags, this`isGameOver, this`isWin
    {
      BoardState(OpenCells, FlagCells, FocusCells, open, flags, isGameOver, isWin)
    }

    /** The cell the board should hold at `p`. */
    ghost function CellAt(p: Pos): Cell
      reads this`OpenCells, this`FlagCells, this`FocusCells
    {
      Cell(p in Mined, Numbers(p), p in OpenCells, p in FlagCells, p in FocusCells)
    }

    /** The stored numbers are the layout's mine counts (0 on a mine). */
    ghost predicate NumbersRight()
    {
      forall p {:trigger MineLayout().Neighbor(p)} :: Numbers(p) == MineLayout().Neighbor(p)
    }

    /** The grid has the board's size and its `isMine` flags are the layout's mines. */
    ghost predicate MinesLaid()
      reads cells
    {
      cells.Length0 == rows && cells.Length1 == cols &&
      forall y, x {:trigger cells[y, x]} :: 0 <= y < rows && 0 <= x < cols ==> (cells[y, x].isMine <==> Pos(x, y) in Mined)
    }

    /** The grid's `isFlagged` flags are the flagged cells and its `neighbor`
        values the layout's numbers. */
    ghost predicate FlagsLaid()
      reads this`FlagCells, cells
    {
      cells.Length0 == rows && cells.Length1 == cols && NumbersRight() &&
      forall y, x {:trigger cells[y, x]} :: 0 <= y < rows && 0 <= x < cols ==>
        (cells[y, x].isFlagged <==> Pos(x, y) in FlagCells) && cells[y, x].neighbor == Numbers(Pos(x, y))
    }

    /** Every cell agrees with the abstract state, and that state is consistent. */
    ghost predicate Valid()
      reads this`OpenCells, this`FlagCells, this`FocusCells,
        this`open, this`flags, this`isGameOver, this`isWin, cells
    {
      Shaped() && Consistent(MineLayout(), State())
    }

    /** The grid has the board's size, its numbers are the layout's, and every
        cell is the one the abstract state describes. */
    ghost predicate Shaped()
      reads this`OpenCells, this`FlagCells, this`FocusCells, cells
    {
      cells.Length0 == rows && cells.Length1 == cols && NumbersRight() && Mirrored()
    }

    /** Every cell of the grid is the one the abstract state describes. */
    ghost predicate Mirrored()
      reads this`OpenCells, this`FlagCells, this`FocusCells, cells
    {
      forall y, x {:trigger cells[y, x]} :: 0 <= y < rows && 0 <= x < cols && y < cells.Length0 && x < cells.Length1 ==>
        cells[y, x] == CellAt(Pos(x, y))
    }

    lemma ValidFlagsLaid()
      requires Shaped()
      ensures FlagsLaid()
    {
      forall y, x | 0 <= y < rows && 0 <= x < cols
        ensures (cells[y, x].isFlagged <==> Pos(x, y) in FlagCells) && cells[y, x].neighbor == Numbers(Pos(x, y))
      {
        assert cells[y, x] == CellAt(Pos(x, y));
      }
    }

    /** `NewBoard`. The random stream is the parameter `draws`: the positions
        `(r.Intn(cols), r.Intn(rows))` in the order drawn. Placement consumes
        draws until `mines` distinct positions are mines, so the stream must hold
        that many distinct positions. */
    constructor (rows: int, cols: int, cellSize: int, mines: int, draws: seq<Pos>)
      requires DrawsFit(rows, cols, mines, draws)
      ensures Valid() && fresh(cells)
      ensures this.rows == rows && this.cols == cols && this.cellSize == cellSize && this.mines == mines
      ensures Mined == Placed(draws, mines) && |Mined| == mines
      ensures State() == Initial(MineLayout())
      ensures fresh(settings) && settings.Value() == Fresh(rows, cols, mines)
    {
      var g;
      ghost var placed;
      g, placed := PlaceMines(rows, cols, mines, draws);
      this.rows, this.cols, this.cellSize, this.mines := rows, cols, cellSize, mines;
      cells := g;
      Mined := placed;
      Numbers := p => Layout(rows, cols, mines, placed).Neighbor(p);
      flags, open, isGameOver, isWin := mines, 0, false, false;
      OpenCells, FlagCells, FocusCells := {}, {}, {};
      settings := new SettingsPanel(rows, cols, mines);
      new;
      LayNumbers();
      assert Mirrored();
      InitialConsistent(MineLayout());
    }

    /** The numbering loop of `NewBoard`: every safe cell gets the number of mines
        around it. */
    method LayNumbers()
      requires cells.Length0 == rows && cells.Length1 == cols && NumbersRight()
      requires forall y, x :: 0 <= y < rows && 0 <= x < cols ==>
        cells[y, x] == Cell(Pos(x, y) in Mined, 0, false, false, false)
      modifies cells
      ensures forall y, x :: 0 <= y < rows && 0 <= x < cols ==>
        cells[y, x] == Cell(Pos(x, y) in Mined, Numbers(Pos(x, y)), false, false, false)
    {
      var y := 0;
      while y < rows
        invariant 0 <= y <= rows
        invariant forall yy, xx :: 0 <= yy < rows && 0 <= xx < cols ==>
          cells[yy, xx] == Cell(Pos(xx, yy) in Mined, if yy < y then Numbers(Pos(xx, yy)) else 0, false, false, false)
      {
        var x := 0;
        while x < cols
          invariant 0 <= x <= cols
          invariant forall yy, xx :: 0 <= yy < rows && 0 <= xx < cols ==>
            cells[yy, xx] == Cell(Pos(xx, yy) in Mined,
                                  if yy < y || (yy == y && xx < x) then Numbers(Pos(xx, yy)) else 0,
                                  false, false, false)
        {
          if !cells[y, x].isMine {
            assert MinesLaid();
            var n := CountNeighbors(x, y);
            assert MineLayout().Neighbor(Pos(x, y)) == n;
            cells[y, x] := cells[y, x].(neighbor := n);
          } else {
            assert MineLayout().Neighbor(Pos(x, y)) == 0;
          }
          x := x + 1;
        }
        y := y + 1;
      }
    }

    /** `countNeighbors`: the mines in the boundary-clipped 3x3 window around (x, y). */
    method CountNeighbors(x: int, y: int) returns (count: int)
      requires MinesLaid()
      ensures count == MineLayout().CountIn(Pos(x, y), Mined)
    {
      ghost var L := MineLayout();
      count := 0;
      ghost var k := 0;
      var dy := -1;
      while dy <= 1
        invariant -1 <= dy <= 2 && k == 3 * (dy + 1)
        invariant count == L.CountFirst(Around(Pos(x, y)), Mined, k)
      {
        var dx := -1;
        while dx <= 1
          invariant -1 <= dx <= 2 && k == 3 * (dy + 1) + (dx + 1)
          invariant count == L.CountFirst(Around(Pos(x, y)), Mined, k)
        {
          CountStep(L, Pos(x, y), Mined, dx, dy);
          var nx, ny := x + dx, y + dy;
          if nx >= 0 && nx < cols && ny >= 0 && ny < rows {
            if cells[ny, nx].isMine {
              count := count + 1;
            }
          }
          dx := dx + 1;
          k := k + 1;
        }
        dy := dy + 1;
      }
    }

    /** `checkSurroundFlags`: whether the flags in the window around (x, y) number
        exactly the cell's `neighbor` value. */
    method CheckSurroundFlags(x: int, y: int) returns (matched: bool)
      requires FlagsLaid() && 0 <= x < cols && 0 <= y < rows
      ensures matched == FlagsMatch(MineLayout(), State(), Pos(x, y))
    {
      ghost var L := MineLayout();
      ghost var F := FlagCells;
      var count := 0;
      ghost var k := 0;
      var dy := -1;
      while dy <= 1
        invariant -1 <= dy <= 2 && k == 3 * (dy + 1)
        invariant count == L.CountFirst(Around(Pos(x, y)), F, k)
      {
        var dx := -1;
        while dx <= 1
          invariant -1 <= dx <= 2 && k == 3 * (dy + 1) + (dx + 1)
          invariant count == L.CountFirst(Around(Pos(x, y)), F, k)
        {
          CountStep(L, Pos(x, y), F, dx, dy);
          var nx, ny := x + dx, y + dy;
          if nx >= 0 && nx < cols && ny >= 0 && ny < rows {
            if cells[ny, nx].isFlagged {
              count := count + 1;
            }
          }
          dx := dx + 1;
          k := k + 1;
        }
        dy := dy + 1;
      }
      assert cells[y, x].neighbor == L.Neighbor(Pos(x, y));
      matched := count == cells[y, x].neighbor;
    }

    // The four single-cell writes below keep the grid mirroring the abstract
    // state; their callers keep that state consistent with the lemmas of `Rules`.

    /** Open the cell (x, y) and count it. */
    method OpenSafe(x: int, y: int)
      requires Shaped() && 0 <= x < cols && 0 <= y < rows
      modifies this`open, this`OpenCells, cells
      ensures Shaped()
      ensures State() == old(State()).(openCells := old(OpenCells) + {Pos(x, y)}, open := old(open) + 1)
    {
      cells[y, x] := cells[y, x].(isOpen := true);
      OpenCells := OpenCells + {Pos(x, y)};
      open := open + 1;
      forall yy, xx | 0 <= yy < rows && 0 <= xx < cols
        ensures cells[yy, xx] == CellAt(Pos(xx, yy))
      {
        if yy != y || xx != x {
          assert cells[yy, xx] == old(cells[yy, xx]);
        }
      }
    }

    /** Open the cell (x, y), a mine: the game is lost. */
    method Explode(x: int, y: int)
      requires Shaped() && 0 <= x < cols && 0 <= y < rows
      modifies this`isGameOver, this`isWin, this`OpenCells, cells
      ensures Shaped()
      ensures State() == Exploded(old(State()), Pos(x, y))
    {
      cells[y, x] := cells[y, x].(isOpen := true);
      OpenCells := OpenCells + {Pos(x, y)};
      isGameOver, isWin := true, false;
      forall yy, xx | 0 <= yy < rows && 0 <= xx < cols
        ensures cells[yy, xx] == CellAt(Pos(xx, yy))
      {
        if yy != y || xx != x {
          assert cells[yy, xx] == old(cells[yy, xx]);
        }
      }
    }

    /** Mark the cell (x, y) focused. */
    method Focus(x: int, y: int)
      requires Shaped() && 0 <= x < cols && 0 <= y < rows
      modifies this`FocusCells, cells
      ensures Shaped()
      ensures State() == old(State()).(focusCells := old(FocusCells) + {Pos(x, y)})
    {
      cells[y, x] := cells[y, x].(isFocused := true);
      FocusCells := FocusCells + {Pos(x, y)};
      forall yy, xx | 0 <= yy < rows && 0 <= xx < cols
        ensures cells[yy, xx] == CellAt(Pos(xx, yy))
      {
        if yy != y || xx != x {
          assert cells[yy, xx] == old(cells[yy, xx]);
        }
      }
    }

    /** Flip the flag of the cell (x, y) and move `flags` the other way. */
    method ToggleFlag(x: int, y: int)
      requires Shaped() && 0 <= x < cols && 0 <= y < rows
      modifies this`flags, this`FlagCells, cells
      ensures Shaped()
      ensures State() == Toggled(old(State()), Pos(x, y))
    {
      var c := cells[y, x];
      assert c == CellAt(Pos(x, y));
      cells[y, x] := c.(isFlagged := !c.isFlagged);
      if !c.isFlagged {
        flags := flags - 1;
        FlagCells := FlagCells + {Pos(x, y)};
      } else {
        flags := flags + 1;
        FlagCells := FlagCells - {Pos(x, y)};
      }
      forall yy, xx | 0 <= yy < rows && 0 <= xx < cols
        ensures cells[yy, xx] == CellAt(Pos(xx, yy))
      {
        if yy != y || xx != x {
          assert cells[yy, xx] == old(cells[yy, xx]);
        }
      }
    }

    /** The win test at the end of a frame's cell action. */
    method CheckWin()
      requires Valid()
      modifies this`isGameOver, this`isWin
      ensures Valid()
      ensures State() == WinChecked(MineLayout(), old(State()))
    {
      WinCheckedConsistent(MineLayout(), State());
      if !isGameOver && open == rows * cols - mines {
        isGameOver, isWin := true, true;
      }
    }

    /** `openAndExpand`: open (x, y) when it is on the grid, closed, unflagged and
        safe, and when it has no mine around it continue from each of its eight
        neighbours. The recursion ends because every call opens a cell, so the set
        of cells still openable shrinks. */
    method OpenAndExpand(x: int, y: int)
      requires Shaped()
      modifies this`open, this`OpenCells, cells
      ensures Shaped()
      ensures State() == Expanded(MineLayout(), old(State()), Pos(x, y))
      decreases |Free(MineLayout(), State())|, 0
    {
      ghost var L := MineLayout();
      ghost var s0 := State();
      ghost var F0 := Free(L, s0);
      ghost var p := Pos(x, y);
      if x < 0 || x >= cols || y < 0 || y >= rows {
        ExpandedNoop(L, s0, p);
        return;
      }
      var cell := cells[y, x];
      assert cell == CellAt(p);
      if cell.isOpen || cell.isFlagged || cell.isMine {
        ExpandedNoop(L, s0, p);
        return;
      }
      InCells(L, p);
      OpenSafe(x, y);
      ghost var b := Opened(s0, {p});
      assert State() == b;
      assert cell.neighbor == L.Neighbor(p);
      if cell.neighbor == 0 {
        ExpandedZero(L, s0, p);
        assert |Free(L, State())| < |F0|;
        FloodRing(x, y, b);
      } else {
        ExpandedNumbered(L, s0, p);
        assert State() == Expanded(L, s0, p);
      }
    }

    /** One step of the ring: continue from the neighbour at offset `(dx, dy)`. */
    method RingStep(x: int, y: int, dx: int, dy: int, ghost k: nat, ghost b: BoardState)
      requires -1 <= dx <= 1 && -1 <= dy <= 1 && (dx != 0 || dy != 0) && k == 3 * (dy + 1) + (dx + 1)
      requires Shaped() && Pos(x, y) in b.openCells
      requires State() == Flooded(MineLayout(), b, Around(Pos(x, y))[..k])
      modifies this`open, this`OpenCells, cells
      ensures Shaped()
      ensures State() == Flooded(MineLayout(), b, Around(Pos(x, y))[..k + 1])
      decreases |Free(MineLayout(), b)|, 1
    {
      FloodedFree(MineLayout(), b, Around(Pos(x, y))[..k]);
      FloodedNext(MineLayout(), b, x, y, dx, dy, k, State());
      OpenAndExpand(x + dx, y + dy);
    }

    /** The tail of `openAndExpand` on a cell with no mine around it: continue
        from each of its eight neighbours, in row order. */
    method FloodRing(x: int, y: int, ghost b: BoardState)
      requires Shaped() && Pos(x, y) in b.openCells && State() == b
      modifies this`open, this`OpenCells, cells
      ensures Shaped()
      ensures State() == Flooded(MineLayout(), b, Around(Pos(x, y)))
      decreases |Free(MineLayout(), b)|, 3
    {
      ghost var ring := Around(Pos(x, y));
      ghost var k := 0;
      var dy := -1;
      while dy <= 1
        invariant -1 <= dy <= 2 && k == 3 * (dy + 1)
        invariant Shaped()
        invariant State() == Flooded(MineLayout(), b, ring[..k])
      {
        FloodRow(x, y, dy, k, k + 3, b);
        dy := dy + 1;
        k := k + 3;
      }
      assert k == |ring| && ring[..k] == ring;
    }

    /** One row `dy` of the ring: continue from its three window cells, the
        centre excepted, left to right. */
    method FloodRow(x: int, y: int, dy: int, ghost k: nat, ghost next: nat, ghost b: BoardState)
      requires -1 <= dy <= 1 && k == 3 * (dy + 1) && next == k + 3
      requires Shaped() && Pos(x, y) in b.openCells
      requires State() == Flooded(MineLayout(), b, Around(Pos(x, y))[..k])
      modifies this`open, this`OpenCells, cells
      ensures Shaped()
      ensures State() == Flooded(MineLayout(), b, Around(Pos(x, y))[..next])
      decreases |Free(MineLayout(), b)|, 2
    {
      ghost var j := k;
      var dx := -1;
      while dx <= 1
        invariant -1 <= dx <= 2 && j == k + (dx + 1)
        invariant Shaped()
        invariant State() == Flooded(MineLayout(), b, Around(Pos(x, y))[..j])
      {
        if dx == 0 && dy == 0 {
          FloodedCentre(MineLayout(), b, x, y, j, State());
        } else {
          RingStep(x, y, dx, dy, j, b);
        }
        dx := dx + 1;
        j := j + 1;
      }
      assert j == next;
    }

    /** One position of a matched chord's loop: the window cell at offset
        (dx, dy) is opened to lose the game when it is a closed unflagged mine
        (`hit`), and flood-filled otherwise. */
    method ChordStep(x: int, y: int, dx: int, dy: int, ghost hit: bool) returns (exploded: bool)
      requires Shaped() && hit == Hit(MineLayout(), State(), Pos(x + dx, y + dy))
      modifies this`open, this`isGameOver, this`isWin, this`OpenCells, cells
      ensures Shaped() && exploded == hit
      ensures hit ==> State() == Exploded(old(State()), Pos(x + dx, y + dy))
      ensures !hit ==> State() == Expanded(MineLayout(), old(State()), Pos(x + dx, y + dy))
    {
      ghost var q := Pos(x + dx, y + dy);
      InCells(MineLayout(), q);
      var nx, ny := x + dx, y + dy;
      if nx >= 0 && nx < cols && ny >= 0 && ny < rows {
        var c := cells[ny, nx];
        assert c == CellAt(q);
        if !c.isFlagged && !c.isOpen {
          if c.isMine {
            Explode(nx, ny);
            return true;
          }
          OpenAndExpand(nx, ny);
          return false;
        }
      }
      ExpandedNoop(MineLayout(), State(), q);
      return false;
    }

    /** One position of a mismatched chord's loop: the window cell at offset
        (dx, dy) is focused when it is on the grid, closed and unflagged. */
    method FocusStep(x: int, y: int, dx: int, dy: int, ghost k: nat, ghost s0: BoardState)
      requires -1 <= dx <= 1 && -1 <= dy <= 1 && k == 3 * (dy + 1) + (dx + 1)
      requires Shaped() && State() == s0.(focusCells := s0.focusCells + Marked(MineLayout(), s0, Around(Pos(x, y)), k))
      modifies this`FocusCells, cells
      ensures Shaped()
      ensures State() == s0.(focusCells := s0.focusCells + Marked(MineLayout(), s0, Around(Pos(x, y)), k + 1))
    {
      AroundAt(x, y, dx, dy, k);
      MarkedStep(MineLayout(), s0, Around(Pos(x, y)), k);
      var nx, ny := x + dx, y + dy;
      if nx >= 0 && nx < cols && ny >= 0 && ny < rows {
        var c := cells[ny, nx];
        assert c == CellAt(Pos(nx, ny));
        if !c.isOpen && !c.isFlagged {
          Focus(nx, ny);
        }
      }
    }

    /** `expandAround`, the chord on an open cell: when the flags around it match
        its number, flood-fill its neighbours in window order, stopping at (and
        opening) the first closed unflagged mine; otherwise mark its closed
        unflagged neighbours focused. */
    method ExpandAround(x: int, y: int)
      requires Shaped() && 0 <= x < cols && 0 <= y < rows
      modifies this`open, this`isGameOver, this`isWin, this`OpenCells, this`FocusCells, cells
      ensures Shaped()
      ensures State() == Chorded(MineLayout(), old(State()), Pos(x, y))
    {
      ghost var L := MineLayout();
      ghost var s0 := State();
      ghost var p := Pos(x, y);
      ValidFlagsLaid();
      var matched := CheckSurroundFlags(x, y);
      if matched {
        ghost var k := 0;
        var dy := -1;
        while dy <= 1
          invariant -1 <= dy <= 2 && k == 3 * (dy + 1) && k <= FirstHit(L, s0, Around(p))
          invariant Shaped() && State() == Flooded(L, s0, Around(p)[..k])
        {
          var dx := -1;
          while dx <= 1
            invariant -1 <= dx <= 2 && k == 3 * (dy + 1) + (dx + 1) && k <= FirstHit(L, s0, Around(p))
            invariant Shaped() && State() == Flooded(L, s0, Around(p)[..k])
          {
            AroundAt(x, y, dx, dy, k);
            ghost var hit := Hit(L, s0, Around(p)[k]);
            assert hit == Hit(L, State(), Pos(x + dx, y + dy)) by {
              FloodedHit(L, s0, Around(p)[..k], Around(p)[k]);
            }
            assert Flooded(L, s0, Around(p)[..k + 1]) == Expanded(L, State(), Pos(x + dx, y + dy)) by {
              FloodedNext(L, s0, x, y, dx, dy, k, State());
            }
            var exploded := ChordStep(x, y, dx, dy, hit);
            if exploded {
              ChordedAt(L, s0, p, k);
              return;
            }
            dx := dx + 1;
            k := k + 1;
          }
          dy := dy + 1;
        }
        ChordedAt(L, s0, p, k);
      } else {
        ghost var k := 0;
        var dy := -1;
        while dy <= 1
          invariant -1 <= dy <= 2 && k == 3 * (dy + 1)
          invariant Shaped() && State() == s0.(focusCells := s0.focusCells + Marked(L, s0, Around(p), k))
        {
          var dx := -1;
          while dx <= 1
            invariant -1 <= dx <= 2 && k == 3 * (dy + 1) + (dx + 1)
            invariant Shaped() && State() == s0.(focusCells := s0.focusCells + Marked(L, s0, Around(p), k))
          {
            FocusStep(x, y, dx, dy, k, s0);
            dx := dx + 1;
            k := k + 1;
          }
          dy := dy + 1;
        }
      }
    }

    /** The cell-action part of `Game.Update` for the cell (cx, cy) under the
        pointer, given which buttons were freshly pressed this frame. */
    method ClickCell(cx: int, cy: int, left: bool, right: bool)
      requires Valid() && 0 <= cx < cols && 0 <= cy < rows
      modifies this`open, this`flags, this`isGameOver, this`isWin, this`OpenCells, this`FlagCells,
        this`FocusCells, cells
      ensures Valid()
      ensures State() == Pressed(MineLayout(), old(State()), Pos(cx, cy), left, right)
    {
      ghost var L := MineLayout();
      ghost var p := Pos(cx, cy);
      ghost var s0 := State();
      if !isGameOver {
        var cell := cells[cy, cx];
        assert cell == CellAt(p);
        if left && !cell.isFlagged {
          if cell.isMine {
            ExplodeConsistent(L, s0, p);
            Explode(cx, cy);
          } else if cell.isOpen {
            ChordedConsistent(L, s0, p);
            ExpandAround(cx, cy);
          } else {
            ExpandedConsistent(L, s0, p);
            OpenAndExpand(cx, cy);
          }
        }
        assert State() == if left then LeftPressed(L, s0, p) else s0;
        var c := cells[cy, cx];
        assert c == CellAt(p);
        if right && !c.isOpen {
          ToggledConsistent(L, State(), p);
          ToggleFlag(cx, cy);
        }
        CheckWin();
      }
    }
  }
}
