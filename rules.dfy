/** The board's game rules as functions on an abstract board state: what a flood
    fill, a chord, a flag toggle and one click do, and what stays true across them.
    The board's methods are proved to change their state exactly as these say. */
module Rules {
  import opened Geometry
  import opened Flood

  /** The mutable part of a board: which cells are open, flagged and focused,
      the `open` and `flags` counters, and the `isGameOver` / `isWin` flags. */
  datatype BoardState = BoardState(
    openCells: set<Pos>,
    flagCells: set<Pos>,
    focusCells: set<Pos>,
    open: int,
    flags: int,
    over: bool,
    win: bool)

  /** The state `NewBoard` leaves: nothing open or flagged, `flags == mines`. */
  function Initial(L: Layout): BoardState
  {
    BoardState({}, {}, {}, 0, L.mines, false, false)
  }

  /** The cells a flood fill may open: on the grid, closed, unflagged and safe. */
  function Free(L: Layout, s: BoardState): set<Pos>
  {
    L.Cells() - s.openCells - s.flagCells - L.mined
  }

  /** What every reachable board state satisfies: the cell sets lie on the grid,
      no cell is both open and flagged, `open` counts the open safe cells, `flags`
      is the mine count less the flags placed, a won game has no open mine, and a
      game is lost exactly when a mine is open. */
  predicate Consistent(L: Layout, s: BoardState)
  {
    L.WellFormed() &&
    s.openCells <= L.Cells() && s.flagCells <= L.Cells() && s.focusCells <= L.Cells() &&
    s.openCells * s.flagCells == {} &&
    s.open == |s.openCells - L.mined| &&
    s.flags == L.mines - |s.flagCells| &&
    (s.win ==> s.over && s.openCells * L.mined == {}) &&
    (s.over && !s.win <==> s.openCells * L.mined != {})
  }

  /** The state after the cells of `U` are opened and counted. */
  function Opened(s: BoardState, U: set<Pos>): BoardState
  {
    s.(openCells := s.openCells + U, open := s.open + |U|)
  }

  /** `openAndExpand(p)`: open the region a flood from `p` reaches and count it. */
  ghost function Expanded(L: Layout, s: BoardState, p: Pos): BoardState
  {
    Opened(s, Region(L, p, Free(L, s)))
  }

  /** `q` is a closed, unflagged mine on the grid: a chord that reaches it loses. */
  predicate Hit(L: Layout, s: BoardState, q: Pos)
  {
    L.InRange(q) && q in L.mined && q !in s.openCells && q !in s.flagCells
  }

  /** The index of the first closed, unflagged mine of `ring`, or `|ring|` if none. */
  function FirstHit(L: Layout, s: BoardState, ring: seq<Pos>): (h: nat)
    ensures h <= |ring|
    ensures h < |ring| ==> Hit(L, s, ring[h])
    ensures forall j :: 0 <= j < h ==> !Hit(L, s, ring[j])
  {
    if |ring| == 0 then 0
    else if Hit(L, s, ring[0]) then 0
    else 1 + FirstHit(L, s, ring[1..])
  }

  /** The in-range, closed, unflagged cells among `ring[..n]`. */
  function Marked(L: Layout, s: BoardState, ring: seq<Pos>, n: nat): set<Pos>
    requires n <= |ring|
  {
    set k | 0 <= k < n && L.InRange(ring[k]) && ring[k] !in s.openCells && ring[k] !in s.flagCells :: ring[k]
  }

  /** One more window position examined by the focus loop. */
  lemma MarkedStep(L: Layout, s: BoardState, ring: seq<Pos>, n: nat)
    requires n < |ring|
    ensures Marked(L, s, ring, n + 1) ==
      Marked(L, s, ring, n) +
      (if L.InRange(ring[n]) && ring[n] !in s.openCells && ring[n] !in s.flagCells then {ring[n]} else {})
  {
  }

  /** The flag count `checkSurroundFlags(p)` compares with the cell's `neighbor`. */
  predicate FlagsMatch(L: Layout, s: BoardState, p: Pos)
  {
    L.CountIn(p, s.flagCells) == L.Neighbor(p)
  }

  /** A closed mine opened: the game is lost (the `open` counter does not move). */
  function Exploded(s: BoardState, p: Pos): BoardState
  {
    s.(openCells := s.openCells + {p}, over := true, win := false)
  }

  /** `expandAround(p)`. When the flags around `p` match its number, the window is
      walked in loop order: the neighbours before the first closed unflagged mine
      are flood-filled one after the other, and that mine, if there is one, is
      opened and loses the game. Otherwise the closed unflagged neighbours are
      marked focused. */
  ghost function Chorded(L: Layout, s: BoardState, p: Pos): BoardState
  {
    var ring := Around(p);
    if FlagsMatch(L, s, p) then
      var h := FirstHit(L, s, ring);
      var s1 := Opened(s, RegionUnion(L, ring[..h], Free(L, s)));
      if h < |ring| then Exploded(s1, ring[h]) else s1
    else
      s.(focusCells := s.focusCells + Marked(L, s, ring, 9))
  }

  /** A right press on a closed cell: flip its flag and move `flags` by -1 or +1. */
  function Toggled(s: BoardState, p: Pos): BoardState
  {
    if p in s.flagCells then s.(flagCells := s.flagCells - {p}, flags := s.flags + 1)
    else s.(flagCells := s.flagCells + {p}, flags := s.flags - 1)
  }

  /** A left press on cell `p` of a game in progress: nothing on a flagged cell;
      otherwise a mine is opened and loses, an open cell is chorded and a closed
      one flood-filled. */
  ghost function LeftPressed(L: Layout, s: BoardState, p: Pos): BoardState
  {
    if p in s.flagCells then s
    else if p in L.mined then Exploded(s, p)
    else if p in s.openCells then Chorded(L, s, p)
    else Expanded(L, s, p)
  }

  /** The end-of-frame win test: a game not yet over whose `open` count has
      reached the number of safe cells is won. */
  function WinChecked(L: Layout, s: BoardState): BoardState
  {
    if !s.over && s.open == L.rows * L.cols - L.mines then s.(over := true, win := true) else s
  }

  /** One frame of `Game.Update` with the pointer over cell `p` and the given press
      edges: nothing once the game is over; otherwise the left press, then a right
      press toggles the flag of a cell that is still closed, then the win test. */
  ghost function Pressed(L: Layout, s: BoardState, p: Pos, left: bool, right: bool): BoardState
  {
    if s.over then s else WinChecked(L, Acted(L, s, p, left, right))
  }

  /** The cell action of a frame before the win test: the left press, then a
      right press toggles the flag of a cell that is still closed. */
  ghost function Acted(L: Layout, s: BoardState, p: Pos, left: bool, right: bool): BoardState
  {
    var s1 := if left then LeftPressed(L, s, p) else s;
    if right && p !in s1.openCells then Toggled(s1, p) else s1
  }

  // ---------------------------------------------------------------------------
  // Construction

  lemma InitialConsistent(L: Layout)
    requires L.WellFormed()
    ensures Consistent(L, Initial(L))
  {
  }

  /** `open` never exceeds the number of safe cells, and reaches it exactly when
      every safe cell is open. */
  lemma OpenBound(L: Layout, s: BoardState)
    requires Consistent(L, s)
    ensures s.open <= L.rows * L.cols - L.mines
    ensures s.open == L.rows * L.cols - L.mines <==> L.Cells() - L.mined <= s.openCells
  {
    var safe := L.Cells() - L.mined;
    var got := s.openCells - L.mined;
    CellsCard(L);
    assert L.mined <= L.Cells() by {
      forall q | q in L.mined
        ensures q in L.Cells()
      {
        InCells(L, q);
      }
    }
    DiffCard(L.Cells(), L.mined);
    assert got <= safe;
    SubsetCard(got, safe);
    if |got| == |safe| {
      SubsetFull(safe, got);
    }
    if safe <= s.openCells {
      assert got == safe;
    }
  }

  lemma DiffCard<T>(A: set<T>, B: set<T>)
    requires B <= A
    ensures |A - B| == |A| - |B|
  {
    assert A == (A - B) + B;
    assert (A - B) * B == {};
  }

  /** A subset as large as its superset is all of it. */
  lemma SubsetFull<T>(A: set<T>, B: set<T>)
    requires B <= A && |B| == |A|
    ensures A <= B
  {
    DiffCard(A, B);
    assert A - B == {};
  }

  // ---------------------------------------------------------------------------
  // Flood fill

  /** On a cell a flood may not open (off the grid, open, flagged or a mine)
      `openAndExpand` changes nothing. */
  lemma ExpandedNoop(L: Layout, s: BoardState, p: Pos)
    requires !L.InRange(p) || p in s.openCells || p in s.flagCells || p in L.mined
    ensures Expanded(L, s, p) == s
  {
    InCells(L, p);
    RegionNotFree(L, p, Free(L, s));
    assert s.openCells + {} == s.openCells;
  }

  /** A flood only opens closed, unflagged, safe cells, changes no flag and no
      game status, grows `open` by exactly the number of cells it opens, and
      opens its start when it may. */
  lemma ExpandedOpens(L: Layout, s: BoardState, p: Pos)
    ensures var r := Expanded(L, s, p);
      s.openCells <= r.openCells && r.openCells - s.openCells <= Free(L, s) &&
      r.flagCells == s.flagCells && r.focusCells == s.focusCells &&
      r.flags == s.flags && r.over == s.over && r.win == s.win &&
      r.open == s.open + |r.openCells - s.openCells| &&
      (p in Free(L, s) ==> p in r.openCells)
  {
    var R := Region(L, p, Free(L, s));
    assert (s.openCells + R) - s.openCells == R;
    if p in Free(L, s) {
      RegionHasStart(L, p, Free(L, s));
    }
  }

  /** Opening cells a flood may open leaves exactly the others openable. */
  lemma OpenedFree(L: Layout, s: BoardState, U: set<Pos>)
    requires U <= Free(L, s)
    ensures Free(L, Opened(s, U)) == Free(L, s) - U
  {
  }

  /** Opening two disjoint batches of cells one after the other is opening both at once. */
  lemma OpenedTwice(s: BoardState, U: set<Pos>, V: set<Pos>)
    requires U !! V
    ensures Opened(Opened(s, U), V) == Opened(s, U + V)
  {
    assert s.openCells + U + V == s.openCells + (U + V);
  }

  /** The state after floods started at each of `starts` in turn, each one on
      the state the previous ones left, as the board's loops run them. */
  ghost function Flooded(L: Layout, s: BoardState, starts: seq<Pos>): BoardState
  {
    if |starts| == 0 then s
    else Expanded(L, Flooded(L, s, starts[..|starts| - 1]), starts[|starts| - 1])
  }

  lemma FloodedStep(L: Layout, s: BoardState, starts: seq<Pos>, k: nat)
    requires k < |starts|
    ensures Flooded(L, s, starts[..k + 1]) == Expanded(L, Flooded(L, s, starts[..k]), starts[k])
  {
    assert starts[..k + 1][..k] == starts[..k];
  }

  /** One step of a loop of floods started at each of `starts` in turn: flooding
      from `starts[k]` the state the first `k` floods left gives the state of the
      first `k + 1`. */
  lemma FloodStep(L: Layout, s: BoardState, starts: seq<Pos>, k: nat)
    requires k < |starts|
    ensures var U := RegionUnion(L, starts[..k], Free(L, s));
      Free(L, Opened(s, U)) == Free(L, s) - U &&
      Expanded(L, Opened(s, U), starts[k]) == Opened(s, RegionUnion(L, starts[..k + 1], Free(L, s)))
  {
    var F := Free(L, s);
    var U := RegionUnion(L, starts[..k], F);
    RegionUnionStep(L, starts, k, F);
    OpenedFree(L, s, U);
    OpenedTwice(s, U, Region(L, starts[k], F - U));
  }

  /** Floods run in turn, each on the state the previous left, open what the
      regions of `RegionUnion` add up to, all measured against the first state. */
  lemma {:induction false} FloodedUnion(L: Layout, s: BoardState, starts: seq<Pos>)
    ensures Flooded(L, s, starts) == Opened(s, RegionUnion(L, starts, Free(L, s)))
  {
    if |starts| == 0 {
      assert s.openCells + {} == s.openCells;
    } else {
      var k := |starts| - 1;
      FloodedUnion(L, s, starts[..k]);
      FloodStep(L, s, starts, k);
      assert starts[..k + 1] == starts;
    }
  }

  /** Floods in turn open only cells that were openable, touch nothing else, and
      leave no new cell openable. */
  lemma FloodedShape(L: Layout, s: BoardState, starts: seq<Pos>)
    ensures var r := Flooded(L, s, starts);
      s.openCells <= r.openCells && r.openCells - s.openCells <= Free(L, s) &&
      r.flagCells == s.flagCells && r.focusCells == s.focusCells &&
      r.flags == s.flags && r.over == s.over && r.win == s.win &&
      Free(L, r) <= Free(L, s)
  {
    var U := RegionUnion(L, starts, Free(L, s));
    FloodedUnion(L, s, starts);
    OpenedFree(L, s, U);
    assert (s.openCells + U) - s.openCells <= U;
  }

  /** Floods only ever close free cells, so no more cells are left free. */
  lemma FloodedFree(L: Layout, b: BoardState, starts: seq<Pos>)
    ensures |Free(L, Flooded(L, b, starts))| <= |Free(L, b)|
  {
    FloodedShape(L, b, starts);
    SubsetCard(Free(L, Flooded(L, b, starts)), Free(L, b));
  }

  /** Whether a cell is a closed unflagged mine does not change while floods run:
      they open only cells without a mine and touch no flag. */
  lemma FloodedHit(L: Layout, s: BoardState, starts: seq<Pos>, q: Pos)
    ensures Hit(L, Flooded(L, s, starts), q) == Hit(L, s, q)
  {
    FloodedShape(L, s, starts);
  }

  /** One more step of the flood out of (x, y): the `k`-th cell of its window,
      at offset (dx, dy), is flooded next, from a state no freer than `b`. */
  lemma FloodedNext(L: Layout, b: BoardState, x: int, y: int, dx: int, dy: int, k: nat, s: BoardState)
    requires -1 <= dx <= 1 && -1 <= dy <= 1 && k == 3 * (dy + 1) + (dx + 1)
    requires s == Flooded(L, b, Around(Pos(x, y))[..k])
    ensures Flooded(L, b, Around(Pos(x, y))[..k + 1]) == Expanded(L, s, Pos(x + dx, y + dy))
  {
    AroundAt(x, y, dx, dy, k);
    FloodedStep(L, b, Around(Pos(x, y)), k);
  }

  /** The centre of the window is skipped: it is open already, so the state is kept. */
  lemma FloodedCentre(L: Layout, b: BoardState, x: int, y: int, k: nat, s: BoardState)
    requires k == 4 && Pos(x, y) in b.openCells && s == Flooded(L, b, Around(Pos(x, y))[..k])
    ensures Flooded(L, b, Around(Pos(x, y))[..k + 1]) == s
  {
    AroundAt(x, y, 0, 0, k);
    FloodedStep(L, b, Around(Pos(x, y)), k);
    assert Pos(x, y) !in Free(L, s) by {
      FloodedShape(L, b, Around(Pos(x, y))[..k]);
    }
    InCells(L, Pos(x, y));
    ExpandedNoop(L, s, Pos(x, y));
  }

  /** A flood from a zero cell opens that cell, then floods from each position of
      its window in loop order. */
  lemma ExpandedZero(L: Layout, s: BoardState, p: Pos)
    requires p in Free(L, s) && L.Neighbor(p) == 0
    ensures var b := Opened(s, {p});
      Free(L, b) == Free(L, s) - {p} &&
      Expanded(L, s, p) == Flooded(L, b, Around(p))
  {
    var F := Free(L, s);
    var b := Opened(s, {p});
    forall q | q in F
      ensures L.InRange(q)
    {
      InCells(L, q);
    }
    OpenedFree(L, s, {p});
    RegionDecompose(L, p, F);
    OpenedTwice(s, {p}, RegionUnion(L, Around(p), F - {p}));
    FloodedUnion(L, b, Around(p));
  }

  /** A flood from a numbered cell opens that cell alone. */
  lemma ExpandedNumbered(L: Layout, s: BoardState, p: Pos)
    requires p in Free(L, s) && L.Neighbor(p) != 0
    ensures Expanded(L, s, p) == s.(openCells := s.openCells + {p}, open := s.open + 1)
  {
    RegionSingle(L, p, Free(L, s));
  }

  /** Every cell a flood opens with `neighbor == 0` ends with all its in-range,
      unflagged, safe neighbours open. */
  lemma ExpandedClosed(L: Layout, s: BoardState, p: Pos)
    ensures var r := Expanded(L, s, p);
      forall c, q ::
        (c in r.openCells - s.openCells && L.Neighbor(c) == 0 && L.Adjacent(c, q) &&
         q !in s.flagCells && q !in L.mined) ==> q in r.openCells
  {
    var F := Free(L, s);
    var R := Region(L, p, F);
    RegionClosed(L, p, F);
    forall c, q | c in R && L.Neighbor(c) == 0 && L.Adjacent(c, q) && q !in s.flagCells && q !in L.mined
      ensures q in s.openCells + R
    {
      InCells(L, q);
      if q !in s.openCells {
        assert q in F;
      }
    }
  }

  /** Adding cells `U` that are neither in `o` nor in `M` to `o` adds `|U|` to
      the cells of `o` outside `M` and none to those inside. */
  lemma AddOutside<T>(o: set<T>, U: set<T>, M: set<T>)
    requires U * M == {} && o * U == {}
    ensures |(o + U) - M| == |o - M| + |U|
    ensures (o + U) * M == o * M
  {
    forall x | x in U
      ensures x !in M && x !in o
    {
      assert x !in U * M && x !in o * U;
    }
    assert (o + U) - M == (o - M) + U;
    assert (o - M) * U == {};
  }

  /** Adding a member `p` of `M` to `o` adds nothing outside `M`. */
  lemma AddInside<T>(o: set<T>, p: T, M: set<T>)
    requires p in M
    ensures (o + {p}) - M == o - M
    ensures (o + {p}) * M == o * M + {p}
  {
  }

  /** Opening and counting cells a flood may open keeps the state consistent. */
  lemma OpenedConsistent(L: Layout, s: BoardState, U: set<Pos>)
    requires Consistent(L, s) && U <= Free(L, s)
    ensures Consistent(L, Opened(s, U))
  {
    AddOutside(s.openCells, U, L.mined);
  }

  lemma ExpandedConsistent(L: Layout, s: BoardState, p: Pos)
    requires Consistent(L, s)
    ensures Consistent(L, Expanded(L, s, p))
  {
    OpenedConsistent(L, s, Region(L, p, Free(L, s)));
  }

  // ---------------------------------------------------------------------------
  // Chord

  /** The chord's outcome in the terms of its loop: the floods of the window
      positions before the first hit `k`, then that mine opened if there is one. */
  lemma ChordedAt(L: Layout, s: BoardState, p: Pos, k: nat)
    requires FlagsMatch(L, s, p) && k == FirstHit(L, s, Around(p))
    ensures k < 9 ==> Chorded(L, s, p) == Exploded(Flooded(L, s, Around(p)[..k]), Around(p)[k])
    ensures k == 9 ==> Chorded(L, s, p) == Flooded(L, s, Around(p)[..k])
  {
    FloodedUnion(L, s, Around(p)[..k]);
  }

  /** When the flags do not match, a chord opens nothing, touches no flag, counter
      or status, and focuses exactly the closed, unflagged cells of the window. */
  lemma ChordedMismatch(L: Layout, s: BoardState, p: Pos)
    requires !FlagsMatch(L, s, p)
    ensures var r := Chorded(L, s, p);
      r.openCells == s.openCells && r.flagCells == s.flagCells && r.open == s.open &&
      r.flags == s.flags && r.over == s.over && r.win == s.win &&
      r.focusCells == s.focusCells + (set q | q in L.Cells() && L.Adjacent(p, q) && q !in s.openCells && q !in s.flagCells)
  {
    var ring := Around(p);
    var W := set q | q in L.Cells() && L.Adjacent(p, q) && q !in s.openCells && q !in s.flagCells;
    forall q | q in W
      ensures q in Marked(L, s, ring, 9)
    {
      AdjacentInAround(L, p, q);
    }
    forall k | 0 <= k < 9 && L.InRange(ring[k]) && ring[k] !in s.openCells && ring[k] !in s.flagCells
      ensures ring[k] in W
    {
      AdjacentInAround(L, p, ring[k]);
      InCells(L, ring[k]);
    }
  }

  /** A matching chord that meets a closed, unflagged mine: the neighbours before
      it are all open or flagged, that mine and no other is newly opened, and the
      game is lost. */
  lemma ChordedHit(L: Layout, s: BoardState, p: Pos)
    requires Consistent(L, s) && FlagsMatch(L, s, p)
    requires FirstHit(L, s, Around(p)) < 9
    ensures var r := Chorded(L, s, p); var ring := Around(p); var h := FirstHit(L, s, ring);
      r.over && !r.win && ring[h] in r.openCells &&
      r.openCells * L.mined == s.openCells * L.mined + {ring[h]} &&
      r.flagCells == s.flagCells && r.flags == s.flags &&
      forall j :: 0 <= j < h && L.InRange(ring[j]) ==> ring[j] in r.openCells || ring[j] in s.flagCells
  {
    var ring := Around(p);
    var h := FirstHit(L, s, ring);
    var U := RegionUnion(L, ring[..h], Free(L, s));
    assert Chorded(L, s, p) == Exploded(Opened(s, U), ring[h]);
    ChordPrefixSettled(L, s, ring, h);
    AddOutside(s.openCells, U, L.mined);
    AddInside(s.openCells + U, ring[h], L.mined);
  }

  /** A matching chord that meets no closed, unflagged mine: every in-range
      neighbour ends open or flagged, no mine is opened and the status stays. */
  lemma ChordedClear(L: Layout, s: BoardState, p: Pos)
    requires Consistent(L, s) && FlagsMatch(L, s, p)
    requires FirstHit(L, s, Around(p)) == 9
    ensures var r := Chorded(L, s, p);
      r.over == s.over && r.win == s.win &&
      r.openCells * L.mined == s.openCells * L.mined &&
      r.flagCells == s.flagCells && r.flags == s.flags &&
      forall q :: L.Adjacent(p, q) ==> q in r.openCells || q in s.flagCells
  {
    var ring := Around(p);
    ChordPrefixSettled(L, s, ring, 9);
    var U := RegionUnion(L, ring[..9], Free(L, s));
    assert (s.openCells + U) * L.mined == s.openCells * L.mined;
    forall q | L.Adjacent(p, q)
      ensures q in s.openCells + U || q in s.flagCells
    {
      AdjacentInAround(L, p, q);
    }
  }

  /** Flooding `ring[..h]` in turn leaves each in-range one of them open or flagged,
      as long as none of them is a closed, unflagged mine. */
  lemma ChordPrefixSettled(L: Layout, s: BoardState, ring: seq<Pos>, h: nat)
    requires h <= |ring|
    requires forall j :: 0 <= j < h ==> !Hit(L, s, ring[j])
    ensures forall j :: 0 <= j < h && L.InRange(ring[j]) ==>
      ring[j] in s.openCells + RegionUnion(L, ring[..h], Free(L, s)) || ring[j] in s.flagCells
  {
    var F := Free(L, s);
    forall j | 0 <= j < h && L.InRange(ring[j]) && ring[j] !in s.openCells && ring[j] !in s.flagCells
      ensures ring[j] in RegionUnion(L, ring[..h], F)
    {
      InCells(L, ring[j]);
      assert !Hit(L, s, ring[j]);
      RegionHasStart(L, ring[j], F);
      assert ring[..h][j] == ring[j];
      RegionUnionHas(L, ring[..h], F, j);
    }
  }

  lemma ChordedConsistent(L: Layout, s: BoardState, p: Pos)
    requires Consistent(L, s)
    ensures Consistent(L, Chorded(L, s, p))
  {
    if FlagsMatch(L, s, p) {
      ChordedMatchConsistent(L, s, p);
    } else {
      ChordedMismatchConsistent(L, s, p);
    }
  }

  lemma ChordedMatchConsistent(L: Layout, s: BoardState, p: Pos)
    requires Consistent(L, s) && FlagsMatch(L, s, p)
    ensures Consistent(L, Chorded(L, s, p))
  {
    var ring := Around(p);
    var h := FirstHit(L, s, ring);
    var s1 := Opened(s, RegionUnion(L, ring[..h], Free(L, s)));
    OpenedConsistent(L, s, RegionUnion(L, ring[..h], Free(L, s)));
    if h < |ring| {
      ExplodeConsistent(L, s1, ring[h]);
    }
  }

  lemma ChordedMismatchConsistent(L: Layout, s: BoardState, p: Pos)
    requires Consistent(L, s) && !FlagsMatch(L, s, p)
    ensures Consistent(L, Chorded(L, s, p))
  {
    var ring := Around(p);
    forall k | 0 <= k < 9 && L.InRange(ring[k])
      ensures ring[k] in L.Cells()
    {
      InCells(L, ring[k]);
    }
  }

  /** A chord never closes a cell and never lowers `open`. */
  lemma ChordedOpens(L: Layout, s: BoardState, p: Pos)
    ensures var r := Chorded(L, s, p);
      s.openCells <= r.openCells && s.open <= r.open
  {
  }

  // ---------------------------------------------------------------------------
  // Flags

  /** Toggling the same flag twice restores both the flag and the counter. */
  lemma ToggledTwice(s: BoardState, p: Pos)
    ensures Toggled(Toggled(s, p), p) == s
  {
    if p in s.flagCells {
      assert s.flagCells - {p} + {p} == s.flagCells;
    } else {
      assert s.flagCells + {p} - {p} == s.flagCells;
    }
  }

  /** Opening one cell a flood may open, and counting it, keeps the state consistent. */
  lemma OpenOneConsistent(L: Layout, s: BoardState, p: Pos)
    requires Consistent(L, s) && L.InRange(p)
    requires p !in s.openCells && p !in s.flagCells && p !in L.mined
    ensures Consistent(L, s.(openCells := s.openCells + {p}, open := s.open + 1))
  {
    InCells(L, p);
    AddOutside(s.openCells, {p}, L.mined);
  }

  /** Opening a closed, unflagged mine and losing keeps the state consistent. */
  lemma ExplodeConsistent(L: Layout, s: BoardState, p: Pos)
    requires Consistent(L, s) && L.InRange(p) && p in L.mined && p !in s.flagCells
    ensures Consistent(L, Exploded(s, p))
  {
    InCells(L, p);
    AddInside(s.openCells, p, L.mined);
  }

  /** Focusing a cell on the grid keeps the state consistent. */
  lemma FocusConsistent(L: Layout, s: BoardState, p: Pos)
    requires Consistent(L, s) && L.InRange(p)
    ensures Consistent(L, s.(focusCells := s.focusCells + {p}))
  {
    InCells(L, p);
  }

  lemma ToggledConsistent(L: Layout, s: BoardState, p: Pos)
    requires Consistent(L, s) && L.InRange(p) && p !in s.openCells
    ensures Consistent(L, Toggled(s, p))
  {
    InCells(L, p);
    if p in s.flagCells {
      assert |s.flagCells - {p}| == |s.flagCells| - 1;
    } else {
      assert |s.flagCells + {p}| == |s.flagCells| + 1;
    }
  }

  // ---------------------------------------------------------------------------
  // One click

  lemma LeftPressedConsistent(L: Layout, s: BoardState, p: Pos)
    requires Consistent(L, s) && L.InRange(p)
    ensures Consistent(L, LeftPressed(L, s, p))
  {
    if p in s.flagCells {
    } else if p in L.mined {
      ExplodeConsistent(L, s, p);
    } else if p in s.openCells {
      ChordedConsistent(L, s, p);
    } else {
      ExpandedConsistent(L, s, p);
    }
  }

  lemma WinCheckedConsistent(L: Layout, s: BoardState)
    requires Consistent(L, s)
    ensures Consistent(L, WinChecked(L, s))
  {
  }

  lemma ActedConsistent(L: Layout, s: BoardState, p: Pos, left: bool, right: bool)
    requires Consistent(L, s) && L.InRange(p)
    ensures Consistent(L, Acted(L, s, p, left, right))
  {
    var s1 := if left then LeftPressed(L, s, p) else s;
    assert Consistent(L, s1) by {
      if left {
        LeftPressedConsistent(L, s, p);
      }
    }
    if right && p !in s1.openCells {
      ToggledConsistent(L, s1, p);
    }
  }

  lemma PressedConsistent(L: Layout, s: BoardState, p: Pos, left: bool, right: bool)
    requires Consistent(L, s) && L.InRange(p)
    ensures Consistent(L, Pressed(L, s, p, left, right))
  {
    if !s.over {
      ActedConsistent(L, s, p, left, right);
      WinCheckedConsistent(L, Acted(L, s, p, left, right));
    }
  }

  /** Once the game is over a click changes nothing. */
  lemma PressedOver(L: Layout, s: BoardState, p: Pos, left: bool, right: bool)
    requires s.over
    ensures Pressed(L, s, p, left, right) == s
  {
  }

  /** A state a click can leave while the game goes on: not yet at the win count. */
  predicate Playing(L: Layout, s: BoardState)
  {
    !s.over && s.open != L.rows * L.cols - L.mines
  }

  /** A left press on a flagged cell changes nothing. */
  lemma PressedFlagged(L: Layout, s: BoardState, p: Pos)
    requires Playing(L, s) && p in s.flagCells
    ensures Pressed(L, s, p, true, false) == s
  {
  }

  /** Two right presses on a closed cell restore its flag and the flag counter. */
  lemma PressedToggleTwice(L: Layout, s: BoardState, p: Pos)
    requires Playing(L, s) && p !in s.openCells
    ensures Pressed(L, Pressed(L, s, p, false, true), p, false, true) == s
  {
    ToggledTwice(s, p);
  }

  /** A left press on a closed, unflagged mine opens it and no other cell, and
      loses the game. */
  lemma PressedMine(L: Layout, s: BoardState, p: Pos, right: bool)
    requires Consistent(L, s) && !s.over && p in L.mined && p !in s.flagCells
    ensures var r := Pressed(L, s, p, true, right);
      r.over && !r.win && r.openCells == s.openCells + {p} &&
      r.flagCells == s.flagCells && r.open == s.open
  {
  }

  /** A click never closes a cell, never lowers `open`, and `open` never passes
      the number of safe cells. */
  lemma PressedMonotone(L: Layout, s: BoardState, p: Pos, left: bool, right: bool)
    requires Consistent(L, s) && L.InRange(p)
    ensures var r := Pressed(L, s, p, left, right);
      s.openCells <= r.openCells && s.open <= r.open && r.open <= L.rows * L.cols - L.mines
  {
    if s.over {
      OpenBound(L, s);
    } else {
      var a := Acted(L, s, p, left, right);
      ActedConsistent(L, s, p, left, right);
      OpenBound(L, a);
      ActedOpens(L, s, p, left, right);
    }
  }

  /** The cell action never closes a cell and never lowers `open`. */
  lemma ActedOpens(L: Layout, s: BoardState, p: Pos, left: bool, right: bool)
    ensures var a := Acted(L, s, p, left, right);
      s.openCells <= a.openCells && s.open <= a.open
  {
    if left {
      LeftPressedOpens(L, s, p);
    }
  }

  /** A left press never closes a cell and never lowers `open`. */
  lemma LeftPressedOpens(L: Layout, s: BoardState, p: Pos)
    ensures var r := LeftPressed(L, s, p);
      s.openCells <= r.openCells && s.open <= r.open
  {
    if p !in s.flagCells && p !in L.mined {
      if p in s.openCells {
        ChordedOpens(L, s, p);
      } else {
        ExpandedOpens(L, s, p);
      }
    }
  }


  /** After a click on a game in progress the game is won exactly when no mine is
      open and every safe cell is. */
  lemma PressedWin(L: Layout, s: BoardState, p: Pos, left: bool, right: bool)
    requires Consistent(L, s) && L.InRange(p) && !s.over
    ensures var r := Pressed(L, s, p, left, right);
      r.win <==> r.openCells * L.mined == {} && L.Cells() - L.mined <= r.openCells
  {
    ActedConsistent(L, s, p, left, right);
    ActedNotWon(L, s, p, left, right);
    WinCheckedWin(L, Acted(L, s, p, left, right));
  }

  /** The cell action never wins the game: only the win test does. */
  lemma ActedNotWon(L: Layout, s: BoardState, p: Pos, left: bool, right: bool)
    requires !s.win
    ensures !Acted(L, s, p, left, right).win
  {
  }

  /** The win test on a game not yet won wins exactly when no mine is open and
      every safe cell is. */
  lemma WinCheckedWin(L: Layout, s: BoardState)
    requires Consistent(L, s) && !s.win
    ensures var r := WinChecked(L, s);
      r.win <==> r.openCells * L.mined == {} && L.Cells() - L.mined <= r.openCells
  {
    OpenBound(L, s);
  }
}
