/** Mine placement by rejection sampling, with the random stream as an input:
    `draws` are the positions `(r.Intn(cols), r.Intn(rows))` in the order drawn. */
module Placement {
  import opened Geometry

  function Elems(draws: seq<Pos>): set<Pos>
  {
    set i | 0 <= i < |draws| :: draws[i]
  }

  lemma ElemsSnoc(draws: seq<Pos>)
    requires |draws| > 0
    ensures Elems(draws) == Elems(draws[..|draws| - 1]) + {draws[|draws| - 1]}
  {
    var init := draws[..|draws| - 1];
    forall p | p in Elems(draws)
      ensures p in Elems(init) + {draws[|draws| - 1]}
    {
      var i :| 0 <= i < |draws| && draws[i] == p;
      if i < |init| {
        assert init[i] == p;
      }
    }
  }

  /** The mines placed once `draws` are consumed, with `n` to place: each draw
      becomes a mine if fewer than `n` are placed so far and it is not one yet. */
  function Placed(draws: seq<Pos>, n: int): set<Pos>
  {
    if |draws| == 0 then {}
    else
      var before := Placed(draws[..|draws| - 1], n);
      var d := draws[|draws| - 1];
      if |before| < n && d !in before then before + {d} else before
  }

  /** Sampling places only drawn positions and at most `n` of them; while it has
      placed fewer than `n`, every position drawn so far is a mine. */
  lemma {:induction false} PlacedShape(draws: seq<Pos>, n: int)
    requires 0 <= n
    ensures Placed(draws, n) <= Elems(draws)
    ensures |Placed(draws, n)| <= n
    ensures |Placed(draws, n)| < n ==> Placed(draws, n) == Elems(draws)
  {
    if |draws| > 0 {
      var init := draws[..|draws| - 1];
      PlacedShape(init, n);
      ElemsSnoc(draws);
    }
  }

  /** When the draws hold at least `n` distinct positions, exactly `n` mines are placed. */
  lemma PlacedCount(draws: seq<Pos>, n: int)
    requires 0 <= n <= |Elems(draws)|
    ensures |Placed(draws, n)| == n
  {
    PlacedShape(draws, n);
  }

  lemma ElemsWhole(draws: seq<Pos>)
    ensures Elems(draws[..|draws|]) == Elems(draws)
  {
    assert draws[..|draws|] == draws;
  }

  /** While fewer than `n` mines are placed and the draws hold `n` distinct
      positions, some draw is still unread. */
  lemma PlacedShort(draws: seq<Pos>, k: nat, n: int)
    requires k <= |draws| && 0 <= n <= |Elems(draws)| && |Placed(draws[..k], n)| < n
    ensures k < |draws|
  {
    PlacedShape(draws[..k], n);
    ElemsWhole(draws);
  }

  /** Once `n` mines are placed, later draws change nothing: the loop may stop. */
  lemma {:induction false} PlacedFull(draws: seq<Pos>, k: nat, n: int)
    requires k <= |draws| && 0 <= n && |Placed(draws[..k], n)| == n
    ensures Placed(draws, n) == Placed(draws[..k], n)
    decreases |draws| - k
  {
    if k < |draws| {
      assert draws[..k + 1][..k] == draws[..k];
      PlacedFull(draws, k + 1, n);
    } else {
      assert draws[..k] == draws;
    }
  }

  /** Every placed mine is on the grid when every draw is. */
  lemma PlacedInRange(L: Layout, draws: seq<Pos>, n: int)
    requires 0 <= n
    requires forall i :: 0 <= i < |draws| ==> L.InRange(draws[i])
    ensures forall p :: p in Placed(draws, n) ==> L.InRange(p)
  {
    PlacedShape(draws, n);
  }

  /** A random stream on which `NewBoard` finishes: a non-empty grid, a mine
      count that is not negative, every draw on the grid, and at least `mines`
      distinct positions among the draws. */
  predicate DrawsFit(rows: int, cols: int, mines: int, draws: seq<Pos>)
  {
    0 < rows && 0 < cols && 0 <= mines &&
    (forall i :: 0 <= i < |draws| ==> 0 <= draws[i].x < cols && 0 <= draws[i].y < rows) &&
    mines <= |Elems(draws)|
  }

  /** A stream fits only a grid with at least as many cells as mines: with more
      mines than cells the placement loop draws forever. */
  lemma DrawsFitBound(rows: int, cols: int, mines: int, draws: seq<Pos>)
    ensures DrawsFit(rows, cols, mines, draws) ==> mines <= rows * cols
  {
    if DrawsFit(rows, cols, mines, draws) {
      var L := Layout(rows, cols, mines, {});
      forall p | p in Elems(draws)
        ensures p in L.Cells()
      {
        InCells(L, p);
      }
      SubsetCard(Elems(draws), L.Cells());
      CellsCard(L);
    }
  }
}
