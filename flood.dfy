/** What a flood fill opens, stated without reference to the order in which the
    board's recursion visits cells: the cells reachable from the start along
    walks through openable cells that only leave cells with no mine around them. */
module Flood {
  import opened Geometry

  /** `path` is a walk a flood fill can take through `free` (the cells it may
      open): every step goes to an adjacent cell, and the walk only continues
      from cells whose `neighbor` value is 0. */
  ghost predicate IsFloodPath(L: Layout, free: set<Pos>, path: seq<Pos>)
  {
    |path| > 0 &&
    (forall i :: 0 <= i < |path| ==> path[i] in free) &&
    (forall i :: 0 <= i < |path| - 1 ==> L.Neighbor(path[i]) == 0 && L.Adjacent(path[i], path[i + 1]))
  }

  ghost predicate Reaches(L: Layout, free: set<Pos>, start: Pos, q: Pos)
  {
    exists path :: IsFloodPath(L, free, path) && path[0] == start && path[|path| - 1] == q
  }

  /** The cells a flood fill started at `start` opens when `free` is the set of
      cells it may open. */
  ghost function Region(L: Layout, start: Pos, free: set<Pos>): (r: set<Pos>)
    ensures r <= free
  {
    set q | q in free && Reaches(L, free, start, q)
  }

  /** Every cell of `free` next to a zero cell of `S` is in `S`. */
  ghost predicate ClosedIn(L: Layout, S: set<Pos>, free: set<Pos>)
  {
    forall p, q :: p in S && q in free && L.Neighbor(p) == 0 && L.Adjacent(p, q) ==> q in S
  }

  /** The cells opened by flood fills started, one after the other, at each of
      `starts`, all measured against the same `free`. */
  ghost function RegionUnion(L: Layout, starts: seq<Pos>, free: set<Pos>): (r: set<Pos>)
    ensures r <= free
  {
    if |starts| == 0 then {}
    else RegionUnion(L, starts[..|starts| - 1], free) + Region(L, starts[|starts| - 1], free)
  }

  lemma RegionNotFree(L: Layout, start: Pos, free: set<Pos>)
    requires start !in free
    ensures Region(L, start, free) == {}
  {
    forall q | q in free
      ensures !Reaches(L, free, start, q)
    {
    }
  }

  lemma RegionHasStart(L: Layout, start: Pos, free: set<Pos>)
    requires start in free
    ensures start in Region(L, start, free)
  {
    assert IsFloodPath(L, free, [start]);
  }

  /** A flood started on a cell with mines around it opens that cell alone. */
  lemma RegionSingle(L: Layout, start: Pos, free: set<Pos>)
    requires start in free && L.Neighbor(start) != 0
    ensures Region(L, start, free) == {start}
  {
    RegionHasStart(L, start, free);
    forall q | q in Region(L, start, free)
      ensures q == start
    {
      var path :| IsFloodPath(L, free, path) && path[0] == start && path[|path| - 1] == q;
      assert |path| == 1;
    }
  }

  lemma RegionMono(L: Layout, start: Pos, small: set<Pos>, large: set<Pos>)
    requires small <= large
    ensures Region(L, start, small) <= Region(L, start, large)
  {
    forall q | q in Region(L, start, small)
      ensures q in Region(L, start, large)
    {
      var path :| IsFloodPath(L, small, path) && path[0] == start && path[|path| - 1] == q;
      assert IsFloodPath(L, large, path);
    }
  }

  /** A flood path that ends in a zero cell extends by any openable neighbour. */
  lemma PathAppend(L: Layout, free: set<Pos>, path: seq<Pos>, q: Pos)
    requires IsFloodPath(L, free, path) && q in free
    requires L.Neighbor(path[|path| - 1]) == 0 && L.Adjacent(path[|path| - 1], q)
    ensures IsFloodPath(L, free, path + [q])
  {
    var longer := path + [q];
    forall i | 0 <= i < |longer|
      ensures longer[i] in free
    {
      if i < |path| {
        assert longer[i] == path[i];
      }
    }
    forall i | 0 <= i < |longer| - 1
      ensures L.Neighbor(longer[i]) == 0 && L.Adjacent(longer[i], longer[i + 1])
    {
      assert longer[i] == path[i];
      if i < |path| - 1 {
        assert longer[i + 1] == path[i + 1];
      }
    }
  }

  lemma PathSuffix(L: Layout, free: set<Pos>, path: seq<Pos>, m: nat, p: Pos)
    requires IsFloodPath(L, free, path) && m < |path| - 1
    requires forall j :: m < j < |path| ==> path[j] != p
    ensures IsFloodPath(L, free - {p}, path[m + 1..])
  {
    var tail := path[m + 1..];
    forall i | 0 <= i < |tail|
      ensures tail[i] in free - {p}
    {
      assert tail[i] == path[m + 1 + i];
    }
    forall i | 0 <= i < |tail| - 1
      ensures L.Neighbor(tail[i]) == 0 && L.Adjacent(tail[i], tail[i + 1])
    {
      assert tail[i] == path[m + 1 + i] && tail[i + 1] == path[m + 1 + i + 1];
    }
  }

  /** A region is closed: it contains every openable cell next to one of its zero cells. */
  lemma RegionClosed(L: Layout, start: Pos, free: set<Pos>)
    ensures ClosedIn(L, Region(L, start, free), free)
  {
    var R := Region(L, start, free);
    forall p, q | p in R && q in free && L.Neighbor(p) == 0 && L.Adjacent(p, q)
      ensures q in R
    {
      var path :| IsFloodPath(L, free, path) && path[0] == start && path[|path| - 1] == p;
      var longer := path + [q];
      PathAppend(L, free, path, q);
      assert longer[0] == start && longer[|longer| - 1] == q;
    }
  }

  lemma {:induction false} PathStaysIn(L: Layout, free: set<Pos>, S: set<Pos>, path: seq<Pos>, i: nat)
    requires IsFloodPath(L, free, path) && ClosedIn(L, S, free)
    requires i < |path| && path[i] in S
    ensures path[|path| - 1] in S
    decreases |path| - i
  {
    if i < |path| - 1 {
      assert path[i + 1] in S;
      PathStaysIn(L, free, S, path, i + 1);
    }
  }

  /** A closed set that holds the start holds the whole region: a flood opens
      no more than it has to. */
  lemma RegionWithin(L: Layout, start: Pos, free: set<Pos>, S: set<Pos>)
    requires start in S && ClosedIn(L, S, free)
    ensures Region(L, start, free) <= S
  {
    forall q | q in Region(L, start, free)
      ensures q in S
    {
      var path :| IsFloodPath(L, free, path) && path[0] == start && path[|path| - 1] == q;
      PathStaysIn(L, free, S, path, 0);
    }
  }

  /** Taking a closed part `U` out of the openable cells loses nothing but `U`. */
  lemma RegionSplit(L: Layout, start: Pos, free: set<Pos>, U: set<Pos>)
    requires U <= free && ClosedIn(L, U, free)
    ensures Region(L, start, free) <= U + Region(L, start, free - U)
  {
    forall q | q in Region(L, start, free) && q !in U
      ensures q in Region(L, start, free - U)
    {
      var path :| IsFloodPath(L, free, path) && path[0] == start && path[|path| - 1] == q;
      forall i | 0 <= i < |path|
        ensures path[i] !in U
      {
        if path[i] in U {
          PathStaysIn(L, free, U, path, i);
        }
      }
      assert IsFloodPath(L, free - U, path);
    }
  }

  lemma PathPrepend(L: Layout, start: Pos, path: seq<Pos>, small: set<Pos>, free: set<Pos>)
    requires IsFloodPath(L, small, path) && small <= free
    requires start in free && L.Neighbor(start) == 0 && L.Adjacent(start, path[0])
    ensures IsFloodPath(L, free, [start] + path)
  {
    var longer := [start] + path;
    forall i | 0 <= i < |longer|
      ensures longer[i] in free
    {
      if i > 0 {
        assert longer[i] == path[i - 1];
      }
    }
    forall i | 0 <= i < |longer| - 1
      ensures L.Neighbor(longer[i]) == 0 && L.Adjacent(longer[i], longer[i + 1])
    {
      if i > 0 {
        assert longer[i] == path[i - 1] && longer[i + 1] == path[i];
      }
    }
  }

  lemma ReachesPrepend(L: Layout, start: Pos, next: Pos, small: set<Pos>, free: set<Pos>, q: Pos)
    requires start in free && L.Neighbor(start) == 0 && L.Adjacent(start, next)
    requires small <= free && Reaches(L, small, next, q)
    ensures Reaches(L, free, start, q)
  {
    var path :| IsFloodPath(L, small, path) && path[0] == next && path[|path| - 1] == q;
    var longer := [start] + path;
    PathPrepend(L, start, path, small, free);
    assert longer[0] == start && longer[|longer| - 1] == q;
  }

  /** A zero cell's region contains the region of each openable neighbour. */
  lemma RegionPrepend(L: Layout, start: Pos, next: Pos, small: set<Pos>, free: set<Pos>)
    requires start in free && L.Neighbor(start) == 0 && L.Adjacent(start, next)
    requires small <= free
    ensures Region(L, next, small) <= Region(L, start, free)
  {
    forall q | q in Region(L, next, small)
      ensures q in Region(L, start, free)
    {
      ReachesPrepend(L, start, next, small, free, q);
    }
  }

  lemma {:induction false} RegionUnionClosed(L: Layout, starts: seq<Pos>, free: set<Pos>)
    ensures ClosedIn(L, RegionUnion(L, starts, free), free)
  {
    if |starts| > 0 {
      RegionUnionClosed(L, starts[..|starts| - 1], free);
      RegionClosed(L, starts[|starts| - 1], free);
    }
  }

  lemma {:induction false} RegionUnionHas(L: Layout, starts: seq<Pos>, free: set<Pos>, k: nat)
    requires k < |starts|
    ensures Region(L, starts[k], free) <= RegionUnion(L, starts, free)
  {
    if k < |starts| - 1 {
      RegionUnionHas(L, starts[..|starts| - 1], free, k);
    }
  }

  lemma {:induction false} RegionUnionBound(L: Layout, starts: seq<Pos>, free: set<Pos>, T: set<Pos>)
    requires forall k :: 0 <= k < |starts| ==> Region(L, starts[k], free) <= T
    ensures RegionUnion(L, starts, free) <= T
  {
    if |starts| > 0 {
      RegionUnionBound(L, starts[..|starts| - 1], free, T);
    }
  }

  /** One more flood in a sequence: started after the earlier floods opened `U`,
      it opens exactly what its region adds to `U`, and nothing of `U` again. */
  lemma RegionUnionStep(L: Layout, starts: seq<Pos>, k: nat, free: set<Pos>)
    requires k < |starts|
    ensures var U := RegionUnion(L, starts[..k], free);
      RegionUnion(L, starts[..k + 1], free) == U + Region(L, starts[k], free - U) &&
      U * Region(L, starts[k], free - U) == {}
  {
    var U := RegionUnion(L, starts[..k], free);
    assert starts[..k + 1][..k] == starts[..k];
    RegionUnionClosed(L, starts[..k], free);
    RegionSplit(L, starts[k], free, U);
    RegionMono(L, starts[k], free - U, free);
  }

  ghost function LastAt(path: seq<Pos>, p: Pos, i: nat): (m: nat)
    requires i < |path| && path[i] == p
    ensures i <= m < |path| && path[m] == p
    ensures forall j :: m < j < |path| ==> path[j] != p
    decreases |path| - i
  {
    if exists j :: i < j < |path| && path[j] == p then
      var j :| i < j < |path| && path[j] == p;
      LastAt(path, p, j)
    else i
  }

  /** Each window position's region, once the zero cell `start` is no longer
      openable, lies within the region of `start`. */
  lemma RegionAroundWithin(L: Layout, start: Pos, free: set<Pos>)
    requires start in free && L.Neighbor(start) == 0
    requires forall q :: q in free ==> L.InRange(q)
    ensures RegionUnion(L, Around(start), free - {start}) <= Region(L, start, free)
  {
    var ring := Around(start);
    var rest := free - {start};
    forall k | 0 <= k < 9
      ensures Region(L, ring[k], rest) <= Region(L, start, free)
    {
      if ring[k] in rest {
        AdjacentInAround(L, start, ring[k]);
        RegionPrepend(L, start, ring[k], rest, free);
      } else {
        RegionNotFree(L, ring[k], rest);
      }
    }
    RegionUnionBound(L, ring, rest, Region(L, start, free));
  }

  /** Every cell of the region of `start` other than `start` is reached through
      one of its window positions without passing through `start` again. */
  lemma RegionThroughAround(L: Layout, start: Pos, free: set<Pos>, q: Pos)
    requires q in Region(L, start, free) && q != start
    ensures q in RegionUnion(L, Around(start), free - {start})
  {
    var rest := free - {start};
    var path :| IsFloodPath(L, free, path) && path[0] == start && path[|path| - 1] == q;
    var m := LastAt(path, start, 0);
    var next := path[m + 1];
    var tail := path[m + 1..];
    PathSuffix(L, free, path, m, start);
    assert tail[0] == next && tail[|tail| - 1] == q;
    AdjacentInAround(L, start, next);
    RegionUnionHas(L, Around(start), rest, 3 * (next.y - start.y + 1) + (next.x - start.x + 1));
  }

  /** The recursion of the board's flood fill, as a fact about regions: the
      region of a zero cell is the cell itself plus the regions of its nine
      window positions, taken in loop order, once the cell is no longer openable. */
  lemma RegionDecompose(L: Layout, start: Pos, free: set<Pos>)
    requires start in free && L.Neighbor(start) == 0
    requires forall q :: q in free ==> L.InRange(q)
    ensures Region(L, start, free) == {start} + RegionUnion(L, Around(start), free - {start})
  {
    RegionHasStart(L, start, free);
    RegionAroundWithin(L, start, free);
    forall q | q in Region(L, start, free) && q != start
      ensures q in RegionUnion(L, Around(start), free - {start})
    {
      RegionThroughAround(L, start, free, q);
    }
  }
}
