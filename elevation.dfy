/**
 * terrain.ElevationMap: a square grid of elevations in metres, indexed
 * Data[y][x], with bounds-checked reads, an in-place point write and the
 * square-neighbourhood queries used for coastline work.
 */
module Elevation {

  /** The side of the (2r+1) x (2r+1) neighbourhood; no cells for a negative radius. */
  function NeighborhoodSize(radius: int): nat {
    if radius >= 0 then (2 * radius + 1) * (2 * radius + 1) else 0
  }

  /** Row-major position k of a block of width `side` is row k / side, column k % side. */
  lemma RowMajor(row: int, col: int, side: int)
    requires side > 0 && 0 <= row && 0 <= col < side
    ensures (row * side + col) / side == row
    ensures (row * side + col) % side == col
  {
    var k := row * side + col;
    var q, r := k / side, k % side;
    assert side * (q - row) == col - r;
    if q - row >= 1 {
      MulAtLeast(side, q - row);
    } else if q - row <= -1 {
      MulAtLeast(side, row - q);
    }
  }

  lemma {:induction false} MulAtLeast(a: int, d: int)
    requires a > 0 && d >= 1
    ensures a * d >= a
    decreases d
  {
    if d > 1 {
      MulAtLeast(a, d - 1);
      assert a * d == a * (d - 1) + a;
    }
  }

  /** IsLand: an elevation above sea level. */
  predicate IsLand(elevation: real) {
    elevation > 0.0
  }

  class ElevationMap {
    var data: seq<seq<real>>
    var tileSize: int

    /** The grid is TileSize rows of TileSize cells. */
    ghost predicate Valid()
      reads this
    {
      tileSize >= 0 && |data| == tileSize &&
      forall y :: 0 <= y < |data| ==> |data[y]| == tileSize
    }

    constructor (data: seq<seq<real>>, tileSize: int)
      ensures this.data == data && this.tileSize == tileSize
    {
      this.data := data;
      this.tileSize := tileSize;
    }

    predicate InGrid(x: int, y: int)
      reads this
    {
      0 <= x < tileSize && 0 <= y < tileSize
    }

    /** GetElevation: sea level (0) off the grid, the stored value on it. */
    function GetElevation(x: int, y: int): (e: real)
      requires Valid()
      reads this
      ensures !InGrid(x, y) ==> e == 0.0
      ensures InGrid(x, y) ==> e == data[y][x]
    {
      if x < 0 || y < 0 || x >= tileSize || y >= tileSize then 0.0 else data[y][x]
    }

    /** ModifyElevation: writes one in-grid cell; every other cell keeps its value. */
    method ModifyElevation(x: int, y: int, elevation: real)
      requires Valid() && InGrid(x, y)
      modifies this
      ensures Valid() && tileSize == old(tileSize)
      ensures data == old(data)[y := old(data)[y][x := elevation]]
      ensures data[y][x] == elevation
      ensures forall y', x' :: InGrid(x', y') && (y', x') != (y, x) ==> data[y'][x'] == old(data)[y'][x']
    {
      data := data[y := data[y][x := elevation]];
    }

    /** The k-th neighbour of (x, y) in row-major order over the (2r+1)^2 block. */
    function NeighborAt(x: int, y: int, radius: int, k: int): real
      requires Valid() && radius >= 0
      reads this
    {
      GetElevation(x + k % (2 * radius + 1) - radius, y + k / (2 * radius + 1) - radius)
    }

    /**
     * GetNeighborhood: the (2r+1)^2 elevations around (x, y) in row-major
     * order, off-grid neighbours reading as 0.
     */
    method GetNeighborhood(x: int, y: int, radius: int) returns (result: seq<real>)
      requires Valid()
      ensures |result| == NeighborhoodSize(radius)
      ensures radius >= 0 ==> forall k :: 0 <= k < |result| ==> result[k] == NeighborAt(x, y, radius, k)
    {
      result := [];
      if radius < 0 {
        return;
      }
      var size := 2 * radius + 1;
      var dy := -radius;
      while dy <= radius
        invariant -radius <= dy <= radius + 1
        invariant |result| == (dy + radius) * size
        invariant forall k :: 0 <= k < |result| ==> result[k] == NeighborAt(x, y, radius, k)
      {
        var dx := -radius;
        while dx <= radius
          invariant -radius <= dx <= radius + 1
          invariant |result| == (dy + radius) * size + (dx + radius)
          invariant forall k :: 0 <= k < |result| ==> result[k] == NeighborAt(x, y, radius, k)
        {
          RowMajor(dy + radius, dx + radius, size);
          assert NeighborAt(x, y, radius, |result|) == GetElevation(x + dx, y + dy);
          result := result + [GetElevation(x + dx, y + dy)];
          dx := dx + 1;
        }
        assert (dy + 1 + radius) * size == (dy + radius) * size + size;
        dy := dy + 1;
      }
    }

    /** Neighbour (x + dx, y + dy) lies off the grid. */
    predicate OffGrid(x: int, y: int, dx: int, dy: int)
      reads this
    {
      !InGrid(x + dx, y + dy)
    }

    /** Neighbour (x + dx, y + dy) is of the given kind: 0 land, 1 water (in-grid, elevation <= 0), 2 off-grid. */
    predicate IsKind(kind: nat, x: int, y: int, dx: int, dy: int)
      requires Valid()
      reads this
    {
      if kind == 0 then InGrid(x + dx, y + dy) && IsLand(data[y + dy][x + dx])
      else if kind == 1 then InGrid(x + dx, y + dy) && !IsLand(data[y + dy][x + dx])
      else OffGrid(x, y, dx, dy)
    }

    /** Neighbours of the given kind in row dy, for dx in [lo, hi). */
    function RowCount(kind: nat, x: int, y: int, dy: int, lo: int, hi: int): nat
      requires Valid()
      reads this
      decreases hi - lo
    {
      if hi <= lo then 0
      else RowCount(kind, x, y, dy, lo, hi - 1) + (if IsKind(kind, x, y, hi - 1, dy) then 1 else 0)
    }

    /** Neighbours of the given kind in rows dy in [lo, hi), each row spanning dx in [-radius, radius]. */
    function BlockCount(kind: nat, x: int, y: int, lo: int, hi: int, radius: int): nat
      requires Valid()
      reads this
      decreases hi - lo
    {
      if hi <= lo then 0
      else BlockCount(kind, x, y, lo, hi - 1, radius) + RowCount(kind, x, y, hi - 1, -radius, radius + 1)
    }

    /**
     * GetNeighborhoodStats: land and water counts over the in-grid neighbours
     * and whether any neighbour is off the grid.
     */
    method GetNeighborhoodStats(x: int, y: int, radius: int) returns (landCount: nat, waterCount: nat, hasEdge: bool)
      requires Valid()
      ensures landCount == BlockCount(0, x, y, -radius, radius + 1, radius)
      ensures waterCount == BlockCount(1, x, y, -radius, radius + 1, radius)
      ensures hasEdge <==> BlockCount(2, x, y, -radius, radius + 1, radius) > 0
    {
      landCount, waterCount, hasEdge := 0, 0, false;
      var dy := -radius;
      while dy <= radius
        invariant radius >= 0 ==> -radius <= dy <= radius + 1
        invariant radius < 0 ==> dy == -radius
        invariant landCount == BlockCount(0, x, y, -radius, dy, radius)
        invariant waterCount == BlockCount(1, x, y, -radius, dy, radius)
        invariant hasEdge <==> BlockCount(2, x, y, -radius, dy, radius) > 0
      {
        var dx := -radius;
        ghost var land0, water0, edge0 := landCount, waterCount, BlockCount(2, x, y, -radius, dy, radius);
        while dx <= radius
          invariant -radius <= dx <= radius + 1
          invariant landCount == land0 + RowCount(0, x, y, dy, -radius, dx)
          invariant waterCount == water0 + RowCount(1, x, y, dy, -radius, dx)
          invariant hasEdge <==> edge0 + RowCount(2, x, y, dy, -radius, dx) > 0
        {
          var newX, newY := x + dx, y + dy;
          if newX < 0 || newY < 0 || newX >= tileSize || newY >= tileSize {
            hasEdge := true;
            dx := dx + 1;
            continue;
          }
          var elev := data[newY][newX];
          if IsLand(elev) {
            landCount := landCount + 1;
          } else {
            waterCount := waterCount + 1;
          }
          dx := dx + 1;
        }
        dy := dy + 1;
      }
    }

    /** A row count is above zero exactly when one of its neighbours is of that kind. */
    lemma {:induction false} RowCountPositive(kind: nat, x: int, y: int, dy: int, lo: int, hi: int)
      requires Valid()
      ensures RowCount(kind, x, y, dy, lo, hi) > 0 <==> exists dx :: lo <= dx < hi && IsKind(kind, x, y, dx, dy)
      decreases hi - lo
    {
      if hi > lo {
        RowCountPositive(kind, x, y, dy, lo, hi - 1);
        if IsKind(kind, x, y, hi - 1, dy) {
          assert lo <= hi - 1 < hi;
        }
      }
    }

    /** A block count is above zero exactly when one of its neighbours is of that kind. */
    lemma {:induction false} BlockCountPositive(kind: nat, x: int, y: int, lo: int, hi: int, radius: int)
      requires Valid()
      ensures BlockCount(kind, x, y, lo, hi, radius) > 0 <==>
        exists dy, dx :: lo <= dy < hi && -radius <= dx <= radius && IsKind(kind, x, y, dx, dy)
      decreases hi - lo
    {
      if hi > lo {
        BlockCountPositive(kind, x, y, lo, hi - 1, radius);
        RowCountPositive(kind, x, y, hi - 1, -radius, radius + 1);
        if RowCount(kind, x, y, hi - 1, -radius, radius + 1) > 0 {
          var dx :| -radius <= dx < radius + 1 && IsKind(kind, x, y, dx, hi - 1);
          assert lo <= hi - 1 < hi;
        }
      }
    }

    /** hasEdge holds exactly when some neighbour lies off the grid. */
    lemma HasEdgeIffOffGridNeighbour(x: int, y: int, radius: int)
      requires Valid()
      ensures BlockCount(2, x, y, -radius, radius + 1, radius) > 0 <==>
        exists dy, dx :: -radius <= dy <= radius && -radius <= dx <= radius && OffGrid(x, y, dx, dy)
    {
      BlockCountPositive(2, x, y, -radius, radius + 1, radius);
      assert forall dy, dx :: IsKind(2, x, y, dx, dy) == OffGrid(x, y, dx, dy);
    }

    lemma {:induction false} RowPartition(x: int, y: int, dy: int, lo: int, hi: int)
      requires Valid() && lo <= hi
      ensures RowCount(0, x, y, dy, lo, hi) + RowCount(1, x, y, dy, lo, hi) + RowCount(2, x, y, dy, lo, hi) == hi - lo
      decreases hi - lo
    {
      if hi > lo {
        RowPartition(x, y, dy, lo, hi - 1);
      }
    }

    lemma {:induction false} BlockPartition(x: int, y: int, lo: int, hi: int, radius: int)
      requires Valid() && lo <= hi && radius >= 0
      ensures BlockCount(0, x, y, lo, hi, radius) + BlockCount(1, x, y, lo, hi, radius) + BlockCount(2, x, y, lo, hi, radius)
        == (hi - lo) * (2 * radius + 1)
      decreases hi - lo
    {
      if hi > lo {
        BlockPartition(x, y, lo, hi - 1, radius);
        RowPartition(x, y, hi - 1, -radius, radius + 1);
        assert (hi - lo) * (2 * radius + 1) == (hi - 1 - lo) * (2 * radius + 1) + (2 * radius + 1);
      }
    }

    /** Land, water and off-grid neighbours together are the whole (2r+1)^2 neighbourhood. */
    lemma StatsPartitionNeighborhood(x: int, y: int, radius: int)
      requires Valid()
      ensures BlockCount(0, x, y, -radius, radius + 1, radius) + BlockCount(1, x, y, -radius, radius + 1, radius)
        + BlockCount(2, x, y, -radius, radius + 1, radius) == NeighborhoodSize(radius)
    {
      if radius >= 0 {
        BlockPartition(x, y, -radius, radius + 1, radius);
      }
    }
  }
}
