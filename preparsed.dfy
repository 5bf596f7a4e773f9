/** The Java client library's map of the whole maze
    (lib/java/cz/protab/maze/PreparsedMazeMap.java): the numbers of the
    server's `MAZE` answer read row by row into a two-dimensional array.
    The text is given as the integers its scanner reads from it, in order. */
module Preparsed {
  import opened Prelude
  import opened CInt
  import Level
  import MazeClient

  /** The integer the scanner hands out for the cell in column `x` of row
      `y`: the cells are read row after row. */
  function Scanned(ints: seq<int>, width: int, height: int, x: int, y: int): int
    requires 0 <= x < width && 0 <= y < height && width * height <= |ints|
  {
    Level.CellIndex(width, height, x, y);
    ints[MazeClient.Offset(width, x, y)]
  }

  class PreparsedMazeMap {
    const width: int
    const height: int
    /** `int[][] map`, indexed by row and then by column. */
    const grid: array2<int>

    /** One row per unit of height, one column per unit of width. */
    predicate Valid() {
      grid.Length0 == height && grid.Length1 == width
    }

    /** The constructor: `height` rows of `width` cells, filled from the
        first `width * height` integers; any further integers are left
        unread. */
    constructor (width: int, height: int, ints: seq<int>)
      requires 0 <= width && 0 <= height && width * height <= |ints|
      ensures Valid() && this.width == width && this.height == height && fresh(grid)
      ensures forall r, c :: 0 <= r < height && 0 <= c < width ==> grid[r, c] == Scanned(ints, width, height, c, r)
    {
      this.width, this.height := width, height;
      var a := new int[height, width];
      var next := 0;
      var row := 0;
      while row < height
        invariant 0 <= row <= height && next == row * width
        invariant forall r, c :: 0 <= r < row && 0 <= c < width ==> a[r, c] == Scanned(ints, width, height, c, r)
      {
        var col := 0;
        while col < width
          invariant 0 <= col <= width && next == row * width + col
          invariant forall r, c :: 0 <= r < row && 0 <= c < width ==> a[r, c] == Scanned(ints, width, height, c, r)
          invariant forall c :: 0 <= c < col ==> a[row, c] == Scanned(ints, width, height, c, row)
        {
          Level.CellIndex(width, height, col, row);
          a[row, col] := ints[next];
          next := next + 1;
          col := col + 1;
        }
        row := row + 1;
      }
      grid := a;
    }

    /** The constructor's failures: a negative size cannot be allocated,
        and a text with fewer than `width * height` integers runs out.
        Otherwise the grid is built. */
    static method Parse(width: int, height: int, ints: seq<int>) returns (r: Option<PreparsedMazeMap>)
      ensures r.None? <==> width < 0 || height < 0 || |ints| < width * height
      ensures r.Some? ==> fresh(r.value) && fresh(r.value.grid)
      ensures r.Some? ==> r.value.Valid() && r.value.width == width && r.value.height == height
      ensures r.Some? ==> forall row, col :: 0 <= row < height && 0 <= col < width ==>
        r.value.grid[row, col] == Scanned(ints, width, height, col, row)
    {
      if width < 0 || height < 0 || |ints| < width * height {
        return None;
      }
      var p := new PreparsedMazeMap(width, height, ints);
      return Some(p);
    }

    /** `getWidth`: the length of every row. */
    function GetWidth(): (w: int)
      requires Valid()
      ensures w == grid.Length1
    {
      width
    }

    /** `getHeight`: the number of rows. */
    function GetHeight(): (h: int)
      requires Valid()
      ensures h == grid.Length0
    {
      height
    }

    /** `valueAt`: the cell in column `x` of row `y`, or nothing where the
        array access throws. */
    function ValueAt(x: int, y: int): (r: Option<int>)
      requires Valid()
      reads grid
      ensures r.None? <==> !(0 <= x < width && 0 <= y < height)
      ensures r.Some? ==> 0 <= y < grid.Length0 && 0 <= x < grid.Length1 && r.value == grid[y, x]
    {
      if 0 <= y < grid.Length0 && 0 <= x < grid.Length1 then Some(grid[y, x]) else None
    }
  }

  /** The two client libraries read a `MAZE` answer alike: the Java map
      built from its integers and the .NET map of its first
      `width * height` integers give the same value for every cell, and
      both give nothing outside the maze. */
  lemma ClientsAgree(p: PreparsedMazeMap, ints: seq<int>, x: int, y: int)
    requires p.Valid() && 0 <= p.width && 0 <= p.height && p.width * p.height <= |ints| <= INT_MAX
    requires IsInt32(p.width) && IsInt32(p.height) && IsInt32(x) && IsInt32(y)
    requires forall r, c :: 0 <= r < p.height && 0 <= c < p.width ==> p.grid[r, c] == Scanned(ints, p.width, p.height, c, r)
    ensures var m := MazeClient.MazeMap(ints[..p.width * p.height], p.width, p.height);
      MazeClient.Valid(m) && MazeClient.TryGet(m, x, y) == MazeClient.Returned(p.ValueAt(x, y))
  {
    var m := MazeClient.MazeMap(ints[..p.width * p.height], p.width, p.height);
    assert MazeClient.Valid(m);
    MazeClient.TryGetSafe(m, x, y);
    if 0 <= x < p.width && 0 <= y < p.height {
      assert p.ValueAt(x, y) == Some(Scanned(ints, p.width, p.height, x, y));
    }
  }
}
