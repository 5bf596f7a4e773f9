/** The .NET client library (lib/dotnet/Maze.Client/MazeClient.cs): the
    map of the whole maze a client gets from `MAZE`, the reading of a
    move's reply, and the cached size of the maze. C# `int` arithmetic is
    unchecked, so products and sums wrap around at 32 bits. */
module MazeClient {
  import opened Prelude
  import opened CInt
  import Level
  import Proto

  /** A member either returns a value or throws. */
  datatype Outcome<T> = Returned(value: T) | Threw

  // ---------------------------------------------------------------------
  // MazeMap

  /** `MazeMap`: the cells row by row, and the size they were given with. */
  datatype MazeMap = MazeMap(data: seq<int>, width: int, height: int)

  /** A map the constructor accepts: as many cells as the size says, in an
      array C# can hold, with a size of two `int`s. */
  predicate Valid(m: MazeMap) {
    IsInt32(m.width) && IsInt32(m.height) && 0 <= |m.data| <= INT_MAX
    && |m.data| == m.width * m.height
  }

  /** The row-major index of the cell (x, y), in exact arithmetic. */
  function Offset(width: int, x: int, y: int): int {
    x + y * width
  }

  /** The constructor as written: the length check multiplies in 32-bit
      arithmetic, so a size whose product wraps around passes it with too
      few cells. */
  function NewMazeMapAsWritten(data: seq<int>, width: int, height: int): (r: Outcome<MazeMap>)
    requires IsInt32(width) && IsInt32(height) && |data| <= INT_MAX
    ensures r.Returned? <==> |data| == Wrap32(width * height)
    ensures r.Returned? ==> r.value == MazeMap(data, width, height)
  {
    if |data| != Wrap32(width * height) then Threw else Returned(MazeMap(data, width, height))
  }

  /** A size of 65536 by 65536 wraps to 0 cells: the empty array is
      accepted, and `TryGet` on the cell (0, 0), inside the stated size,
      throws instead of answering; `ForAll` walks cells there are not, so
      it throws before its first call. */
  lemma WrappedSizeAccepted()
    ensures NewMazeMapAsWritten([], 65536, 65536) == Returned(MazeMap([], 65536, 65536))
    ensures !Valid(MazeMap([], 65536, 65536))
    ensures TryGet(MazeMap([], 65536, 65536), 0, 0) == Threw
    ensures Cells(MazeMap([], 65536, 65536)) > 0
  {
    assert 65536 * 65536 == 0x1_0000_0000;
    assert Wrap32(0x1_0000_0000) == 0;
  }

  /** The constructor with the check it means: the data holds exactly
      `width * height` cells. */
  function NewMazeMap(data: seq<int>, width: int, height: int): (r: Outcome<MazeMap>)
    requires IsInt32(width) && IsInt32(height) && |data| <= INT_MAX
    ensures r.Returned? <==> |data| == width * height
    ensures r.Returned? ==> Valid(r.value) && r.value == MazeMap(data, width, height)
  {
    if |data| != width * height then Threw else Returned(MazeMap(data, width, height))
  }

  /** Both checks agree on every size whose product is an `int`. */
  lemma ChecksAgree(data: seq<int>, width: int, height: int)
    requires IsInt32(width) && IsInt32(height) && |data| <= INT_MAX && IsInt32(width * height)
    ensures NewMazeMapAsWritten(data, width, height) == NewMazeMap(data, width, height)
  {
  }

  /** The indexer `this[x, y]`: the cell at `x + y * Width`, computed in
      32-bit arithmetic, or an exception for an index outside the array.
      It does not check the coordinates themselves. */
  function Get(m: MazeMap, x: int, y: int): (r: Outcome<int>)
    requires IsInt32(x) && IsInt32(y)
    ensures var i := Wrap32(x + Wrap32(y * m.width));
      r.Returned? <==> 0 <= i < |m.data|
  {
    var i := Wrap32(x + Wrap32(y * m.width));
    if 0 <= i < |m.data| then Returned(m.data[i]) else Threw
  }

  /** A cell inside a valid map is read from its row-major index, with no
      wrap-around. */
  lemma GetInside(m: MazeMap, x: int, y: int)
    requires Valid(m) && 0 <= x < m.width && 0 <= y < m.height
    ensures 0 <= Offset(m.width, x, y) < |m.data|
    ensures Get(m, x, y) == Returned(m.data[Offset(m.width, x, y)])
  {
    Level.CellIndex(m.width, m.height, x, y);
    assert 0 <= y * m.width <= Offset(m.width, x, y);
  }

  /** The indexer runs over into the next row: one cell past the end of a
      row is the first cell of the row below. */
  lemma GetRunsOver(m: MazeMap, y: int)
    requires Valid(m) && 0 < m.width && 0 <= y && y + 1 < m.height
    ensures Get(m, m.width, y) == Get(m, 0, y + 1)
    ensures Get(m, m.width, y).Returned?
  {
    GetInside(m, 0, y + 1);
    assert m.width + y * m.width == (y + 1) * m.width;
    assert IsInt32(y * m.width) by { Level.CellIndex(m.width, m.height, 0, y); }
  }

  /** `TryGet`: nothing for a cell outside the map, else the indexer's
      answer. */
  function TryGet(m: MazeMap, x: int, y: int): (r: Outcome<Option<int>>)
    requires IsInt32(x) && IsInt32(y)
    ensures (x < 0 || y < 0 || x >= m.width || y >= m.height) ==> r == Returned(None)
  {
    if x < 0 || y < 0 || x >= m.width || y >= m.height then Returned(None)
    else match Get(m, x, y)
      case Threw => Threw
      case Returned(v) => Returned(Some(v))
  }

  /** On a map the constructor accepted, `TryGet` never throws: it answers
      nothing exactly for a cell outside the map, and the cell's value at
      its row-major index otherwise. */
  lemma TryGetSafe(m: MazeMap, x: int, y: int)
    requires Valid(m) && IsInt32(x) && IsInt32(y)
    ensures TryGet(m, x, y).Returned?
    ensures TryGet(m, x, y).value.None? <==> (x < 0 || y < 0 || x >= m.width || y >= m.height)
    ensures TryGet(m, x, y).value.Some? ==>
      0 <= Offset(m.width, x, y) < |m.data| && TryGet(m, x, y).value.value == m.data[Offset(m.width, x, y)]
  {
    if 0 <= x < m.width && 0 <= y < m.height {
      GetInside(m, x, y);
    }
  }

  /** The number of cells `ForAll` walks: none when either side is not
      positive. On a map the constructor means to accept, that is every
      cell of the data. */
  function Cells(m: MazeMap): (n: int)
    ensures 0 <= n
    ensures Valid(m) ==> n == (if 0 < m.width && 0 < m.height then |m.data| else 0)
  {
    if 0 < m.width && 0 < m.height then m.width * m.height else 0
  }

  /** The position of the `k`-th call of `ForAll` on a map `width` cells
      wide: rows in order, and the columns of a row in order. */
  function Position(width: int, k: int): (int, int)
    requires 0 < width
  {
    (k % width, k / width)
  }

  /** The call at a cell's row-major index is the call for that cell. */
  lemma PositionOfOffset(width: int, x: int, y: int)
    requires 0 <= x < width && 0 <= y
    ensures Position(width, Offset(width, x, y)) == (x, y)
  {
    DivModOfDecomposition(Offset(width, x, y), width, y, x);
  }

  /** The `k`-th call inside the first `height` rows is for a cell of the
      level, at whose row-major index it stands. */
  lemma CallCell(width: int, height: int, k: int)
    requires 0 < width && 0 <= k < width * height
    ensures var (x, y) := Position(width, k);
      0 <= x < width && 0 <= y < height && k == Offset(width, x, y)
  {
    var x, y := k % width, k / width;
    assert k == y * width + x && 0 <= x < width;
    MulMono(height, y, width);
  }

  /** The cells of row `y` of a valid map sit at consecutive indices of
      its data. */
  lemma RowFits(m: MazeMap, y: int)
    requires Valid(m) && 0 < m.width && 0 <= y < m.height
    ensures forall x :: 0 <= x < m.width ==> 0 <= Offset(m.width, x, y) < |m.data|
  {
    forall x | 0 <= x < m.width
      ensures 0 <= Offset(m.width, x, y) < |m.data|
    {
      Level.CellIndex(m.width, m.height, x, y);
    }
  }

  /** The callback's calls for row `y`: each position with its cell. */
  function Row(m: MazeMap, y: int): (r: seq<((int, int), int)>)
    requires Valid(m) && 0 < m.width && 0 <= y < m.height
    ensures |r| == m.width
  {
    RowFits(m, y);
    seq(m.width, x requires 0 <= x < m.width => ((x, y), m.data[Offset(m.width, x, y)]))
  }

  /** The callback's calls for the first `y` rows, row after row. */
  function Rows(m: MazeMap, y: nat): (r: seq<((int, int), int)>)
    requires Valid(m) && 0 < m.width && y <= m.height
  {
    if y == 0 then [] else Rows(m, y - 1) + Row(m, y - 1)
  }

  /** The first `y` rows make `y * width` calls, and the call at the
      row-major index of a cell passes that cell's position and value. */
  lemma {:induction false} RowsCells(m: MazeMap, y: nat)
    requires Valid(m) && 0 < m.width && y <= m.height
    ensures |Rows(m, y)| == y * m.width
    ensures forall x, y' :: 0 <= x < m.width && 0 <= y' < y ==>
      0 <= Offset(m.width, x, y') < |Rows(m, y)| && 0 <= Offset(m.width, x, y') < |m.data|
      && Rows(m, y)[Offset(m.width, x, y')] == ((x, y'), m.data[Offset(m.width, x, y')])
  {
    if y > 0 {
      RowsCells(m, y - 1);
      RowFits(m, y - 1);
      var prev, row := Rows(m, y - 1), Row(m, y - 1);
      assert |prev| == (y - 1) * m.width;
      assert y * m.width == (y - 1) * m.width + m.width;
      forall x, y' | 0 <= x < m.width && 0 <= y' < y
        ensures 0 <= Offset(m.width, x, y') < |Rows(m, y)|
        ensures Rows(m, y)[Offset(m.width, x, y')] == ((x, y'), m.data[Offset(m.width, x, y')])
      {
        if y' == y - 1 {
          assert Offset(m.width, x, y') == |prev| + x;
          assert (prev + row)[|prev| + x] == row[x];
        } else {
          assert 0 <= Offset(m.width, x, y') < |prev|;
          assert (prev + row)[Offset(m.width, x, y')] == prev[Offset(m.width, x, y')];
        }
      }
    }
  }

  /** The call at index `k` of the rows of a valid map is for the `k`-th
      cell, at its position. */
  lemma RowsAt(m: MazeMap, k: int)
    requires Valid(m) && 0 < m.width && 0 < m.height && 0 <= k < |m.data|
    ensures |Rows(m, m.height)| == |m.data|
    ensures Rows(m, m.height)[k] == (Position(m.width, k), m.data[k])
  {
    var x, y := k % m.width, k / m.width;
    CallCell(m.width, m.height, k);
    RowsCells(m, m.height);
    assert Rows(m, m.height)[Offset(m.width, x, y)] == ((x, y), m.data[Offset(m.width, x, y)]);
  }

  /** The rows of a valid map, one after another, are its cells in the
      order `ForAll` walks them. */
  lemma RowsInOrder(m: MazeMap)
    requires Valid(m) && 0 < m.width && 0 < m.height
    ensures |Rows(m, m.height)| == |m.data|
    ensures forall k :: 0 <= k < |m.data| ==>
      Rows(m, m.height)[k] == (Position(m.width, k), m.data[k])
  {
    RowsCells(m, m.height);
    forall k | 0 <= k < |m.data|
      ensures Rows(m, m.height)[k] == (Position(m.width, k), m.data[k])
    {
      RowsAt(m, k);
    }
  }

  /** On a valid map, a walk that calls the callback for every cell in
      order is the rows one after another, and calls each cell once, at
      its row-major index. */
  lemma WalkOfValid(m: MazeMap, calls: seq<((int, int), int)>)
    requires Valid(m) && 0 < m.width && |calls| == Cells(m)
    requires forall k :: 0 <= k < |calls| ==> calls[k] == (Position(m.width, k), m.data[k])
    ensures calls == (if 0 < m.height then Rows(m, m.height) else [])
    ensures forall x, y :: 0 <= x < m.width && 0 <= y < m.height ==>
      0 <= Offset(m.width, x, y) < |calls| && calls[Offset(m.width, x, y)] == ((x, y), m.data[Offset(m.width, x, y)])
  {
    if 0 < m.height {
      RowsInOrder(m);
      forall x, y | 0 <= x < m.width && 0 <= y < m.height
        ensures 0 <= Offset(m.width, x, y) < |calls|
        ensures calls[Offset(m.width, x, y)] == ((x, y), m.data[Offset(m.width, x, y)])
      {
        Level.CellIndex(m.width, m.height, x, y);
        PositionOfOffset(m.width, x, y);
      }
    }
  }

  /** The calls so far are for the first cells, in order, each at its
      position. */
  predicate Walked(m: MazeMap, calls: seq<((int, int), int)>) {
    0 < m.width && |calls| <= |m.data|
    && forall k :: 0 <= k < |calls| ==> calls[k] == (Position(m.width, k), m.data[k])
  }

  /** The inner loop of `ForAll` over row `y`: a call for each column, or
      the exception of `Data[i++]` once the counter passes the data. */
  method WalkRow(m: MazeMap, y: int, calls0: seq<((int, int), int)>, i0: int)
    returns (calls: seq<((int, int), int)>, i: int, threw: bool)
    requires 0 <= y && i0 == y * m.width && |calls0| == i0 && Walked(m, calls0)
    ensures |calls| == i && Walked(m, calls) && calls0 <= calls
    ensures threw ==> i == |m.data| < (y + 1) * m.width
    ensures !threw ==> i == (y + 1) * m.width
  {
    calls, i, threw := calls0, i0, false;
    var x := 0;
    while x < m.width
      invariant 0 <= x <= m.width
      invariant i == y * m.width + x && |calls| == i
      invariant Walked(m, calls) && calls0 <= calls
    {
      if i == |m.data| {
        // `Data[i++]` is past the end: `IndexOutOfRangeException`
        threw := true;
        return;
      }
      PositionOfOffset(m.width, x, y);
      calls := calls + [((x, y), m.data[i])];
      i := i + 1;
      x := x + 1;
    }
  }

  /** `ForAll`: the calls of the callback, in order, each with a position
      and its cell, and whether it threw. Rows go in the outer loop and
      columns in the inner, and a counter walks the data: the `k`-th call
      is for the `k`-th cell. The counter reads `Data[i++]` unchecked, so on
      a map whose size promises more cells than the data holds (one the
      constructor as written lets through with a wrapped size) the read
      past the last cell throws, after a call for every cell there is. */
  method ForAll(m: MazeMap) returns (calls: seq<((int, int), int)>, threw: bool)
    requires IsInt32(m.width) && IsInt32(m.height) && |m.data| <= INT_MAX
    ensures threw <==> Cells(m) > |m.data|
    ensures |calls| == (if threw then |m.data| else Cells(m))
    ensures forall k :: 0 <= k < |calls| ==>
      0 < m.width && calls[k] == (Position(m.width, k), m.data[k])
    ensures Valid(m) ==>
      !threw && calls == (if 0 < m.width && 0 < m.height then Rows(m, m.height) else [])
    ensures Valid(m) ==> forall x, y :: 0 <= x < m.width && 0 <= y < m.height ==>
      0 <= Offset(m.width, x, y) < |calls| && calls[Offset(m.width, x, y)] == ((x, y), m.data[Offset(m.width, x, y)])
  {
    calls, threw := [], false;
    if m.width <= 0 {
      // no row has a column, so the callback is never called
      var y := 0;
      while y < m.height
        invariant calls == []
      {
        y := y + 1;
      }
      return;
    }
    var i := 0;
    var y := 0;
    while y < m.height
      invariant 0 <= y && (y <= m.height || y == 0)
      invariant i == y * m.width && i <= |m.data|
      invariant |calls| == i && Walked(m, calls)
    {
      calls, i, threw := WalkRow(m, y, calls, i);
      if threw {
        assert Cells(m) > |m.data| by {
          MulMono(y + 1, m.height, m.width);
        }
        return;
      }
      y := y + 1;
    }
    assert |calls| == Cells(m);
    if Valid(m) {
      WalkOfValid(m, calls);
    }
  }

  // ---------------------------------------------------------------------
  // Move

  /** `MoveResult`: the move was made, or it was refused with a message. */
  datatype MoveResult = OkMoveResult | ErrorMoveResult(message: seq<char>)

  /** `Move`: the server's answer to `MOVE`, its status and its argument,
      read as the move's result; any other status throws. */
  function Move(result: seq<char>, arg: seq<char>): (r: Outcome<MoveResult>)
    ensures r == Returned(OkMoveResult) <==> result == "DONE"
    ensures r.Returned? && r.value.ErrorMoveResult? <==> result == "NOPE"
    ensures r.Returned? && r.value.ErrorMoveResult? ==> r.value.message == arg
  {
    if result == "DONE" then Returned(OkMoveResult)
    else if result == "NOPE" then Returned(ErrorMoveResult(arg))
    else Threw
  }

  /** The client reads the server's answer to a move that did not end the
      game as the server meant it: a made move is `OkMoveResult`, and a
      refused one is `ErrorMoveResult` with the level's message. */
  lemma ServerMoveUnderstood(res: Proto.MoveResult, nope: Option<seq<char>>)
    requires Proto.Moved(res, nope).Say?
    ensures var o := Proto.Moved(res, nope);
      Move(o.status, if o.data.Some? then o.data.value else "")
        == (if res == Proto.MoveOkay then Returned(OkMoveResult) else Returned(ErrorMoveResult(nope.value)))
  {
  }

  // ---------------------------------------------------------------------
  // The client's cached size

  /** How often `c` occurs in `s`. */
  function Occurrences(s: seq<seq<char>>, c: seq<char>): (n: nat)
    ensures n == 0 <==> c !in s
  {
    if s == [] then 0 else Occurrences(s[..|s| - 1], c) + (if s[|s| - 1] == c then 1 else 0)
  }

  /** The client: the commands it has sent over its connection, and the
      width and height once it has asked for them. */
  class Client {
    var sent: seq<seq<char>>
    var width: Option<int>
    var height: Option<int>

    /** The size is asked for only while it is not known, and once. */
    predicate Valid()
      reads this
    {
      Occurrences(sent, "GETW") == (if width.Some? then 1 else 0)
      && Occurrences(sent, "GETH") == (if height.Some? then 1 else 0)
    }

    constructor ()
      ensures Valid() && sent == [] && width == None && height == None
    {
      sent, width, height := [], None, None;
    }

    /** `Width`: the cached width, or, the first time, the server's
        answer to `GETW`, which is then kept. */
    method Width(answer: int) returns (w: int)
      requires Valid()
      modifies this
      ensures Valid() && width == Some(w) && height == old(height)
      ensures old(width).Some? ==> w == old(width).value && sent == old(sent)
      ensures old(width).None? ==> w == answer && sent == old(sent) + ["GETW"]
    {
      if width.None? {
        sent := sent + ["GETW"];
        width := Some(answer);
      }
      w := width.value;
    }

    /** `Height`: the same with `GETH`. */
    method Height(answer: int) returns (h: int)
      requires Valid()
      modifies this
      ensures Valid() && height == Some(h) && width == old(width)
      ensures old(height).Some? ==> h == old(height).value && sent == old(sent)
      ensures old(height).None? ==> h == answer && sent == old(sent) + ["GETH"]
    {
      if height.None? {
        sent := sent + ["GETH"];
        height := Some(answer);
      }
      h := height.value;
    }

    /** `GetMaze`: `MAZE` is sent first, then the size is asked for if it
        is not yet known, and the map is built from the cells and the
        size. */
    method GetMaze(cells: seq<int>, answerW: int, answerH: int) returns (r: Outcome<MazeMap>)
      requires Valid() && |cells| <= INT_MAX && IsInt32(answerW) && IsInt32(answerH)
      requires width.Some? ==> IsInt32(width.value)
      requires height.Some? ==> IsInt32(height.value)
      modifies this
      ensures Valid() && width.Some? && height.Some?
      ensures width == (if old(width).Some? then old(width) else Some(answerW))
      ensures height == (if old(height).Some? then old(height) else Some(answerH))
      ensures sent == old(sent) + ["MAZE"] + (if old(width).None? then ["GETW"] else []) + (if old(height).None? then ["GETH"] else [])
      ensures r == NewMazeMapAsWritten(cells, width.value, height.value)
      ensures IsInt32(width.value * height.value) ==> r == NewMazeMap(cells, width.value, height.value)
    {
      sent := sent + ["MAZE"];
      assert Occurrences(sent, "GETW") == Occurrences(old(sent), "GETW");
      assert Occurrences(sent, "GETH") == Occurrences(old(sent), "GETH");
      var w := Width(answerW);
      var h := Height(answerH);
      r := NewMazeMapAsWritten(cells, w, h);
      if IsInt32(w * h) {
        ChecksAgree(cells, w, h);
      }
    }
  }
}
