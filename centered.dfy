/** The centred-level helper of server/levels/centered.c: a single player
    moved by the grid helper, shown at the centre of a 33 by 33 window
    onto the level that moves with it. */
module Centered {
  import opened CInt
  import opened Level
  import opened Grid
  import Draw

  const W: int := Draw.DRAW_MOD_WIDTH
  const H: int := Draw.DRAW_MOD_HEIGHT

  /** The window's cell (x, y) as row-major index. */
  function Slot(x: int, y: int): (i: int)
    requires 0 <= x < W && 0 <= y < H
    ensures 0 <= i < W * H
  {
    y * W + x
  }

  /** Distinct cells of the window have distinct slots. */
  lemma SlotUnique(x: int, y: int, x2: int, y2: int)
    requires 0 <= x < W && 0 <= y < H && 0 <= x2 < W && 0 <= y2 < H
    ensures Slot(x, y) == Slot(x2, y2) <==> x == x2 && y == y2
  {
  }

  class CenteredLevel {
    /** The grid helper that keeps the player and moves it. */
    const grid: GridLevel
    const width: int
    const height: int
    const level: seq<byte>
    /** The buffer `centered_maze` fills. */
    const window: array<byte>

    predicate Valid() {
      0 <= width && 0 <= height && |level| == width * height && window.Length == W * H
    }

    /** `centered_init`: the grid helper gets the level, and every move
        it makes is committed, which marks the level for redrawing. */
    constructor (width: int, height: int, level: seq<byte>, startX: int, startY: int)
      requires 0 <= width && 0 <= height && |level| == width * height
      ensures Valid() && this.width == width && this.height == height && this.level == level
      ensures fresh(grid) && grid.Valid() && grid.width == width && grid.height == height && grid.level == level
      ensures grid.startX == startX && grid.startY == startY
      ensures grid.players == [] && grid.commitCb && grid.commits == 0
    {
      var g := new GridLevel(width, height, level, startX, startY);
      g.SetMoveCommit(true);
      grid := g;
      this.width, this.height, this.level := width, height, level;
      window := new byte[W * H];
    }

    /** `get_color`: the colour of the window's cell (x, y) for a player at
        (px, py): the player itself at the centre when it is shown, else
        the level cell under it, and nothing outside the level. */
    function Color(px: int, py: int, x: int, y: int, withPlayer: bool): byte
      requires Valid()
    {
      if withPlayer && x == W / 2 && y == H / 2 then COLOR_PLAYER
      else
        var sx, sy := px - W / 2 + x, py - H / 2 + y;
        if 0 <= sx < width && 0 <= sy < height then
          CellIndex(width, height, sx, sy);
          level[sy * width + sx]
        else COLOR_NONE
    }

    /** The window shows the level shifted so that the player stands at
        its centre: a level cell other than the player's, no more than 16
        cells away along either axis, appears at its offset from the
        centre. */
    lemma LevelSeen(px: int, py: int, sx: int, sy: int)
      requires Valid() && 0 <= sx < width && 0 <= sy < height && (sx, sy) != (px, py)
      requires -(W / 2) <= sx - px <= W / 2 && -(H / 2) <= sy - py <= H / 2
      ensures 0 <= sy * width + sx < |level|
      ensures var x, y := sx - px + W / 2, sy - py + H / 2;
        0 <= x < W && 0 <= y < H && Color(px, py, x, y, true) == level[sy * width + sx]
    {
      CellIndex(width, height, sx, sy);
    }

    /** The player is shown at the centre; a cell of the window that lies
        outside the level is empty. */
    lemma WindowFrame(px: int, py: int, x: int, y: int)
      requires Valid() && 0 <= x < W && 0 <= y < H
      ensures Color(px, py, W / 2, H / 2, true) == COLOR_PLAYER
      ensures var sx, sy := px - W / 2 + x, py - H / 2 + y;
        !(0 <= sx < width && 0 <= sy < height) && (x, y) != (W / 2, H / 2) ==> Color(px, py, x, y, true) == COLOR_NONE
    {
    }

    /** `centered_what`: the colour of the window's cell (x, y), or the
        message for a cell outside the window. */
    method What(d: Player, x: int, y: int) returns (r: Answer<int>)
      requires Valid()
      ensures (x < 0 || x >= W || y < 0 || y >= H) <==> r == Refused(OutOfMaze)
      ensures r.Answered? ==> r.value == Color(d.x, d.y, x, y, true) as int
    {
      if x < 0 || x >= W || y < 0 || y >= H {
        return Refused(OutOfMaze);
      }
      r := Answered(Color(d.x, d.y, x, y, true) as int);
    }

    /** `centered_maze`: the window filled row by row with the colours of
        its cells, the player at the centre; `What` answers the same for
        every cell. */
    method Maze(d: Player) returns (res: array<byte>, len: int)
      requires Valid()
      modifies window
      ensures res == window && len == W * H
      ensures forall x, y :: 0 <= x < W && 0 <= y < H ==> window[Slot(x, y)] == Color(d.x, d.y, x, y, true)
    {
      var y := 0;
      while y < H
        invariant 0 <= y <= H
        invariant forall x', y' :: 0 <= x' < W && 0 <= y' < y ==> window[Slot(x', y')] == Color(d.x, d.y, x', y', true)
      {
        var x := 0;
        while x < W
          invariant 0 <= x <= W
          invariant forall x', y' :: 0 <= x' < W && 0 <= y' < y ==> window[Slot(x', y')] == Color(d.x, d.y, x', y', true)
          invariant forall x' :: 0 <= x' < x ==> window[Slot(x', y)] == Color(d.x, d.y, x', y, true)
        {
          window[Slot(x, y)] := Color(d.x, d.y, x, y, true);
          x := x + 1;
        }
        y := y + 1;
      }
      return window, W * H;
    }

    /** `centered_get_x` and `centered_get_y`: the player is always at the
        centre of the window. */
    method GetX(d: Player) returns (r: Answer<int>)
      ensures r == Answered(W / 2) && r.value == 16
    {
      r := Answered(W / 2);
    }

    method GetY(d: Player) returns (r: Answer<int>)
      ensures r == Answered(H / 2) && r.value == 16
    {
      r := Answered(H / 2);
    }

    /** `centered_get_w` and `centered_get_h`: the size of the window, not
        of the level. */
    method GetW(d: Player) returns (r: Answer<int>)
      ensures r == Answered(W)
    {
      r := Answered(W);
    }

    method GetH(d: Player) returns (r: Answer<int>)
      ensures r == Answered(H)
    {
      r := Answered(H);
    }
  }
}
