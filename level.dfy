/** What the level helpers (server/levels/grid.c, simple.c, centered.c)
    share: the colours of the cells (server/level.h), the messages of a
    refused move (server/proto_msg.h), the private data of a player, and
    the rules that turn a key and the cell it leads to into a verdict. */
module Level {
  import opened Prelude
  import opened CInt

  /** The colours of a level cell. `COLOR_TREASURE` is not among the
      colours server/level.h declares; its value is the one the Python
      levels use (server/pylevels/mazec.py). */
  const COLOR_NONE: byte := 0
  const COLOR_PLAYER: byte := 1
  const COLOR_WALL: byte := 2
  const COLOR_TREASURE: byte := 3

  /** The messages a level callback answers with. */
  datatype AMsg = Win | OutOfMaze | UnknownMove | WallHit

  function AText(m: AMsg): seq<char> {
    match m
    case Win => "Vyborne! Blahoprejeme k dokonceni ulohy."
    case OutOfMaze => "Misto se nachazi mimo hraci plochu."
    case UnknownMove => "Neznamy smer pohybu."
    case WallHit => "Tim smerem je zed."
  }

  /** A callback's answer: `NULL` and a value, or a message. */
  datatype Answer<T> = Refused(why: AMsg) | Answered(value: T)

  /** The private data of one connection (`struct grid_data`,
      `struct simple_data`, `struct centered_data`): where the player
      stands and where it faces. */
  class Player {
    var x: int
    var y: int
    var angle: int

    /** `szalloc` of the private data and the start position. */
    constructor (x: int, y: int)
      ensures this.x == x && this.y == y && angle == 0
    {
      this.x, this.y, angle := x, y, 0;
    }
  }

  /** The positions of the players, in list order. */
  function Positions(ps: seq<Player>): (r: seq<(int, int)>)
    reads ps
    ensures |r| == |ps| && forall i :: 0 <= i < |ps| ==> r[i] == (ps[i].x, ps[i].y)
  {
    if ps == [] then [] else Positions(ps[..|ps| - 1]) + [(ps[|ps| - 1].x, ps[|ps| - 1].y)]
  }

  /** A cell inside a `w` by `h` level has its index, row by row, inside
      the level data. */
  lemma CellIndex(w: int, h: int, x: int, y: int)
    requires 0 <= x < w && 0 <= y < h
    ensures 0 <= y * w + x < w * h
  {
    MulGap(h, y, w);
    if y > 0 { MulAtLeast(y, w); }
    assert w * h == h * w;
  }

  /** Distinct cells of a level have distinct indices. */
  lemma CellIndexUnique(w: int, x: int, y: int, x2: int, y2: int)
    requires 0 <= x < w && 0 <= x2 < w && y * w + x == y2 * w + x2
    ensures x == x2 && y == y2
  {
    if y < y2 {
      MulGap(y2, y, w);
    } else if y2 < y {
      MulGap(y, y2, w);
    }
  }

  /** The direction of a movement key: 'w' up, 's' down, 'a' left and
      'd' right; any other key is not a movement. */
  function KeyStep(c: char): (r: Option<(int, int)>)
    ensures r.Some? <==> c in "wsad"
    ensures r.Some? ==> Adjacent(0, 0, r.value.0, r.value.1)
  {
    if c == 'w' then Some((0, -1))
    else if c == 's' then Some((0, 1))
    else if c == 'a' then Some((-1, 0))
    else if c == 'd' then Some((1, 0))
    else None
  }

  predicate Adjacent(x: int, y: int, nx: int, ny: int) {
    (nx == x && (ny == y - 1 || ny == y + 1)) || (ny == y && (nx == x - 1 || nx == x + 1))
  }

  /** What a move attempt comes to: the player walks to an empty cell, is
      refused with a message, reaches the treasure, finds a cell of
      another colour for the level to handle, or turns on the spot. */
  datatype Verdict = Walk(x: int, y: int) | Bump(err: AMsg) | Treasure | Other(x: int, y: int) | Turn(angle: int)

  /** The verdict on stepping onto the cell (nx, ny) of colour `col`. */
  function CellVerdict(col: byte, nx: int, ny: int): (v: Verdict)
    ensures v.Walk? <==> col == COLOR_NONE
    ensures v.Treasure? <==> col == COLOR_TREASURE
    ensures v.Bump? <==> col == COLOR_WALL
    ensures v.Walk? || v.Other? ==> v.x == nx && v.y == ny
    ensures v.Bump? ==> v.err == WallHit
  {
    if col == COLOR_NONE then Walk(nx, ny)
    else if col == COLOR_WALL then Bump(WallHit)
    else if col == COLOR_TREASURE then Treasure
    else Other(nx, ny)
  }

  /** `grid_move`, `grid_o_move` and `simple_move`: no message when the
      player moved or turned, the winning message with the treasure, the
      refusal's message, and the wall message for a cell the helper leaves
      to the level. The second component is `*win`. */
  function MoveReply(v: Verdict): (r: (Option<AMsg>, bool))
    ensures r.1 <==> v.Treasure?
    ensures r.0 == None <==> v.Walk? || v.Turn?
    ensures r.1 ==> r.0 == Some(Win)
  {
    match v
    case Walk(_, _) => (None, false)
    case Turn(_) => (None, false)
    case Bump(err) => (Some(err), false)
    case Treasure => (Some(Win), true)
    case Other(_, _) => (Some(WallHit), false)
  }
}
