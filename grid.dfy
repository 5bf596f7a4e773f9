/** The grid helper of server/levels/grid.c: a level of `width` by
    `height` cells given row by row, the list of players, and the moves
    of a player by one cell, with or without turning on the spot. */
module Grid {
  import opened Prelude
  import opened CInt
  import opened Level

  /** The direction a player facing `angle` steps in: 0 is up, 90 left,
      180 down and 270 right; at any other angle the player does not
      step at all. */
  function AngleStep(angle: int): (int, int) {
    if angle == 0 then (0, -1)
    else if angle == 90 then (-1, 0)
    else if angle == 180 then (0, 1)
    else if angle == 270 then (1, 0)
    else (0, 0)
  }

  /** The key that steps in the direction a player facing `angle` faces. */
  function AngleKey(angle: int): char {
    if angle == 0 then 'w' else if angle == 90 then 'a' else if angle == 180 then 's' else 'd'
  }

  /** A turn to the left ('a') or to the right ('d'), with C's remainder. */
  function Turned(angle: int, c: char): int
    requires c == 'a' || c == 'd'
  {
    if c == 'a' then CRem(angle + 90, 360) else CRem(angle + 270, 360)
  }

  /** The level data and the players of `grid_init`. */
  class GridLevel {
    const width: int
    const height: int
    const startX: int
    const startY: int
    const level: seq<byte>
    /** `grid_players`, in list order. */
    var players: seq<Player>
    /** Whether a move-commit callback is set. */
    var commitCb: bool
    /** How many times the move-commit callback was called. */
    var commits: nat

    predicate Valid() {
      0 <= width && 0 <= height && |level| == width * height
    }

    /** `grid_init`: the level data is `width` by `height` cells. */
    constructor (width: int, height: int, level: seq<byte>, startX: int, startY: int)
      requires 0 <= width && 0 <= height && |level| == width * height
      ensures Valid() && this.width == width && this.height == height && this.level == level
      ensures this.startX == startX && this.startY == startY
      ensures players == [] && !commitCb && commits == 0
    {
      this.width, this.height, this.level := width, height, level;
      this.startX, this.startY := startX, startY;
      players, commitCb, commits := [], false, 0;
    }

    /** `grid_set_move_commit`. */
    method SetMoveCommit(on: bool)
      modifies this`commitCb
      ensures commitCb == on
    {
      commitCb := on;
    }

    predicate Inside(x: int, y: int) {
      0 <= x < width && 0 <= y < height
    }

    /** The colour of the cell (x, y). */
    function Cell(x: int, y: int): byte
      requires Valid() && Inside(x, y)
    {
      CellIndex(width, height, x, y);
      level[y * width + x]
    }

    /** A step by (dx, dy) from (x, y): out of the level, or onto a cell. */
    function StepVerdict(x: int, y: int, dx: int, dy: int): Verdict
      requires Valid()
    {
      var nx, ny := x + dx, y + dy;
      if !Inside(nx, ny) then Bump(OutOfMaze) else CellVerdict(Cell(nx, ny), nx, ny)
    }

    /** What `grid_try_move` makes of key `c` for a player at (x, y). */
    function Verdict(x: int, y: int, c: char): (v: Verdict)
      requires Valid()
      ensures v.Walk? || v.Other? ==> Adjacent(x, y, v.x, v.y) && Inside(v.x, v.y)
      ensures v.Treasure? ==> c in "wsad"
      ensures !v.Turn?
    {
      match KeyStep(c)
      case None => Bump(UnknownMove)
      case Some((dx, dy)) => StepVerdict(x, y, dx, dy)
    }

    /** What `grid_try_o_move` makes of key `c` for a player at (x, y)
        facing `angle`: 'w' steps forward, 'a' and 'd' turn. */
    function OVerdict(x: int, y: int, angle: int, c: char): (v: Verdict)
      requires Valid()
      ensures v.Turn? <==> c == 'a' || c == 'd'
      ensures c != 'w' && c != 'a' && c != 'd' ==> v == Bump(UnknownMove)
    {
      if c == 'w' then StepVerdict(x, y, AngleStep(angle).0, AngleStep(angle).1)
      else if c == 'a' || c == 'd' then Turn(Turned(angle, c))
      else Bump(UnknownMove)
    }

    /** `grid_get_data`: a new player at the start position, appended to
        the list. */
    method GetData() returns (d: Player)
      modifies this`players
      ensures fresh(d) && d.x == startX && d.y == startY && d.angle == 0
      ensures players == old(players) + [d]
    {
      d := new Player(startX, startY);
      players := players + [d];
    }

    /** `grid_free_data`: unlinks the player's node; the others keep their
        order. The player must be on the list. */
    method FreeData(d: Player)
      requires d in players
      modifies this`players
      ensures players == RemoveFirst(old(players), d)
      ensures |players| == |old(players)| - 1 && multiset(players) == multiset(old(players)) - multiset{d}
    {
      var k := 0;
      while players[k] != d
        invariant k < |players| && d !in players[..k] && d in players[k..]
        decreases |players| - k
      {
        assert players[..k + 1] == players[..k] + [players[k]];
        k := k + 1;
      }
      RemoveFirstAt(players, d, k);
      players := players[..k] + players[k + 1..];
    }

    /** The effect of a verdict on the player: a walk moves it, a turn
        turns it; the callback is told of either. */
    method Apply(d: Player, v: Verdict)
      modifies d, this`commits
      ensures v.Walk? ==> d.x == v.x && d.y == v.y
      ensures !v.Walk? ==> d.x == old(d.x) && d.y == old(d.y)
      ensures d.angle == if v.Turn? then v.angle else old(d.angle)
      ensures commits == old(commits) + if (v.Walk? || v.Turn?) && commitCb then 1 else 0
    {
      if v.Walk? {
        d.x, d.y := v.x, v.y;
      } else if v.Turn? {
        d.angle := v.angle;
      }
      if (v.Walk? || v.Turn?) && commitCb {
        commits := commits + 1;
      }
    }

    /** `grid_try_move`: true when the player walked; `win` with the
        treasure; the message of a refusal or of the win; the target cell
        when it holds something else for the level to handle. */
    method TryMove(d: Player, c: char) returns (ok: bool, win: bool, err: Option<AMsg>, target: Option<(int, int)>)
      requires Valid()
      modifies d, this`commits
      ensures var v := Verdict(old(d.x), old(d.y), c);
        && ok == v.Walk? && win == v.Treasure?
        && err == (if v.Bump? then Some(v.err) else if v.Treasure? then Some(Win) else None)
        && target == (if v.Other? then Some((v.x, v.y)) else None)
        && (d.x, d.y) == (if v.Walk? then (v.x, v.y) else old((d.x, d.y)))
        && d.angle == old(d.angle)
        && commits == old(commits) + if v.Walk? && commitCb then 1 else 0
    {
      var nx, ny := d.x, d.y;
      win, err, target := false, None, None;
      if c == 'w' {
        ny := ny - 1;
      } else if c == 's' {
        ny := ny + 1;
      } else if c == 'a' {
        nx := nx - 1;
      } else if c == 'd' {
        nx := nx + 1;
      } else {
        return false, false, Some(UnknownMove), None;
      }
      if nx < 0 || nx >= width || ny < 0 || ny >= height {
        return false, false, Some(OutOfMaze), None;
      }
      CellIndex(width, height, nx, ny);
      var col := level[ny * width + nx];
      if col == COLOR_NONE {
        Apply(d, Walk(nx, ny));
        ok := true;
      } else if col == COLOR_WALL {
        ok, err := false, Some(WallHit);
      } else if col == COLOR_TREASURE {
        ok, win, err := false, true, Some(Win);
      } else {
        ok, target := false, Some((nx, ny));
      }
    }

    /** `grid_try_o_move`: like `grid_try_move`, except that 'w' steps in
        the direction the player faces and 'a'/'d' turn it by 90 degrees
        to the left/right, which counts as a move. */
    method TryOMove(d: Player, c: char) returns (ok: bool, win: bool, err: Option<AMsg>, target: Option<(int, int)>)
      requires Valid()
      modifies d, this`commits
      ensures var v := OVerdict(old(d.x), old(d.y), old(d.angle), c);
        && ok == (v.Walk? || v.Turn?) && win == v.Treasure?
        && err == (if v.Bump? then Some(v.err) else if v.Treasure? then Some(Win) else None)
        && target == (if v.Other? then Some((v.x, v.y)) else None)
        && (d.x, d.y) == (if v.Walk? then (v.x, v.y) else old((d.x, d.y)))
        && d.angle == (if v.Turn? then v.angle else old(d.angle))
        && commits == old(commits) + if (v.Walk? || v.Turn?) && commitCb then 1 else 0
    {
      var nx, ny := d.x, d.y;
      win, err, target := false, None, None;
      if c == 'a' || c == 'd' {
        Apply(d, Turn(Turned(d.angle, c)));
        return true, false, None, None;
      } else if c != 'w' {
        return false, false, Some(UnknownMove), None;
      }
      if d.angle == 0 {
        ny := ny - 1;
      } else if d.angle == 90 {
        nx := nx - 1;
      } else if d.angle == 180 {
        ny := ny + 1;
      } else if d.angle == 270 {
        nx := nx + 1;
      }
      if nx < 0 || nx >= width || ny < 0 || ny >= height {
        return false, false, Some(OutOfMaze), None;
      }
      CellIndex(width, height, nx, ny);
      var col := level[ny * width + nx];
      if col == COLOR_NONE {
        Apply(d, Walk(nx, ny));
        ok := true;
      } else if col == COLOR_WALL {
        ok, err := false, Some(WallHit);
      } else if col == COLOR_TREASURE {
        ok, win, err := false, true, Some(Win);
      } else {
        ok, target := false, Some((nx, ny));
      }
    }

    /** `grid_move`: no message after a move, otherwise the message of
        the attempt, the wall message when it set none. */
    method Move(d: Player, c: char) returns (err: Option<AMsg>, win: bool)
      requires Valid()
      modifies d, this`commits
      ensures (err, win) == MoveReply(Verdict(old(d.x), old(d.y), c))
      ensures var v := Verdict(old(d.x), old(d.y), c);
        && (d.x, d.y) == (if v.Walk? then (v.x, v.y) else old((d.x, d.y)))
        && d.angle == old(d.angle)
        && commits == old(commits) + if v.Walk? && commitCb then 1 else 0
    {
      var ok, e: Option<AMsg>, target;
      ok, win, e, target := TryMove(d, c);
      if ok {
        return None, win;
      }
      err := if e.None? then Some(WallHit) else e;
    }

    /** `grid_o_move`: the same for `grid_try_o_move`. */
    method OMove(d: Player, c: char) returns (err: Option<AMsg>, win: bool)
      requires Valid()
      modifies d, this`commits
      ensures (err, win) == MoveReply(OVerdict(old(d.x), old(d.y), old(d.angle), c))
      ensures var v := OVerdict(old(d.x), old(d.y), old(d.angle), c);
        && (d.x, d.y) == (if v.Walk? then (v.x, v.y) else old((d.x, d.y)))
        && d.angle == (if v.Turn? then v.angle else old(d.angle))
        && commits == old(commits) + if (v.Walk? || v.Turn?) && commitCb then 1 else 0
    {
      var ok, e: Option<AMsg>, target;
      ok, win, e, target := TryOMove(d, c);
      if ok {
        return None, win;
      }
      err := if e.None? then Some(WallHit) else e;
    }

    // -------------------------------------------------------------------
    // The rules of a move

    /** A player walks exactly when the key is a movement and the cell it
        leads to lies in the level and is empty; that cell is next to the
        player's. */
    lemma WalkRule(x: int, y: int, c: char)
      requires Valid()
      ensures var v := Verdict(x, y, c);
        v.Walk? <==>
          (c in "wsad" && var (dx, dy) := KeyStep(c).value;
           Inside(x + dx, y + dy) && Cell(x + dx, y + dy) == COLOR_NONE)
      ensures var v := Verdict(x, y, c);
        v.Walk? ==> Inside(v.x, v.y) && Adjacent(x, y, v.x, v.y)
    {
    }

    /** A key that is not a movement is refused as unknown, and only such
        a key; a movement out of the level is refused as such. */
    lemma RefusalRule(x: int, y: int, c: char)
      requires Valid()
      ensures Verdict(x, y, c) == Bump(UnknownMove) <==> c !in "wsad"
      ensures Verdict(x, y, c) == Bump(OutOfMaze) <==>
        (c in "wsad" && !Inside(x + KeyStep(c).value.0, y + KeyStep(c).value.1))
    {
    }

    /** Stepping forward is the movement key of the direction the player
        faces. */
    lemma ForwardIsKey(x: int, y: int, angle: int)
      requires Valid() && angle in {0, 90, 180, 270}
      ensures OVerdict(x, y, angle, 'w') == Verdict(x, y, AngleKey(angle))
    {
    }

    /** Facing none of the four directions, a player stepping forward
        stays where it is: the cell it stands on decides the verdict. */
    lemma ForwardInPlace(x: int, y: int, angle: int)
      requires Valid() && angle !in {0, 90, 180, 270} && Inside(x, y)
      ensures OVerdict(x, y, angle, 'w') == CellVerdict(Cell(x, y), x, y)
    {
    }
  }

  /** A turn from an angle in [0, 360) lands in [0, 360) again. */
  lemma TurnedInRange(angle: int, c: char)
    requires 0 <= angle < 360 && (c == 'a' || c == 'd')
    ensures var n := angle + (if c == 'a' then 90 else 270);
      Turned(angle, c) == if n < 360 then n else n - 360
  {
    var n := angle + (if c == 'a' then 90 else 270);
    assert CDiv(n, 360) == n / 360;
    if n < 360 { assert n / 360 == 0; } else { assert n / 360 == 1; }
  }

  /** A turn to the left undoes a turn to the right and the other way
      round. */
  lemma TurnsUndo(angle: int)
    requires 0 <= angle < 360
    ensures Turned(Turned(angle, 'a'), 'd') == angle && Turned(Turned(angle, 'd'), 'a') == angle
  {
    TurnedInRange(angle, 'a');
    TurnedInRange(angle, 'd');
    TurnedInRange(Turned(angle, 'a'), 'd');
    TurnedInRange(Turned(angle, 'd'), 'a');
  }

  /** Four turns the same way face the player where it faced. */
  lemma FullCircle(angle: int)
    requires 0 <= angle < 360
    ensures Turned(Turned(Turned(Turned(angle, 'a'), 'a'), 'a'), 'a') == angle
  {
    var a1 := Turned(angle, 'a');
    TurnedInRange(angle, 'a');
    var a2 := Turned(a1, 'a');
    TurnedInRange(a1, 'a');
    var a3 := Turned(a2, 'a');
    TurnedInRange(a2, 'a');
    TurnedInRange(a3, 'a');
  }

  /** A player facing one of the four directions faces one of them after
      a turn. */
  lemma TurnsKeepDirections(angle: int, c: char)
    requires (angle == 0 || angle == 90 || angle == 180 || angle == 270) && (c == 'a' || c == 'd')
    ensures var t := Turned(angle, c); t == 0 || t == 90 || t == 180 || t == 270
  {
    TurnedInRange(angle, c);
  }
}
