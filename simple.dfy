/** The simple-level helper of server/levels/simple.c: a level of
    `width` by `height` cells given row by row, any number of players,
    and a 33 by 33 viewport that follows them. */
module Simple {
  import opened Prelude
  import opened CInt
  import opened Level
  import Draw

  /** How close to the edge of the viewport a player may come before the
      viewport moves to keep a margin. */
  const BORDER: int := 5
  const W: int := Draw.DRAW_MOD_WIDTH
  const H: int := Draw.DRAW_MOD_HEIGHT

  // ---------------------------------------------------------------------
  // find_max

  /** The lowest index holding the largest value (0 for no values). */
  function ArgMax(s: seq<int>): (r: nat)
    ensures |s| > 0 ==> r < |s|
    ensures |s| == 0 ==> r == 0
  {
    if |s| <= 1 then 0
    else
      var r := ArgMax(s[..|s| - 1]);
      if s[|s| - 1] > s[r] then |s| - 1 else r
  }

  lemma {:induction false} ArgMaxIsLowestMax(s: seq<int>)
    requires |s| > 0
    ensures forall j :: 0 <= j < |s| ==> s[j] <= s[ArgMax(s)]
    ensures forall j :: 0 <= j < ArgMax(s) ==> s[j] < s[ArgMax(s)]
  {
    if |s| > 1 {
      var init := s[..|s| - 1];
      ArgMaxIsLowestMax(init);
      assert forall j :: 0 <= j < |init| ==> init[j] == s[j];
    }
  }

  /** `find_max`: one pass keeping the largest value seen and where it
      was first seen. */
  method FindMax(data: seq<int>) returns (res: nat)
    requires forall i :: 0 <= i < |data| ==> IsInt32(data[i])
    ensures res == ArgMax(data)
  {
    var max := INT_MIN;
    res := 0;
    var i := 0;
    while i < |data|
      invariant 0 <= i <= |data|
      invariant res == ArgMax(data[..i])
      invariant i == 0 ==> max == INT_MIN
      invariant i > 0 ==> res < i && max == data[res]
    {
      assert data[..i + 1][..i] == data[..i];
      if data[i] > max {
        max := data[i];
        res := i;
      }
      i := i + 1;
    }
    assert data[..i] == data;
  }

  // ---------------------------------------------------------------------
  // The viewport, as values

  /** How the number of players in view changes per player when the
      viewport, at `o` along one axis and `size` cells long, moves
      towards lower (first) or higher (second) coordinates: the player
      leaves at the far edge or comes in from just outside the near one. */
  function EdgeAxis(v: int, o: int, size: int): (r: (int, int))
    ensures -1 <= r.0 <= 1 && -1 <= r.1 <= 1
  {
    var lower := if v == o + size - 1 then -1 else if v == o - 1 then 1 else 0;
    var higher := if v == o + size - 1 || v == o - 1 then 0 else if v == o then -1 else if v == o + size then 1 else 0;
    (lower, higher)
  }

  /** How a move along one axis changes the margin of a player in view:
      a player within `BORDER` of an edge asks for a move away from it. */
  function MarginAxis(v: int, o: int, size: int): (r: (int, int))
    ensures -1 <= r.0 <= 1 && -1 <= r.1 <= 1
  {
    var lower := (if v < o + BORDER then 1 else 0) - (if v >= o + size - 1 - BORDER then 1 else 0);
    var higher := (if v > o + size - 1 - BORDER then 1 else 0) - (if v <= o + BORDER then 1 else 0);
    (lower, higher)
  }

  /** Counts for the moves of the viewport up, down, left and right. */
  datatype Shifts = Shifts(up: int, down: int, left: int, right: int)

  /** The counts as `int shifts[4]`. */
  function Entries(s: Shifts): (r: seq<int>)
    ensures |r| == 4
  {
    [s.up, s.down, s.left, s.right]
  }

  function Plus(a: Shifts, b: Shifts): Shifts {
    Shifts(a.up + b.up, a.down + b.down, a.left + b.left, a.right + b.right)
  }

  predicate Within(s: Shifts, n: int) {
    -n <= s.up <= n && -n <= s.down <= n && -n <= s.left <= n && -n <= s.right <= n
  }

  /** The counts of one player at `p` for the viewport at (ox, oy): the
      edge counts, or the margin counts of a player in view. */
  function Count(p: (int, int), ox: int, oy: int, border: bool): (r: Shifts)
    ensures Within(r, 1)
  {
    var (x, y) := p;
    if !border then
      var (up, down) := EdgeAxis(y, oy, H);
      var (left, right) := EdgeAxis(x, ox, W);
      Shifts(up, down, left, right)
    else if x < ox || x >= ox + W || y < oy || y >= oy + H then Shifts(0, 0, 0, 0)
    else
      var (up, down) := MarginAxis(y, oy, H);
      var (left, right) := MarginAxis(x, ox, W);
      Shifts(up, down, left, right)
  }

  /** The counts of the players `ps` added up. */
  function Tally(ps: seq<(int, int)>, ox: int, oy: int, border: bool): Shifts
  {
    if ps == [] then Shifts(0, 0, 0, 0)
    else Plus(Tally(ps[..|ps| - 1], ox, oy, border), Count(ps[|ps| - 1], ox, oy, border))
  }

  lemma TallyNext(ps: seq<(int, int)>, i: nat, ox: int, oy: int, border: bool)
    requires i < |ps|
    ensures Tally(ps[..i + 1], ox, oy, border) == Plus(Tally(ps[..i], ox, oy, border), Count(ps[i], ox, oy, border))
  {
    assert ps[..i + 1][..i] == ps[..i];
  }

  /** Counts within `INT_MAX` fit the C `int`s of `find_max`. */
  lemma EntriesFit(s: Shifts, n: int)
    requires Within(s, n) && n <= INT_MAX
    ensures forall i :: 0 <= i < |Entries(s)| ==> IsInt32(Entries(s)[i])
  {
    var e := Entries(s);
    assert e[0] == s.up && e[1] == s.down && e[2] == s.left && e[3] == s.right;
  }

  /** No count goes beyond the number of players. */
  lemma {:induction false} TallyBounded(ps: seq<(int, int)>, ox: int, oy: int, border: bool)
    ensures Within(Tally(ps, ox, oy, border), |ps|)
  {
    if ps != [] {
      TallyBounded(ps[..|ps| - 1], ox, oy, border);
    }
  }

  /** The count of direction `k`. */
  function At(s: Shifts, k: int): int {
    if k == 0 then s.up else if k == 1 then s.down else if k == 2 then s.left else s.right
  }

  /** The first direction with the largest count. */
  function Best(s: Shifts): (k: int)
    ensures 0 <= k < 4
  {
    var k1 := if s.down > s.up then 1 else 0;
    var k2 := if s.left > At(s, k1) then 2 else k1;
    if s.right > At(s, k2) then 3 else k2
  }

  /** `find_max` over the four counts picks `Best`. */
  lemma BestIsArgMax(s: Shifts)
    ensures ArgMax(Entries(s)) == Best(s) && Entries(s)[Best(s)] == At(s, Best(s))
  {
    var e := Entries(s);
    var k1 := if s.down > s.up then 1 else 0;
    var k2 := if s.left > At(s, k1) then 2 else k1;
    assert e[..2][..1] == e[..1] && e[..3][..2] == e[..2] && e[..3] == e[..|e| - 1];
    assert ArgMax(e[..1]) == 0;
    assert ArgMax(e[..2]) == k1;
    assert ArgMax(e[..3]) == k2;
    assert e[k2] == At(s, k2);
  }

  /** A pass's counts fit the C `int`s of `find_max`, which picks `Best`. */
  lemma PassFits(ps: seq<(int, int)>, ox: int, oy: int, border: bool)
    requires |ps| <= INT_MAX
    ensures var t := Tally(ps, ox, oy, border);
      && (forall i :: 0 <= i < |Entries(t)| ==> IsInt32(Entries(t)[i]))
      && ArgMax(Entries(t)) == Best(t) && Entries(t)[Best(t)] == At(t, Best(t))
  {
    var t := Tally(ps, ox, oy, border);
    TallyBounded(ps, ox, oy, border);
    EntriesFit(t, |ps|);
    BestIsArgMax(t);
  }

  /** Where the viewport moves: the direction that brings the most
      players into view; when none does, the direction that gives the
      players in view the best margin; otherwise nowhere (-1). */
  function Direction(ps: seq<(int, int)>, ox: int, oy: int): (dir: int)
    ensures -1 <= dir < 4
  {
    var first := Tally(ps, ox, oy, false);
    if At(first, Best(first)) > 0 then Best(first)
    else
      var second := Tally(ps, ox, oy, true);
      if At(second, Best(second)) > 0 then Best(second) else -1
  }

  /** Players away from every edge of the viewport by more than the
      margin contribute nothing to either count. */
  predicate Comfortable(p: (int, int), ox: int, oy: int) {
    ox + BORDER < p.0 < ox + W - 1 - BORDER && oy + BORDER < p.1 < oy + H - 1 - BORDER
  }

  lemma ComfortableCountZero(p: (int, int), ox: int, oy: int, border: bool)
    requires Comfortable(p, ox, oy)
    ensures Count(p, ox, oy, border) == Shifts(0, 0, 0, 0)
  {
  }

  lemma {:induction false} ComfortableTallyZero(ps: seq<(int, int)>, ox: int, oy: int, border: bool)
    requires forall i :: 0 <= i < |ps| ==> Comfortable(ps[i], ox, oy)
    ensures Tally(ps, ox, oy, border) == Shifts(0, 0, 0, 0)
  {
    if ps != [] {
      var init := ps[..|ps| - 1];
      assert forall i :: 0 <= i < |init| ==> init[i] == ps[i];
      ComfortableTallyZero(init, ox, oy, border);
      ComfortableCountZero(ps[|ps| - 1], ox, oy, border);
    }
  }

  /** A viewport with every player well inside it stays where it is. */
  lemma ComfortableStays(ps: seq<(int, int)>, ox: int, oy: int)
    requires forall i :: 0 <= i < |ps| ==> Comfortable(ps[i], ox, oy)
    ensures Direction(ps, ox, oy) == -1
  {
    ComfortableTallyZero(ps, ox, oy, false);
    ComfortableTallyZero(ps, ox, oy, true);
  }

  /** A lone player just above the viewport, and not at its side edges,
      pulls it up by one row. */
  lemma FollowsUp(x: int, ox: int, oy: int)
    requires ox < x < ox + W - 1
    ensures Direction([(x, oy - 1)], ox, oy) == 0
  {
    var ps := [(x, oy - 1)];
    assert ps[..0] == [];
    JustAbove(x, ox, oy);
    assert Tally(ps, ox, oy, false) == Shifts(1, 0, 0, 0);
  }

  lemma JustAbove(x: int, ox: int, oy: int)
    requires ox < x < ox + W - 1
    ensures Count((x, oy - 1), ox, oy, false) == Shifts(1, 0, 0, 0)
  {
    assert EdgeAxis(oy - 1, oy, H) == (1, 0);
    assert EdgeAxis(x, ox, W) == (0, 0);
  }

  /** Every position lies in a `w` by `h` level. */
  predicate AllInside(ps: seq<(int, int)>, w: int, h: int) {
    forall j :: 0 <= j < |ps| ==> 0 <= ps[j].0 < w && 0 <= ps[j].1 < h
  }

  /** The level with every player's cell painted in the player colour. */
  function Painted(level: seq<byte>, w: int, h: int, ps: seq<(int, int)>): (r: seq<byte>)
    requires |level| == w * h && AllInside(ps, w, h)
    ensures |r| == |level|
  {
    if ps == [] then level
    else
      var p := ps[|ps| - 1];
      CellIndex(w, h, p.0, p.1);
      Painted(level, w, h, ps[..|ps| - 1])[p.1 * w + p.0 := COLOR_PLAYER]
  }

  /** A cell of the painted level holds the player colour when a player
      stands on it, and the level's own colour otherwise. */
  lemma {:induction false} PaintedCell(level: seq<byte>, w: int, h: int, ps: seq<(int, int)>, x: int, y: int)
    requires |level| == w * h && AllInside(ps, w, h) && 0 <= x < w && 0 <= y < h
    ensures 0 <= y * w + x < |level|
    ensures Painted(level, w, h, ps)[y * w + x] == if (x, y) in ps then COLOR_PLAYER else level[y * w + x]
  {
    CellIndex(w, h, x, y);
    if ps != [] {
      var init := ps[..|ps| - 1];
      assert forall j :: 0 <= j < |init| ==> init[j] == ps[j];
      PaintedCell(level, w, h, init, x, y);
      var p := ps[|ps| - 1];
      CellIndex(w, h, p.0, p.1);
      if p.1 * w + p.0 == y * w + x {
        CellIndexUnique(w, p.0, p.1, x, y);
      }
      assert ps == init + [p];
    }
  }

  /** The positions `ps` of the players `ds` after player `d` moved to `p`. */
  function Relocated(ps: seq<(int, int)>, ds: seq<Player>, d: Player, p: (int, int)): (r: seq<(int, int)>)
    requires |ps| == |ds|
    ensures |r| == |ps| && forall i :: 0 <= i < |r| ==> r[i] == if ds[i] == d then p else ps[i]
  {
    seq(|ps|, i requires 0 <= i < |ps| => if ds[i] == d then p else ps[i])
  }

  /** The simple level: its data, the copy `simple_maze` paints, the
      players and the viewport's origin. */
  class SimpleLevel {
    const width: int
    const height: int
    const startX: int
    const startY: int
    const level: seq<byte>
    const levelCopy: array<byte>
    /** `first`, in list order. */
    var players: seq<Player>
    var originX: int
    var originY: int
    /** How many times `level_dirty` was called. */
    var dirty: nat

    predicate Valid() {
      0 <= width && 0 <= height && |level| == width * height && levelCopy.Length == width * height
    }

    /** Every player stands on a cell of the level. */
    predicate PlayersInLevel()
      reads this, players
    {
      forall i :: 0 <= i < |players| ==> 0 <= players[i].x < width && 0 <= players[i].y < height
    }

    /** `simple_init`: the viewport starts with the start position at its
        centre. */
    constructor (width: int, height: int, level: seq<byte>, startX: int, startY: int)
      requires 0 <= width && 0 <= height && |level| == width * height
      ensures Valid() && this.width == width && this.height == height && this.level == level
      ensures this.startX == startX && this.startY == startY && fresh(levelCopy)
      ensures players == [] && dirty == 0
      ensures originX == startX - (W + 1) / 2 && originY == startY - (H + 1) / 2
    {
      this.width, this.height, this.level := width, height, level;
      this.startX, this.startY := startX, startY;
      levelCopy := new byte[width * height];
      players, dirty := [], 0;
      originX, originY := startX - (W + 1) / 2, startY - (H + 1) / 2;
    }

    /** The index of the cell (x, y) in the level data. */
    function Index(x: int, y: int): (i: int)
      requires Valid() && 0 <= x < width && 0 <= y < height
      ensures 0 <= i < |level|
    {
      CellIndex(width, height, x, y);
      y * width + x
    }

    /** What `simple_what` answers about the cell (x, y) with the players
        at `ps`. */
    function Look(x: int, y: int, ps: seq<(int, int)>): (r: Answer<int>)
      requires Valid()
    {
      if x < 0 || x >= width || y < 0 || y >= height then Refused(OutOfMaze)
      else if (x, y) in ps then Answered(COLOR_PLAYER as int)
      else Answered(level[Index(x, y)] as int)
    }

    /** Where the viewport at (ox, oy) goes with the players at `ps`: one
        row or column in the chosen direction, unless that would take it
        past the top or left edge of the level, or past the bottom or
        right edge by more than the level allows. */
    function Viewport(ps: seq<(int, int)>, ox: int, oy: int): (r: (int, int))
      ensures 0 <= ox <= width - W ==> 0 <= r.0 <= width - W
      ensures 0 <= oy <= height - H ==> 0 <= r.1 <= height - H
    {
      Shifted(Direction(ps, ox, oy), ox, oy)
    }

    /** The origin (ox, oy) moved in direction `dir`, within the level. */
    function Shifted(dir: int, ox: int, oy: int): (r: (int, int))
    {
      if dir == 0 && oy > 0 then (ox, oy - 1)
      else if dir == 1 && oy < height - H then (ox, oy + 1)
      else if dir == 2 && ox > 0 then (ox - 1, oy)
      else if dir == 3 && ox < width - W then (ox + 1, oy)
      else (ox, oy)
    }

    /** Each viewport update moves the origin by at most one step along
        one axis, down or left only from above 0, and up or right only
        while the viewport does not reach the far edge of the level. */
    lemma ViewportStep(ps: seq<(int, int)>, ox: int, oy: int)
      ensures var (nx, ny) := Viewport(ps, ox, oy);
        && (nx == ox || ny == oy)
        && (ny == oy - 1 ==> oy > 0) && (ny == oy + 1 ==> oy < height - H)
        && (nx == ox - 1 ==> ox > 0) && (nx == ox + 1 ==> ox < width - W)
        && -1 <= nx - ox <= 1 && -1 <= ny - oy <= 1
    {
    }

    /** `simple_what` and `simple_maze` agree: with every player in the
        level, the answer about a cell is the cell of the painted level. */
    lemma WhatMatchesMaze(ps: seq<(int, int)>, x: int, y: int)
      requires Valid() && 0 <= x < width && 0 <= y < height && AllInside(ps, width, height)
      ensures Look(x, y, ps) == Answered(Painted(level, width, height, ps)[Index(x, y)] as int)
    {
      PaintedCell(level, width, height, ps, x, y);
    }

    /** One player's step of a counting pass along one axis, as
        `update_viewport` writes it. */
    static method EdgeStep(v: int, o: int, size: int, lower: int, higher: int) returns (l: int, h: int)
      ensures (l, h) == (lower + EdgeAxis(v, o, size).0, higher + EdgeAxis(v, o, size).1)
    {
      l, h := lower, higher;
      if v == o + size - 1 {
        l := l - 1;
      } else if v == o - 1 {
        l := l + 1;
      } else if v == o {
        h := h - 1;
      } else if v == o + size {
        h := h + 1;
      }
    }

    static method MarginStep(v: int, o: int, size: int, lower: int, higher: int) returns (l: int, h: int)
      ensures (l, h) == (lower + MarginAxis(v, o, size).0, higher + MarginAxis(v, o, size).1)
    {
      l, h := lower, higher;
      if v < o + BORDER { l := l + 1; }
      if v <= o + BORDER { h := h - 1; }
      if v > o + size - 1 - BORDER { h := h + 1; }
      if v >= o + size - 1 - BORDER { l := l - 1; }
    }

    /** The counts of one player added to the counters. */
    method Counted(x: int, y: int, border: bool, acc: Shifts) returns (r: Shifts)
      ensures r == Plus(acc, Count((x, y), originX, originY, border))
    {
      var up, down, left, right := acc.up, acc.down, acc.left, acc.right;
      if !border {
        up, down := EdgeStep(y, originY, H, up, down);
        left, right := EdgeStep(x, originX, W, left, right);
      } else if !(x < originX || x >= originX + W || y < originY || y >= originY + H) {
        up, down := MarginStep(y, originY, H, up, down);
        left, right := MarginStep(x, originX, W, left, right);
      }
      r := Shifts(up, down, left, right);
    }

    /** A counting pass of `update_viewport`: the edge counts, or the
        margin counts of the players in view. */
    method Pass(border: bool) returns (s: seq<int>)
      ensures s == Entries(Tally(old(Positions(players)), originX, originY, border))
    {
      ghost var ps := Positions(players);
      var acc := Shifts(0, 0, 0, 0);
      var i := 0;
      while i < |players|
        invariant 0 <= i <= |players|
        invariant acc == Tally(ps[..i], originX, originY, border)
      {
        TallyNext(ps, i, originX, originY, border);
        var d := players[i];
        assert ps[i] == (d.x, d.y);
        acc := Counted(d.x, d.y, border, acc);
        i := i + 1;
      }
      assert ps[..i] == ps;
      s := Entries(acc);
    }

    /** The direction `update_viewport` chooses. */
    method ChooseDirection() returns (dir: int)
      requires |players| <= INT_MAX
      ensures dir == Direction(old(Positions(players)), originX, originY)
    {
      ghost var ps := Positions(players);
      var first := Pass(false);
      PassFits(ps, originX, originY, false);
      dir := FindMax(first);
      if first[dir] <= 0 {
        var second := Pass(true);
        PassFits(ps, originX, originY, true);
        dir := FindMax(second);
        if second[dir] <= 0 {
          dir := -1;
        }
      }
    }

    /** `update_viewport`. The counters are C `int`s: there are fewer
        players than `INT_MAX`. */
    method UpdateViewport()
      requires |players| <= INT_MAX
      modifies this`originX, this`originY
      ensures (originX, originY) == Viewport(old(Positions(players)), old(originX), old(originY))
    {
      ghost var ps, ox, oy := Positions(players), originX, originY;
      var dir := ChooseDirection();
      if dir == 0 {
        if originY > 0 { originY := originY - 1; }
      } else if dir == 1 {
        if originY < height - H { originY := originY + 1; }
      } else if dir == 2 {
        if originX > 0 { originX := originX - 1; }
      } else if dir == 3 {
        if originX < width - W { originX := originX + 1; }
      }
      assert (originX, originY) == Shifted(dir, ox, oy);
    }

    // -------------------------------------------------------------------
    // The callbacks

    /** `simple_get_data`: a new player at the start position, at the end
        of the list; the viewport follows the players with the new one
        among them, and the level is marked for redrawing. */
    method GetData() returns (d: Player)
      requires |players| < INT_MAX
      modifies this`players, this`originX, this`originY, this`dirty
      ensures fresh(d) && d.x == startX && d.y == startY && d.angle == 0
      ensures players == old(players) + [d]
      ensures (originX, originY) == Viewport(old(Positions(players)) + [(startX, startY)], old(originX), old(originY))
      ensures dirty == old(dirty) + 1
    {
      ghost var ps := Positions(players);
      d := new Player(startX, startY);
      players := players + [d];
      assert Positions(players) == ps + [(startX, startY)];
      UpdateViewport();
      dirty := dirty + 1;
    }

    /** `simple_free_data`: unlinks the player's node; the others keep
        their order and the viewport stays where it is. The player must be
        on the list. */
    method FreeData(d: Player)
      requires d in players
      modifies this`players
      ensures players == RemoveFirst(old(players), d)
      ensures |players| == |old(players)| - 1 && multiset(players) == multiset(old(players)) - multiset{d}
    {
      var k := 0;
      while players[k] != d
        invariant k < |players| && d !in players[..k] && d in players[k..]
        decreases |players| - k
      {
        assert players[..k + 1] == players[..k] + [players[k]];
        k := k + 1;
      }
      RemoveFirstAt(players, d, k);
      players := players[..k] + players[k + 1..];
    }

    /** `simple_set_xy`: the player stands at (x, y) facing `angle`; the
        viewport follows the players with the player at its new place, and
        the level is marked for redrawing. */
    method SetXY(d: Player, x: int, y: int, angle: int)
      requires |players| <= INT_MAX
      modifies d, this`originX, this`originY, this`dirty
      ensures d.x == x && d.y == y && d.angle == angle
      ensures (originX, originY) == Viewport(Relocated(old(Positions(players)), players, d, (x, y)), old(originX), old(originY))
      ensures dirty == old(dirty) + 1
    {
      ghost var ps := Positions(players);
      d.x, d.y, d.angle := x, y, angle;
      assert Positions(players) == Relocated(ps, players, d, (x, y));
      UpdateViewport();
      dirty := dirty + 1;
    }

    /** The key `c` pressed at (x, y) leads into the level data: the
        helper reads the cell it leads to without checking the bounds, so
        the level must keep its players off its border. */
    predicate Reachable(x: int, y: int, c: char) {
      match KeyStep(c)
      case None => true
      case Some((dx, dy)) => 0 <= (y + dy) * width + (x + dx) < |level|
    }

    /** What `simple_try_move` makes of key `c` for a player at (x, y): the
        cell it leads to is taken from the level data as it is, without
        the players. */
    function Verdict(x: int, y: int, c: char): (v: Verdict)
      requires Reachable(x, y, c)
      ensures v == Bump(UnknownMove) <==> c !in "wsad"
      ensures v.Walk? || v.Other? ==> Adjacent(x, y, v.x, v.y)
      ensures !v.Turn?
    {
      match KeyStep(c)
      case None => Bump(UnknownMove)
      case Some((dx, dy)) => CellVerdict(level[(y + dy) * width + (x + dx)], x + dx, y + dy)
    }

    /** A player walks exactly when the key is a movement and the cell it
        leads to is empty in the level data; that cell is next to the
        player's. */
    lemma WalkRule(x: int, y: int, c: char)
      requires Reachable(x, y, c)
      ensures var v := Verdict(x, y, c);
        v.Walk? <==>
          (c in "wsad" && var (dx, dy) := KeyStep(c).value; level[(y + dy) * width + (x + dx)] == COLOR_NONE)
      ensures var v := Verdict(x, y, c); v.Walk? ==> Adjacent(x, y, v.x, v.y)
      ensures Verdict(x, y, c) == Bump(UnknownMove) <==> c !in "wsad"
    {
    }

    /** `simple_try_move`: true when the player walked, which puts it on
        the empty cell facing angle 0 as `simple_set_xy` does; `win` with
        the treasure; the message of a refusal or of the win; the target
        cell when it holds something else for the level to handle.
        Anything but a walk leaves the level as it was. */
    method TryMove(d: Player, c: char) returns (ok: bool, win: bool, err: Option<AMsg>, target: Option<(int, int)>)
      requires d in players && |players| <= INT_MAX && Reachable(d.x, d.y, c)
      modifies d, this`originX, this`originY, this`dirty
      ensures var v := Verdict(old(d.x), old(d.y), c);
        && ok == v.Walk? && win == v.Treasure?
        && err == (if v.Bump? then Some(v.err) else if v.Treasure? then Some(Win) else None)
        && target == (if v.Other? then Some((v.x, v.y)) else None)
      ensures var v := Verdict(old(d.x), old(d.y), c);
        v.Walk? ==>
          && d.x == v.x && d.y == v.y && d.angle == 0 && dirty == old(dirty) + 1
          && (originX, originY) == Viewport(Relocated(old(Positions(players)), players, d, (v.x, v.y)), old(originX), old(originY))
      ensures !Verdict(old(d.x), old(d.y), c).Walk? ==>
        unchanged(d) && originX == old(originX) && originY == old(originY) && dirty == old(dirty)
    {
      var sx, sy := 0, 0;
      if c == 'w' {
        sy := -1;
      } else if c == 's' {
        sy := 1;
      } else if c == 'a' {
        sx := -1;
      } else if c == 'd' {
        sx := 1;
      } else {
        return false, false, Some(UnknownMove), None;
      }
      var col := level[(d.y + sy) * width + (d.x + sx)];
      if col == COLOR_NONE {
        SetXY(d, d.x + sx, d.y + sy, 0);
        return true, false, None, None;
      } else if col == COLOR_WALL {
        return false, false, Some(WallHit), None;
      } else if col == COLOR_TREASURE {
        return false, true, Some(Win), None;
      } else {
        return false, false, None, Some((d.x + sx, d.y + sy));
      }
    }

    /** `simple_move`: no message after a move, otherwise the message of
        the attempt, the wall message when it set none. */
    method Move(d: Player, c: char) returns (err: Option<AMsg>, win: bool)
      requires d in players && |players| <= INT_MAX && Reachable(d.x, d.y, c)
      modifies d, this`originX, this`originY, this`dirty
      ensures (err, win) == MoveReply(Verdict(old(d.x), old(d.y), c))
      ensures var v := Verdict(old(d.x), old(d.y), c);
        v.Walk? ==>
          && d.x == v.x && d.y == v.y && d.angle == 0 && dirty == old(dirty) + 1
          && (originX, originY) == Viewport(Relocated(old(Positions(players)), players, d, (v.x, v.y)), old(originX), old(originY))
      ensures !Verdict(old(d.x), old(d.y), c).Walk? ==>
        unchanged(d) && originX == old(originX) && originY == old(originY) && dirty == old(dirty)
    {
      var ok, e: Option<AMsg>, target;
      ok, win, e, target := TryMove(d, c);
      if ok {
        return None, win;
      }
      err := if e.None? then Some(WallHit) else e;
    }

    /** `simple_what`: the colour of the cell (x, y), the player colour
        when a player stands on it, or the message for a cell outside the
        level. */
    method What(x: int, y: int) returns (r: Answer<int>)
      requires Valid()
      ensures r == Look(x, y, Positions(players))
    {
      if x < 0 || x >= width || y < 0 || y >= height {
        return Refused(OutOfMaze);
      }
      ghost var ps := Positions(players);
      var i := 0;
      while i < |players|
        invariant 0 <= i <= |players| && (x, y) !in ps[..i]
      {
        if players[i].x == x && players[i].y == y {
          assert ps[i] == (x, y);
          return Answered(COLOR_PLAYER as int);
        }
        assert ps[..i + 1] == ps[..i] + [ps[i]];
        i := i + 1;
      }
      assert ps[..i] == ps;
      CellIndex(width, height, x, y);
      r := Answered(level[y * width + x] as int);
    }

    /** `simple_maze`: the copy of the level with every player's cell
        painted in the player colour, and its length. */
    method Maze() returns (res: array<byte>, len: int)
      requires Valid() && AllInside(Positions(players), width, height)
      modifies levelCopy
      ensures res == levelCopy && len == width * height
      ensures levelCopy[..] == Painted(level, width, height, old(Positions(players)))
    {
      ghost var ps := Positions(players);
      forall i | 0 <= i < levelCopy.Length {
        levelCopy[i] := level[i];
      }
      assert levelCopy[..] == Painted(level, width, height, ps[..0]);
      var k := 0;
      while k < |players|
        invariant 0 <= k <= |players| && AllInside(ps[..k], width, height)
        invariant levelCopy[..] == Painted(level, width, height, ps[..k])
      {
        var d := players[k];
        assert ps[k] == (d.x, d.y);
        CellIndex(width, height, d.x, d.y);
        levelCopy[d.y * width + d.x] := COLOR_PLAYER;
        assert ps[..k + 1][..k] == ps[..k];
        k := k + 1;
      }
      assert ps[..k] == ps;
      return levelCopy, width * height;
    }

    /** `simple_get_x` and `simple_get_y`: where the player stands. */
    method GetX(d: Player) returns (r: Answer<int>)
      ensures r == Answered(d.x)
    {
      r := Answered(d.x);
    }

    method GetY(d: Player) returns (r: Answer<int>)
      ensures r == Answered(d.y)
    {
      r := Answered(d.y);
    }

    /** `simple_get_w` and `simple_get_h`: the size of the level. */
    method GetW() returns (r: Answer<int>)
      ensures r == Answered(width)
    {
      r := Answered(width);
    }

    method GetH() returns (r: Answer<int>)
      ensures r == Answered(height)
    {
      r := Answered(height);
    }
  }
}
