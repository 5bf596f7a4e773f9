/** The remote-screen encoder (server/draw.c, constants from server/draw.h).
    A screen is a 34 x 34 grid of cells aligned to 15-pixel blocks plus a list
    of free-floating sprites. A commit encodes it into one binary message:
    a 4-byte header, the grid run-length encoded, then the sprites, and
    broadcasts it to every spectator. */
module Draw {
  import opened CInt
  import Prelude

  const DRAW_MOD: int := 15
  const DRAW_WIDTH: int := 495
  const DRAW_HEIGHT: int := 495
  /** DRAW_WIDTH / DRAW_MOD and DRAW_HEIGHT / DRAW_MOD. */
  const DRAW_MOD_WIDTH: int := 33
  const DRAW_MOD_HEIGHT: int := 33
  const BUTTON_WAIT: int := 1
  const BUTTON_KILL: int := 2

  /** `sizeof(fixed)`: (DRAW_MOD_WIDTH + 1) * (DRAW_MOD_HEIGHT + 1) cells. */
  const FIXED_LEN: int := 1156
  /** The room `MSG_MAX_LEN` leaves for sprites: 4 bytes for each of
      (DRAW_MOD_WIDTH + 2) * (DRAW_MOD_HEIGHT + 2) of them. */
  const MAX_SPRITES: int := 1225
  /** 4 header bytes, one byte per grid cell at worst, 4 bytes per sprite. */
  const MSG_MAX_LEN: int := 4 + FIXED_LEN + 4 * MAX_SPRITES

  datatype Sprite = Sprite(x: nat, y: nat, angle: byte, color: byte)

  function Repeat(c: byte, n: nat): (r: seq<byte>)
    ensures |r| == n && forall i :: 0 <= i < n ==> r[i] == c
  {
    if n == 0 then [] else Repeat(c, n - 1) + [c]
  }

  /** `color | 0x80` on an `unsigned char`. */
  function RunMark(color: byte): byte {
    if color >= 0x80 then color else color + 0x80
  }

  /** The number of cells `emit_field` covers with its next one or two bytes. */
  function Consumed(n: nat): (k: nat)
    requires n > 0
    ensures 1 <= k <= n
  {
    if n <= 2 then 1 else if n > 258 then 258 else n
  }

  /** Those bytes: a literal cell, or the pair (color|0x80, k-3). */
  function Chunk(color: byte, n: nat): (r: seq<byte>)
    requires n > 0
    ensures 1 <= |r| <= Consumed(n)
  {
    if n <= 2 then [color] else [RunMark(color), Consumed(n) - 3]
  }

  /** `emit_field(color, n)`: runs of one or two cells are written literally;
      longer ones as pairs (color|0x80, k-3) covering k cells, 3 <= k <= 258. */
  function EmitField(color: byte, n: nat): (r: seq<byte>)
    ensures |r| <= n
    decreases n
  {
    if n == 0 then [] else Chunk(color, n) + EmitField(color, n - Consumed(n))
  }

  /** The length of the run of equal cells that ends at cell `m - 1`. */
  function TailRun(s: seq<byte>, m: nat): (k: nat)
    requires 0 < m <= |s|
    ensures 1 <= k <= m
  {
    if m == 1 || s[m - 2] != s[m - 1] then 1 else 1 + TailRun(s, m - 1)
  }

  /** The encoding of the first `m` cells: every maximal run of equal cells,
      in scan order, as `emit_field` writes it. */
  function EncodePrefix(s: seq<byte>, m: nat): (r: seq<byte>)
    requires m <= |s|
    ensures |r| <= m
  {
    if m == 0 then []
    else
      var k := TailRun(s, m);
      EncodePrefix(s, m - k) + EmitField(s[m - 1], k)
  }

  /** The grid section of a commit. */
  function EncodeGrid(s: seq<byte>): (r: seq<byte>)
    ensures |r| <= |s|
  {
    EncodePrefix(s, |s|)
  }

  /** A reference decoder of the grid section: a byte with the top bit set
      and the byte after it stand for (b[1] + 3) cells of colour b[0] - 0x80;
      any other byte is one cell. */
  function DecodeGrid(b: seq<byte>): seq<byte>
  {
    if |b| == 0 then []
    else if b[0] >= 0x80 && |b| >= 2 then Repeat(b[0] - 0x80, b[1] as int + 3) + DecodeGrid(b[2..])
    else [b[0]] + DecodeGrid(b[1..])
  }

  /** `TailRun` is the maximal run: all its cells share the colour of the
      last one and the cell before it (if any) does not. */
  lemma {:induction false} TailRunSpec(s: seq<byte>, m: nat)
    requires 0 < m <= |s|
    ensures forall j :: m - TailRun(s, m) <= j < m ==> s[j] == s[m - 1]
    ensures TailRun(s, m) < m ==> s[m - TailRun(s, m) - 1] != s[m - 1]
    decreases m
  {
    if m > 1 && s[m - 2] == s[m - 1] {
      TailRunSpec(s, m - 1);
    }
  }

  /** Conversely, a maximal run ending at `m - 1` is the one `TailRun` measures. */
  lemma {:induction false} TailRunOfRun(s: seq<byte>, m: nat, cnt: nat)
    requires 1 <= cnt <= m <= |s|
    requires forall j :: m - cnt <= j < m ==> s[j] == s[m - 1]
    requires cnt == m || s[m - cnt - 1] != s[m - 1]
    ensures TailRun(s, m) == cnt
    decreases cnt
  {
    if cnt > 1 {
      assert s[m - 2] == s[m - 1];
      TailRunOfRun(s, m - 1, cnt - 1);
    }
  }

  /** Closing a maximal run appends its `emit_field` bytes. */
  lemma EncodePrefixRun(s: seq<byte>, m: nat, cnt: nat, c: byte)
    requires 1 <= cnt <= m <= |s|
    requires forall j :: m - cnt <= j < m ==> s[j] == c
    requires cnt == m || s[m - cnt - 1] != c
    ensures EncodePrefix(s, m) == EncodePrefix(s, m - cnt) + EmitField(c, cnt)
  {
    TailRunOfRun(s, m, cnt);
  }

  lemma EncodePrefixUnfold(s: seq<byte>, m: nat)
    requires 0 < m <= |s|
    ensures EncodePrefix(s, m) == EncodePrefix(s, m - TailRun(s, m)) + EmitField(s[m - 1], TailRun(s, m))
  {
  }

  lemma AppendChain(x: seq<byte>, h: seq<byte>, a: seq<byte>, b: seq<byte>, ab: seq<byte>)
    requires x == (h + a) + b && ab == a + b
    ensures x == h + ab
  {
  }

  lemma Regroup(x: seq<byte>, pre: seq<byte>, c: seq<byte>, tail: seq<byte>, whole: seq<byte>)
    requires x == pre + c && whole == c + tail
    ensures x + tail == pre + whole
  {
  }

  lemma FourBytes(s0: seq<byte>, s1: seq<byte>, s2: seq<byte>, s3: seq<byte>, s4: seq<byte>, h: seq<byte>)
    requires |h| == 4 && |s0| == 0
    requires s1 == s0 + [h[0]] && s2 == s1 + [h[1]] && s3 == s2 + [h[2]] && s4 == s3 + [h[3]]
    ensures s4 == h
  {
  }

  lemma RepeatSplit(c: byte, a: nat, b: nat)
    ensures Repeat(c, a) + Repeat(c, b) == Repeat(c, a + b)
  {
    assert Repeat(c, a) + Repeat(c, b) == Repeat(c, a + b);
  }

  lemma DecodeLiteral(c: byte, tail: seq<byte>)
    requires c < 0x80
    ensures DecodeGrid([c] + tail) == [c] + DecodeGrid(tail)
  {
    var b := [c] + tail;
    assert b[1..] == tail;
  }

  lemma DecodeRunPair(c: byte, k: nat, tail: seq<byte>)
    requires c < 0x80 && 3 <= k <= 258
    ensures DecodeGrid([RunMark(c), k - 3] + tail) == Repeat(c, k) + DecodeGrid(tail)
  {
    var b := [RunMark(c), k - 3] + tail;
    assert b[2..] == tail;
  }

  /** The bytes of one run decode to exactly that run. */
  lemma {:induction false} DecodeEmitField(c: byte, n: nat, rest: seq<byte>)
    requires c < 0x80
    ensures DecodeGrid(EmitField(c, n) + rest) == Repeat(c, n) + DecodeGrid(rest)
    decreases n
  {
    if n == 0 {
      assert EmitField(c, n) + rest == rest;
    } else {
      DecodeEmitField(c, n - Consumed(n), rest);
      DecodeEmitStep(c, n, rest);
    }
  }

  lemma DecodeEmitStep(c: byte, n: nat, rest: seq<byte>)
    requires c < 0x80 && n > 0
    requires DecodeGrid(EmitField(c, n - Consumed(n)) + rest) == Repeat(c, n - Consumed(n)) + DecodeGrid(rest)
    ensures DecodeGrid(EmitField(c, n) + rest) == Repeat(c, n) + DecodeGrid(rest)
  {
    var k := Consumed(n);
    var tail := EmitField(c, n - k) + rest;
    Prelude.AppendAssoc(Chunk(c, n), EmitField(c, n - k), rest);
    if n <= 2 {
      DecodeLiteral(c, tail);
    } else {
      DecodeRunPair(c, k, tail);
    }
    Prelude.AppendAssoc(Repeat(c, k), Repeat(c, n - k), DecodeGrid(rest));
    RepeatSplit(c, k, n - k);
  }

  /** A prefix followed by a run of one colour. */
  lemma SplitRun(s: seq<byte>, m: nat, k: nat, c: byte)
    requires k <= m <= |s|
    requires forall j :: m - k <= j < m ==> s[j] == c
    ensures s[..m] == s[..m - k] + Repeat(c, k)
  {
    var t := s[..m - k] + Repeat(c, k);
    assert forall j :: 0 <= j < m ==> t[j] == s[j];
  }

  lemma {:induction false} DecodeEncodePrefix(s: seq<byte>, m: nat, rest: seq<byte>)
    requires m <= |s|
    requires forall j :: 0 <= j < m ==> s[j] < 0x80
    ensures DecodeGrid(EncodePrefix(s, m) + rest) == s[..m] + DecodeGrid(rest)
    decreases m
  {
    if m == 0 {
      assert EncodePrefix(s, m) + rest == rest;
    } else {
      var k := TailRun(s, m);
      var c := s[m - 1];
      var field := EmitField(c, k);
      var tail := field + rest;
      DecodeEncodePrefix(s, m - k, tail);
      DecodeEmitField(c, k, rest);
      TailRunSpec(s, m);
      EncodePrefixUnfold(s, m);
      SplitRun(s, m, k, c);
      DecodeAfter(EncodePrefix(s, m), EncodePrefix(s, m - k), field, rest, tail,
                  s[..m - k], Repeat(c, k), s[..m]);
    }
  }

  /** The decoding of a concatenation, put together from the decodings of its parts. */
  lemma DecodeAfter(whole: seq<byte>, pre: seq<byte>, field: seq<byte>,
                    rest: seq<byte>, tail: seq<byte>, out: seq<byte>, run: seq<byte>, all: seq<byte>)
    requires whole == pre + field && tail == field + rest && all == out + run
    requires DecodeGrid(pre + tail) == out + DecodeGrid(tail)
    requires DecodeGrid(tail) == run + DecodeGrid(rest)
    ensures DecodeGrid(whole + rest) == all + DecodeGrid(rest)
  {
    Prelude.AppendAssoc(pre, field, rest);
    Prelude.AppendAssoc(out, run, DecodeGrid(rest));
  }

  /** The grid section decodes back to exactly the cells it encodes, provided
      no cell uses the run marker bit. */
  lemma DecodeEncodeGrid(s: seq<byte>)
    requires forall i :: 0 <= i < |s| ==> s[i] < 0x80
    ensures DecodeGrid(EncodeGrid(s)) == s
  {
    DecodeEncodePrefix(s, |s|, []);
    assert EncodeGrid(s) + [] == EncodeGrid(s);
    assert s[..|s|] + [] == s;
  }

  /** The three or four bytes of one sprite record: bit 8 of x and y go into
      the first byte beside the rotation flag and the colour. */
  function EncodeSprite(p: Sprite): (r: seq<byte>)
    ensures |r| == if p.angle != 0 then 4 else 3
  {
    var rot := p.angle != 0;
    var flags := (if (p.x / 0x100) % 2 == 1 then 0x40 else 0)
               + (if (p.y / 0x100) % 2 == 1 then 0x80 else 0)
               + (if rot then 0x20 else 0);
    [BitOr8(flags, p.color), p.x % 0x100, p.y % 0x100] + (if rot then [p.angle % 0x80] else [])
  }

  /** The sprite section for the first `k` sprites of the list. */
  function EncodeSprites(ps: seq<Sprite>, k: nat): (r: seq<byte>)
    requires k <= |ps|
    ensures |r| <= 4 * k
  {
    if k == 0 then [] else EncodeSprites(ps, k - 1) + EncodeSprite(ps[k - 1])
  }

  /** `modulo(a, d)`: the C remainder moved into [0, d). */
  function Modulo(dividend: int, divisor: int): (r: int)
    requires divisor > 0
    ensures 0 <= r < divisor
    ensures r == dividend % divisor
  {
    var res := CRem(dividend, divisor);
    CDivRem(dividend, divisor);
    var r := if dividend < 0 && res != 0 then res + divisor else res;
    var q := if dividend < 0 && res != 0 then CDiv(dividend, divisor) - 1 else CDiv(dividend, divisor);
    assert dividend == q * divisor + r;
    DivModOfDecomposition(dividend, divisor, q, r);
    r
  }

  /** The number whose binary digits, least significant first, are `bits`. */
  function BitsValue(bits: seq<bool>): (v: nat)
    ensures v < Pow2(|bits|)
  {
    if |bits| == 0 then 0 else (if bits[0] then 1 else 0) + 2 * BitsValue(bits[1..])
  }

  /** Bitwise `|` of the `k` low bits of `a` and `b`. */
  function BitOr(a: nat, b: nat, k: nat): (r: nat)
    ensures r < Pow2(k)
  {
    if k == 0 then 0
    else (if a % 2 == 1 || b % 2 == 1 then 1 else 0) + 2 * BitOr(a / 2, b / 2, k - 1)
  }

  /** `a | b` on two bytes. */
  function BitOr8(a: byte, b: byte): (r: byte)
  {
    assert Pow2(8) == 256;
    BitOr(a, b, 8)
  }

  lemma {:induction false} BitOrZero(a: nat, k: nat)
    requires a < Pow2(k)
    ensures BitOr(a, 0, k) == a
    decreases k
  {
    if k > 0 {
      BitOrZero(a / 2, k - 1);
    }
  }

  /** When the set bits of `a` all lie above the `j` low bits that hold `b`,
      `a | b` is `a + b`. */
  lemma {:induction false} BitOrDisjoint(m: nat, b: nat, j: nat, k: nat)
    requires m * Pow2(j) < Pow2(k) && b < Pow2(j) && j <= k
    ensures BitOr(m * Pow2(j), b, k) == m * Pow2(j) + b
    decreases j
  {
    if j == 0 {
      BitOrZero(m * Pow2(j), k);
    } else {
      var p := Pow2(j - 1);
      var a := m * Pow2(j);
      assert a == (m * p) * 2;
      DivModOfDecomposition(a, 2, m * p, 0);
      BitOrDisjoint(m, b / 2, j - 1, k - 1);
    }
  }

  /** The seconds field: a negative count (no deadline) is sent as 0x3ff. */
  function RSec(seconds: int): nat {
    if seconds < 0 then 0x3ff else seconds
  }

  /** `((rsec & 0x300) >> 2) | buttons` cut to a byte: the button bits with
      bits 8 and 9 of `rsec` or-ed into bits 6 and 7. */
  function ButtonsByte(rsec: nat, buttons: seq<bool>): (b: byte)
    requires |buttons| == 32
  {
    assert Pow2(8) == 256;
    BitOr8(((rsec / 0x100) % 4) * 0x40, BitsValue(buttons[..8]))
  }

  function Header(xOrig: int, xStart: int, yOrig: int, yStart: int, seconds: int,
                  buttons: seq<bool>, bank: int): (h: seq<byte>)
    requires 0 <= xOrig - xStart < DRAW_MOD && 0 <= yOrig - yStart < DRAW_MOD
    requires |buttons| == 32
    ensures |h| == 4
  {
    var rsec := RSec(seconds);
    [ (xOrig - xStart) * 16 + (yOrig - yStart),
      ButtonsByte(rsec, buttons),
      rsec % 0x100,
      bank % 0x100 ]
  }

  /** The whole screen state of server/draw.c. */
  class Screen {
    var seconds: int
    /** The `unsigned buttons` mask: `buttons[i]` is bit i, set while button i + 1 is on. */
    var buttons: seq<bool>
    var bank: int
    var xOrig: int
    var yOrig: int
    var xStart: int
    var yStart: int
    const fixed: array<byte>
    var floating: seq<Sprite>
    const msg: array<byte>
    var msgLen: nat
    var wasChanged: bool
    /** Every message handed to `websocket_broadcast`, oldest first. */
    var broadcasts: seq<seq<byte>>

    /** The invariant of the screen state; the message cursor is kept apart
        (`msgLen <= msg.Length`) so that writing the message leaves it alone. */
    ghost predicate Valid()
      reads this`buttons, this`xOrig, this`xStart, this`yOrig, this`yStart, this`floating
    {
      && fixed.Length == FIXED_LEN
      && msg.Length == MSG_MAX_LEN
      && fixed != msg
      && |buttons| == 32
      && 0 <= xOrig - xStart < DRAW_MOD
      && 0 <= yOrig - yStart < DRAW_MOD
      && |floating| <= MAX_SPRITES
    }

    /** The block origin lies on the block grid. */
    ghost predicate Aligned()
      reads this`xStart, this`yStart
    {
      xStart % DRAW_MOD == 0 && yStart % DRAW_MOD == 0
    }

    /** The message a commit of the current state broadcasts. */
    ghost function Frame(): seq<byte>
      requires Valid()
      reads this, fixed
    {
      Header(xOrig, xStart, yOrig, yStart, seconds, buttons, bank)
        + EncodeGrid(fixed[..]) + EncodeSprites(floating, |floating|)
    }

    /** `draw_init`. */
    constructor ()
      ensures Valid() && Aligned() && fresh(fixed) && fresh(msg)
      ensures seconds == -1 && buttons == seq(32, _ => false) && bank == 0
      ensures xOrig == yOrig == xStart == yStart == 0
      ensures floating == [] && fixed[..] == Repeat(0, FIXED_LEN)
      ensures wasChanged && msgLen == 0 && broadcasts == []
    {
      seconds := -1;
      buttons := seq(32, _ => false);
      bank := 0;
      xOrig, yOrig := 0, 0;
      xStart, yStart := 0, 0;
      floating := [];
      fixed := new byte[FIXED_LEN](_ => 0);
      msg := new byte[MSG_MAX_LEN](_ => 0);
      msgLen := 0;
      wasChanged := true;
      broadcasts := [];
    }

    /** `msg[msg_len++] = b`. */
    method Put(b: byte)
      requires msgLen < msg.Length
      modifies this`msgLen, msg
      ensures msgLen == old(msgLen) + 1
      ensures msg[..msgLen] == old(msg[..msgLen]) + [b]
    {
      msg[msgLen] := b;
      msgLen := msgLen + 1;
    }

    /** `emit_field`: appends the encoding of a run at the cursor. */
    method EmitFieldAt(color: byte, cnt: nat)
      requires msgLen + cnt <= msg.Length
      modifies this`msgLen, msg
      ensures msgLen <= msg.Length
      ensures msg[..msgLen] == old(msg[..msgLen]) + EmitField(color, cnt)
    {
      var n: nat := cnt;
      while n > 0
        invariant msgLen + n <= msg.Length
        invariant msg[..msgLen] + EmitField(color, n) == old(msg[..msgLen]) + EmitField(color, cnt)
        decreases n
      {
        ghost var before := msg[..msgLen];
        ghost var chunk, tail := Chunk(color, n), EmitField(color, n - Consumed(n));
        var rle := n > 2;
        Put(if rle then RunMark(color) else color);
        if !rle {
          Regroup(msg[..msgLen], before, chunk, tail, EmitField(color, n));
          n := n - 1;
          continue;
        }
        var rleCnt := n;
        if rleCnt > 258 {
          rleCnt := 258;
        }
        Put(rleCnt - 3);
        Regroup(msg[..msgLen], before, chunk, tail, EmitField(color, n));
        n := n - rleCnt;
      }
    }

    /** The first four bytes of `draw_force_commit`. */
    method PutHeader()
      requires Valid()
      modifies this`msgLen, msg
      ensures msgLen == 4
      ensures msg[..msgLen] == Header(xOrig, xStart, yOrig, yStart, seconds, buttons, bank)
    {
      var h := Header(xOrig, xStart, yOrig, yStart, seconds, buttons, bank);
      msgLen := 0;
      ghost var s0 := msg[..msgLen];
      Put(h[0]);
      ghost var s1 := msg[..msgLen];
      Put(h[1]);
      ghost var s2 := msg[..msgLen];
      Put(h[2]);
      ghost var s3 := msg[..msgLen];
      Put(h[3]);
      FourBytes(s0, s1, s2, s3, msg[..msgLen], h);
    }

    /** The loop of `draw_force_commit` over the grid: every run is handed
        to `emit_field` once its end is seen. */
    method EmitGrid()
      requires Valid()
      requires msgLen + FIXED_LEN <= msg.Length
      modifies this`msgLen, msg
      ensures msgLen <= msg.Length
      ensures msg[..msgLen] == old(msg[..msgLen]) + EncodeGrid(fixed[..])
    {
      var cells := fixed[..];
      ghost var h := msg[..msgLen];
      ghost var done := 0;
      var cnt: nat := 0;
      var lastColor: int := -1;
      var i := 0;
      while i < fixed.Length
        invariant fixed.Length == |cells| && msgLen <= msg.Length
        invariant 0 <= i <= fixed.Length && done == i - cnt
        invariant i == 0 ==> lastColor == -1 && cnt == 0
        invariant i > 0 ==> 1 <= cnt <= i && 0 <= lastColor < 256 && lastColor == cells[i - 1]
        invariant forall j :: done <= j < i ==> cells[j] == lastColor
        invariant done > 0 ==> cells[done - 1] != lastColor
        invariant msg[..msgLen] == h + EncodePrefix(cells, done)
      {
        var color := cells[i];
        if color == lastColor {
          cnt := cnt + 1;
          i := i + 1;
          continue;
        }
        if lastColor >= 0 {
          CloseRun(cells, h, i, cnt, lastColor);
          done := i;
        }
        lastColor := color;
        cnt := 1;
        i := i + 1;
      }
      CloseRun(cells, h, i, cnt, lastColor);
    }

    /** The `emit_field` call that closes the maximal run of `cnt` cells of
        colour `c` ending just before cell `i`. */
    method CloseRun(ghost cells: seq<byte>, ghost h: seq<byte>, i: nat, cnt: nat, c: byte)
      requires 1 <= cnt <= i <= |cells|
      requires forall j :: i - cnt <= j < i ==> cells[j] == c
      requires cnt == i || cells[i - cnt - 1] != c
      requires msgLen + cnt <= msg.Length && msg[..msgLen] == h + EncodePrefix(cells, i - cnt)
      modifies this`msgLen, msg
      ensures msgLen <= msg.Length && msg[..msgLen] == h + EncodePrefix(cells, i)
    {
      EncodePrefixRun(cells, i, cnt, c);
      EmitFieldAt(c, cnt);
      AppendChain(msg[..msgLen], h, EncodePrefix(cells, i - cnt), EmitField(c, cnt), EncodePrefix(cells, i));
    }

    /** The three or four bytes of one sprite record. */
    method PutSprite(p: Sprite)
      requires msgLen + 4 <= msg.Length
      modifies this`msgLen, msg
      ensures msgLen <= msg.Length
      ensures msg[..msgLen] == old(msg[..msgLen]) + EncodeSprite(p)
    {
      var rot := p.angle != 0;
      ghost var before := msg[..msgLen];
      var enc := EncodeSprite(p);
      Put(enc[0]);
      Put(enc[1]);
      Put(enc[2]);
      if rot {
        Put(enc[3]);
        assert enc == [enc[0], enc[1], enc[2], enc[3]];
      } else {
        assert enc == [enc[0], enc[1], enc[2]];
      }
    }

    /** The loop of `draw_force_commit` over the sprite list. */
    method EmitSprites()
      requires msgLen + 4 * |floating| <= msg.Length
      modifies this`msgLen, msg
      ensures msgLen <= msg.Length
      ensures msg[..msgLen] == old(msg[..msgLen]) + EncodeSprites(floating, |floating|)
    {
      ghost var h := msg[..msgLen];
      var k := 0;
      while k < |floating|
        invariant msgLen <= msg.Length
        invariant 0 <= k <= |floating|
        invariant msg[..msgLen] == h + EncodeSprites(floating, k)
      {
        var enc := EncodeSprite(floating[k]);
        PutSprite(floating[k]);
        Prelude.AppendAssoc(h, EncodeSprites(floating, k), enc);
        k := k + 1;
      }
    }

    /** `draw_force_commit`: encodes the screen into `msg`, broadcasts it and
        clears the change flag. */
    method ForceCommit()
      requires Valid()
      modifies this`msgLen, this`broadcasts, this`wasChanged, msg
      ensures Valid() && msgLen <= msg.Length
      ensures msg[..msgLen] == Frame()
      ensures broadcasts == old(broadcasts) + [Frame()]
      ensures !wasChanged
    {
      PutHeader();
      EmitGrid();
      EmitSprites();
      broadcasts := broadcasts + [msg[..msgLen]];
      wasChanged := false;
    }

    /** `draw_commit`: broadcasts only when something changed since the last
        commit. */
    method Commit()
      requires Valid()
      modifies this`msgLen, this`broadcasts, this`wasChanged, msg
      ensures Valid() && !wasChanged
      ensures broadcasts == if old(wasChanged) then old(broadcasts) + [Frame()] else old(broadcasts)
    {
      if wasChanged {
        ForceCommit();
      }
    }

    /** `draw_seconds`. */
    method SetSeconds(s: int)
      requires Valid()
      modifies this`seconds, this`wasChanged
      ensures Valid() && seconds == s
      ensures wasChanged == (old(wasChanged) || s != old(seconds))
    {
      if s == seconds {
        return;
      }
      seconds := s;
      wasChanged := true;
    }

    /** `draw_button`: sets or clears bit `button - 1` of the mask; the
        screen counts as changed only when the bit flips. (The C shift is
        defined for button numbers 1 to 31.) */
    method Button(button: int, on: bool)
      requires Valid()
      requires 1 <= button <= 31
      modifies this`buttons, this`wasChanged
      ensures Valid()
      ensures buttons == old(buttons)[button - 1 := on]
      ensures wasChanged == (old(wasChanged) || old(buttons)[button - 1] != on)
    {
      var newButtons := buttons[button - 1 := on];
      if newButtons == buttons {
        return;
      }
      buttons := newButtons;
      wasChanged := true;
    }

    /** `draw_set_bank`. */
    method SetBank(b: int)
      requires Valid()
      modifies this`bank, this`wasChanged
      ensures Valid() && bank == b && wasChanged
    {
      bank := b;
      wasChanged := true;
    }

    /** `draw_clear`: drops every sprite, zeroes the grid, marks the screen changed. */
    method Clear()
      requires Valid()
      modifies this`floating, this`wasChanged, fixed
      ensures Valid()
      ensures floating == [] && fixed[..] == Repeat(0, FIXED_LEN) && wasChanged
    {
      floating := [];
      var i := 0;
      while i < fixed.Length
        invariant 0 <= i <= fixed.Length
        invariant floating == []
        invariant forall j :: 0 <= j < i ==> fixed[j] == 0
      {
        fixed[i] := 0;
        i := i + 1;
      }
      assert fixed[..] == Repeat(0, FIXED_LEN);
      wasChanged := true;
    }

    /** `draw_set_origin`: the block origin is the largest multiple of
        DRAW_MOD not above the pixel origin. */
    method SetOrigin(x: int, y: int)
      requires Valid() && Aligned()
      modifies this`xOrig, this`yOrig, this`xStart, this`yStart, this`wasChanged
      ensures Valid() && Aligned() && xOrig == x && yOrig == y
      ensures wasChanged == (old(wasChanged) || x != old(xOrig) || y != old(yOrig))
    {
      if xOrig == x && yOrig == y {
        return;
      }
      xOrig := x;
      yOrig := y;
      xStart := x - Modulo(x, DRAW_MOD);
      yStart := y - Modulo(y, DRAW_MOD);
      wasChanged := true;
    }

    /** Whether `draw_item` considers the point visible. */
    predicate OnScreen(x: int, y: int)
      reads this
    {
      !(x <= xOrig - DRAW_MOD || y <= yOrig - DRAW_MOD ||
        x >= xOrig + DRAW_WIDTH || y >= yOrig + DRAW_HEIGHT)
    }

    /** `draw_item`: off-screen items are ignored; an unrotated item on the
        block grid overwrites a grid cell; anything else is appended as a
        sprite, shifted by DRAW_MOD so its coordinates are never negative,
        while the list has room for it (`AppendSprite`). */
    method Item(x: int, y: int, angle: nat, color: nat)
      requires Valid()
      modifies this`floating, this`wasChanged, fixed
      ensures Valid()
      ensures !OnScreen(x, y) ==> unchanged(this) && unchanged(fixed)
      ensures OnScreen(x, y) ==> wasChanged
      ensures OnScreen(x, y) && CRem(x - xStart, DRAW_MOD) == 0 && CRem(y - yStart, DRAW_MOD) == 0 && angle == 0 ==>
        var cx, cy := (x - xStart) / DRAW_MOD, (y - yStart) / DRAW_MOD;
        && 0 <= cx <= DRAW_MOD_WIDTH && 0 <= cy <= DRAW_MOD_HEIGHT
        && fixed[..] == old(fixed[..])[cy * (DRAW_MOD_WIDTH + 1) + cx := color % 0x100]
        && floating == old(floating)
    ensures OnScreen(x, y) && !(CRem(x - xStart, DRAW_MOD) == 0 && CRem(y - yStart, DRAW_MOD) == 0 && angle == 0) ==>
        && x - xStart + DRAW_MOD > 0 && y - yStart + DRAW_MOD > 0
        && floating == AppendSprite(old(floating), Sprite(x - xStart + DRAW_MOD, y - yStart + DRAW_MOD,
                                                         (angle / 3) % 0x100, color % 0x100))
        && fixed[..] == old(fixed[..])
    {
      if x <= xOrig - DRAW_MOD || y <= yOrig - DRAW_MOD ||
         x >= xOrig + DRAW_WIDTH || y >= yOrig + DRAW_HEIGHT {
        return;
      }
      wasChanged := true;
      var rx := x - xStart;
      var ry := y - yStart;
      if CRem(rx, DRAW_MOD) == 0 && CRem(ry, DRAW_MOD) == 0 && angle == 0 {
        CDivRem(rx, DRAW_MOD);
        CDivRem(ry, DRAW_MOD);
        var cx, cy := rx / DRAW_MOD, ry / DRAW_MOD;
        fixed[cy * (DRAW_MOD_WIDTH + 1) + cx] := color % 0x100;
        return;
      }
      floating := AppendSprite(floating, Sprite(rx + DRAW_MOD, ry + DRAW_MOD, (angle / 3) % 0x100, color % 0x100));
    }
  }

  /** `draw_item`'s append to the sprite list as written: every sprite is
      appended, however long the list already is. */
  function AppendSpriteAsWritten(fl: seq<Sprite>, p: Sprite): (r: seq<Sprite>)
    ensures |r| == |fl| + 1 && r[..|fl|] == fl && r[|fl|] == p
  {
    fl + [p]
  }

  /** The append with the bound `MSG_MAX_LEN` was sized for: a sprite is
      appended while the list holds fewer than `MAX_SPRITES`, and dropped
      otherwise. */
  function AppendSprite(fl: seq<Sprite>, p: Sprite): (r: seq<Sprite>)
    ensures |fl| < MAX_SPRITES ==> r == AppendSpriteAsWritten(fl, p)
    ensures |fl| >= MAX_SPRITES ==> r == fl
    ensures |fl| <= MAX_SPRITES ==> |r| <= MAX_SPRITES
  {
    if |fl| < MAX_SPRITES then fl + [p] else fl
  }

  /** A sprite list of rotated sprites takes four bytes per sprite. */
  lemma {:induction false} RotatedSprites(ps: seq<Sprite>, k: nat)
    requires k <= |ps| && forall i :: 0 <= i < |ps| ==> ps[i].angle != 0
    ensures |EncodeSprites(ps, k)| == 4 * k
  {
    if k > 0 {
      RotatedSprites(ps, k - 1);
    }
  }

  /** As written, 1515 rotated sprites drawn between two clears make the
      frame longer than the `MSG_MAX_LEN` bytes of `msg`, so
      `draw_force_commit` writes past the buffer; the bounded append drops
      the sprite instead, and a list it builds keeps the frame within
      `MSG_MAX_LEN` (`FrameFits`). */
  lemma SpriteOverflowAsWritten(grid: seq<byte>, fl: seq<Sprite>, p: Sprite)
    requires |grid| == FIXED_LEN && |fl| >= 1514 && p.angle != 0
    requires forall i :: 0 <= i < |fl| ==> fl[i].angle != 0
    ensures var r := AppendSpriteAsWritten(fl, p);
      4 + |EncodeGrid(grid)| + |EncodeSprites(r, |r|)| > MSG_MAX_LEN
    ensures |AppendSprite(fl, p)| <= |fl|
  {
    var r := AppendSpriteAsWritten(fl, p);
    RotatedSprites(r, |r|);
  }

  /** A commit never needs more room than `MSG_MAX_LEN`. */
  lemma FrameFits(grid: seq<byte>, sprites: seq<Sprite>)
    requires |grid| == FIXED_LEN && |sprites| <= MAX_SPRITES
    ensures 4 + |EncodeGrid(grid)| + |EncodeSprites(sprites, |sprites|)| <= MSG_MAX_LEN
  {
  }
}
