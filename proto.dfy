/** The game protocol engine of server/proto.c as objects: each connection
    (`struct p_data`) reads its request line in place and is dispatched
    to the handler of its phase; the server's globals hold the list of
    connections, the counters of bound connections, the running level,
    its deadline, the pause state and the table of level timers.

    The sockets, the screen, the timers and the application are the
    effect log; the clock, the user table, the level table, the level
    callbacks, the write results and the result recorder are the
    `World` an operation is given. */
module Proto {
  import opened Prelude
  import opened CInt
  import opened CString
  import opened Clock
  import opened ProtoLine
  import Draw

  const BUF_SIZE: nat := 1024
  const REDRAW_INTERVAL: int := 200
  const CAN_PAUSE_INTERVAL: int := 1000
  const MAX_TIMERS: nat := 16

  /** The reply of `p_report_win` when the result could not be recorded. */
  const RECORD_FAILED: seq<char> := "Vyskytla se neocekavana chyba pri zaznamenavani vysledku."

  /** A value of a C `int`. */
  type Int32 = x: int | INT_MIN <= x <= INT_MAX

  /** The output of the result recorder, as `exec_wait` leaves it in a
      buffer of `BUF_SIZE + 1` bytes. */
  type Output = s: seq<char> | |s| <= BUF_SIZE

  /** The cells a `maze` callback returns; `p_send_data` needs at least one. */
  type Cells = s: seq<byte> | |s| > 0 witness [0]

  // ---------------------------------------------------------------------
  // The world an operation runs in

  /** `pd->process`: the handler of the next complete line. */
  datatype Phase = AwaitUser | AwaitLevel | Playing

  /** What `app_get_level` tells the engine about a level: its limits and
      which optional callbacks it has. */
  datatype Level = Level(maxConn: int, maxTime: int, hasGetData: bool, hasFreeData: bool, hasMaze: bool)

  /** The result of the `move` callback. */
  datatype MoveResult = MoveOkay | MoveBad | MoveWin | MoveLose

  /** A callback's answer: a message refusing the request, or a value. */
  datatype Answer<T> = Refused(why: seq<char>) | Answered(value: T)

  /** The answers the level callbacks give at the moment of a command. */
  datatype Answers = Answers(
    move: char -> (MoveResult, Option<seq<char>>),
    what: (int, int) -> Answer<Int32>,
    maze: Answer<Cells>,
    getX: Answer<Int32>, getY: Answer<Int32>, getW: Answer<Int32>, getH: Answer<Int32>)

  /** The inputs from outside: the cached clock, the result `socket_write`
      gives, `db_user_exists`, `app_get_level`, the level callbacks, and
      the output of the result recorder (`None` when it failed to run). */
  datatype World = World(now: Timespec, sent: int, userExists: seq<char> -> bool,
                         levels: seq<char> -> Option<Level>, answers: Answers, run: Option<Output>)

  /** What the engine asks of the sockets, the screen, the timers and the
      application, in order. */
  datatype Effect =
    | Sent(id: nat, text: seq<char>)
    | Deleted(id: nat)
    | StoppedReading(id: nat)
    | FlushedAndDeleted(id: nat)
    | FdClosed(id: nat)
    | PassedOn(id: nat, login: seq<char>, crlf: bool)
    | SocketPaused(id: nat, pause: bool)
    | TimerPaused(fd: int)
    | TimerResumed(fd: int)
    | Button(button: int, on: bool)
    | DrawTimerArmed(interval: int)
    | LevelDirty
    | DataAllocated(id: nat)
    | DataFreed(id: nat)
    | CloseCallback

  /** `socket_write` of a reply; a failed write deletes the socket. */
  function Write(id: nat, text: seq<char>, sent: int): (es: seq<Effect>)
  {
    [Sent(id, text)] + (if sent < 0 then [Deleted(id)] else [])
  }

  /** `p_report_and_close`: stop reading, send one `OVER` line, flush and
      close. */
  function Report(id: nat, crlf: bool, msg: Option<seq<char>>, sent: int): (es: seq<Effect>)
    ensures |es| >= 3 && es[0] == StoppedReading(id) && es[1] == Sent(id, Reply("OVER", msg, crlf))
    ensures es[|es| - 1] == FlushedAndDeleted(id)
  {
    [StoppedReading(id)] + Write(id, Reply("OVER", msg, crlf), sent) + [FlushedAndDeleted(id)]
  }

  // ---------------------------------------------------------------------
  // The handlers of a complete line, as values

  /** `process_user`: the first line names an existing user. */
  function UserError(cmd: seq<char>, known: bool): (err: Option<PMsg>)
    ensures err == None <==> cmd == "USER" && known
  {
    if cmd != "USER" then Some(UserExpected)
    else if !known then Some(UserUnknown)
    else None
  }

  predicate IsCode(v: seq<char>) {
    forall i :: 0 <= i < |v| ==> IsCodeChar(v[i])
  }

  /** The checks of `process_level` and `start_level`, in their order: the
      command, the characters of the code, the code of the running level,
      the number of bound connections, and a level of that code to start
      when none runs. */
  function LevelError(cmd: seq<char>, v: seq<char>, code: Option<seq<char>>, boundCount: int, boundMax: int,
                      found: Option<Level>): (err: Option<PMsg>)
    ensures err == None <==>
      && cmd == "LEVL" && IsCode(v) && (code.Some? ==> v == code.value)
      && boundCount < boundMax && (code.None? ==> found.Some?)
    ensures cmd != "LEVL" ==> err == Some(LevlExpected)
    ensures cmd == "LEVL" && IsCode(v) && code.Some? && v != code.value ==> err == Some(LevlNotMatching)
  {
    if cmd != "LEVL" then Some(LevlExpected)
    else if !IsCode(v) then Some(LevlBadChars)
    else if code.Some? && v != code.value then Some(LevlNotMatching)
    else if boundCount >= boundMax then Some(ConnTooMany)
    else if code.None? && found.None? then Some(LevlUnknown)
    else None
  }

  /** What `process_cmd` makes of a complete line: an error to report, a
      reply, nothing, the end of the game won or lost, or a pause. */
  datatype Outcome =
    | Fail(m: PMsg)
    | Say(status: seq<char>, data: Option<seq<char>>)
    | Silent
    | Win(nope: Option<seq<char>>)
    | Lose(nope: Option<seq<char>>)
    | Wait

  /** `p_send_int` of a value or `p_send_nope` of a refusal. */
  function Said(a: Answer<Int32>): Outcome {
    match a
    case Refused(why) => Say("NOPE", Some(why))
    case Answered(v) => Say("DATA", Some(Decimal(v)))
  }

  /** The commands of a bound connection. */
  const COMMANDS: seq<seq<char>> := ["MOVE", "WHAT", "MAZE", "GETX", "GETY", "GETW", "GETH", "WAIT"]

  /** `MOVE`: one character, handed to the level. A refused move without
      a message is not answered. */
  function MoveOutcome(l: Line, a: Answers): (o: Outcome)
    ensures o.Fail? <==> l.valLen != 1
    ensures !o.Wait?
  {
    if l.valLen != 1 then Fail(CharExpected)
    else Moved(a.move(l.val[0]).0, a.move(l.val[0]).1)
  }

  /** What the level's verdict on a move makes of it. */
  function Moved(res: MoveResult, nope: Option<seq<char>>): Outcome {
    match res
    case MoveOkay => Say("DONE", None)
    case MoveBad => if nope.Some? then Say("NOPE", nope) else Silent
    case MoveWin => Win(nope)
    case MoveLose => Lose(nope)
  }

  /** `WHAT`: two numbers, handed to the level. */
  function WhatOutcome(l: Line, a: Answers): (o: Outcome)
    ensures o.Fail? <==> Get2Int(Value(l)).None?
    ensures o.Say? ==> o.data.Some?
  {
    match Get2Int(Value(l))
    case None => Fail(TwoIntExpected)
    case Some((x, y)) => Said(a.what(x, y))
  }

  /** The two numbers `WHAT` reads decide its outcome. */
  lemma WhatOutcomeIs(l: Line, v: seq<char>, a: Answers, ok: bool, x: int, y: int)
    requires v == Value(l) && (ok <==> Get2Int(v).Some?) && (ok ==> (x, y) == Get2Int(v).value)
    ensures WhatOutcome(l, a) == if ok then Said(a.what(x, y)) else Fail(TwoIntExpected)
  {
  }

  /** `MAZE`: no value, and only from a level that gives out its maze. */
  function MazeOutcome(isVal: bool, hasMaze: bool, a: Answers): (o: Outcome)
    ensures o.Fail? <==> isVal || !hasMaze
    ensures o.Say? ==> o.data.Some? && (o.status == "DATA" <==> a.maze.Answered?)
  {
    if isVal then Fail(ExtraParam)
    else if !hasMaze then Fail(MazeNotAvail)
    else
      match a.maze
      case Refused(why) => Say("NOPE", Some(why))
      case Answered(cells) => Say("DATA", Some(DataText(Values(Bytes(cells)))))
  }

  /** The commands that ask the level for one number. */
  const QUERIES: seq<seq<char>> := ["GETX", "GETY", "GETW", "GETH"]

  /** The getter of the level a query command calls. */
  function Query(cmd: seq<char>, a: Answers): Answer<Int32>
    requires cmd in QUERIES
  {
    if cmd == "GETX" then a.getX
    else if cmd == "GETY" then a.getY
    else if cmd == "GETW" then a.getW
    else a.getH
  }

  /** `GETX`, `GETY`, `GETW`, `GETH`: no value, and the level's answer. */
  function QueryOutcome(isVal: bool, ans: Answer<Int32>): (o: Outcome)
    ensures o.Fail? <==> isVal
    ensures !isVal ==> o.Say? && (o.status == "DATA" <==> ans.Answered?)
  {
    if isVal then Fail(ExtraParam) else Said(ans)
  }

  /** The error an outcome reports, if it is one. */
  function Failure(o: Outcome): Option<PMsg> {
    if o.Fail? then Some(o.m) else None
  }

  /** `process_cmd`: once the deadline has passed every command fails;
      otherwise each command checks its value and asks the level. */
  function CmdOutcome(l: Line, expired: bool, hasMaze: bool, a: Answers): (o: Outcome)
    ensures o.Wait? <==> !expired && l.cmd == "WAIT" && !l.isVal
    ensures !expired && l.cmd !in COMMANDS ==> o == Fail(CmdUnknown)
  {
    if expired then Fail(Timeout)
    else if l.cmd == "WAIT" then (if l.isVal then Fail(ExtraParam) else Wait)
    else Request(l, hasMaze, a)
  }

  /** The commands other than `WAIT`: each is answered at once, and none
      pauses the game. */
  function Request(l: Line, hasMaze: bool, a: Answers): (o: Outcome)
    ensures !o.Wait?
  {
    if l.cmd == "MOVE" then MoveOutcome(l, a)
    else if l.cmd == "WHAT" then WhatOutcome(l, a)
    else if l.cmd == "MAZE" then MazeOutcome(l.isVal, hasMaze, a)
    else if l.cmd in QUERIES then QueryOutcome(l.isVal, Query(l.cmd, a))
    else Fail(CmdUnknown)
  }

  /** Once the deadline has passed, every command fails. */
  lemma ExpiredFails(l: Line, hasMaze: bool, a: Answers)
    ensures CmdOutcome(l, true, hasMaze, a) == Fail(Timeout)
  {
  }

  /** Exactly the words outside the eight commands are unknown. */
  lemma UnknownCommand(l: Line, hasMaze: bool, a: Answers)
    ensures CmdOutcome(l, false, hasMaze, a) == Fail(CmdUnknown) <==> l.cmd !in COMMANDS
  {
  }

  /** The commands other than `MOVE` and `WHAT` take no value. */
  lemma ValueRefused(l: Line, hasMaze: bool, a: Answers)
    requires l.cmd in COMMANDS[2..] && l.isVal
    ensures CmdOutcome(l, false, hasMaze, a) == Fail(ExtraParam)
  {
  }

  /** `MOVE` is refused exactly when its value is not one character. */
  lemma MoveRefused(l: Line, hasMaze: bool, a: Answers)
    ensures CmdOutcome(l, false, hasMaze, a) == Fail(CharExpected) <==> l.cmd == "MOVE" && l.valLen != 1
  {
  }

  /** `WHAT` is refused exactly when its value is not two numbers. */
  lemma WhatRefused(l: Line, hasMaze: bool, a: Answers)
    ensures CmdOutcome(l, false, hasMaze, a) == Fail(TwoIntExpected) <==> l.cmd == "WHAT" && Get2Int(Value(l)).None?
  {
  }

  /** `MAZE` is refused exactly by a level without the maze callback. */
  lemma MazeRefused(l: Line, hasMaze: bool, a: Answers)
    ensures CmdOutcome(l, false, hasMaze, a) == Fail(MazeNotAvail) <==> l.cmd == "MAZE" && !l.isVal && !hasMaze
  {
  }

  /** Only a `WAIT` without a value pauses the game. */
  lemma OnlyWaitPauses(l: Line, expired: bool, hasMaze: bool, a: Answers)
    ensures CmdOutcome(l, expired, hasMaze, a).Wait? <==> !expired && l.cmd == "WAIT" && !l.isVal
  {
  }

  predicate StartsWith(s: seq<char>, p: seq<char>) {
    |s| >= |p| && s[..|p|] == p
  }

  /** The closing message of `p_report_win`: the level's message when the
      recorder answers "OK", the recorder's own report after "REPORT: "
      (without its line end), and a fixed complaint when it fails to run,
      answers "ERROR: ", reports nothing or answers anything else. */
  function WinMessage(nope: Option<seq<char>>, run: Option<Output>): (msg: Option<seq<char>>)
    ensures msg == nope || msg == Some(RECORD_FAILED) || (run.Some? && StartsWith(run.value, "REPORT: "))
  {
    if run.None? then Some(RECORD_FAILED)
    else
      var out := run.value;
      if StartsWith(out, "ERROR: ") then Some(RECORD_FAILED)
      else if StartsWith(out, "REPORT: ") then
        var body := if out[|out| - 1] == '\n' then out[..|out| - 1] else out;
        if |body| == 8 then Some(RECORD_FAILED) else Some(CStr(body[8..]))
      else if !StartsWith(out, "OK") then Some(RECORD_FAILED)
      else nope
  }

  /** The effects of an outcome on connection `id`; `pause` are those of
      `proto_pause`. */
  function OutcomeEffects(id: nat, crlf: bool, o: Outcome, sent: int, run: Option<Output>, pause: seq<Effect>): seq<Effect> {
    match o
    case Fail(_) => []
    case Say(status, data) => Write(id, Reply(status, data, crlf), sent)
    case Silent => []
    case Win(nope) => Report(id, crlf, WinMessage(nope, run), sent)
    case Lose(nope) => Report(id, crlf, nope, sent)
    case Wait => Write(id, Reply("DONE", None, crlf), sent) + pause
  }

  /** The handler of the connection's phase refuses the line with this
      message, or accepts it. */
  function PhaseError(phase: Phase, l: Line, code: Option<seq<char>>, boundCount: int, boundMax: int,
                      hasMaze: bool, expired: bool, w: World): (err: Option<PMsg>)
    ensures phase == AwaitUser ==> (err == None <==> l.cmd == "USER" && w.userExists(Value(l)))
    ensures phase == AwaitLevel && l.cmd != "LEVL" ==> err == Some(LevlExpected)
    ensures phase == Playing && expired ==> err == Some(Timeout)
  {
    match phase
    case AwaitUser => UserError(l.cmd, w.userExists(Value(l)))
    case AwaitLevel => LevelError(l.cmd, Value(l), code, boundCount, boundMax, w.levels(Value(l)))
    case Playing =>
      Failure(CmdOutcome(l, expired, hasMaze, w.answers))
  }

  // ---------------------------------------------------------------------
  // Pause and resume, as values

  /** The clock state of the running level: whether it has a deadline and
      which, the end of the interval in which a pause freezes the time
      left, the time frozen by the last pause, and whether the game is
      paused (`p_waiting`). */
  datatype Timing = Timing(endSet: bool, end: Timespec, canPauseUntil: Timespec, pausedTime: int, waiting: bool)

  /** `proto_pause` on the clocks at the instant `now`. */
  function Paused(k: Timing, now: Timespec): (r: Timing)
    ensures r.waiting && r.endSet == k.endSet && r.end == k.end && r.canPauseUntil == k.canPauseUntil
    ensures r.pausedTime >= 0 || r.pausedTime == k.pausedTime
  {
    if k.waiting then k
    else if !k.endSet then k.(waiting := true)
    else if Later(now, k.canPauseUntil) then k.(pausedTime := 0, waiting := true)
    else k.(pausedTime := MsLeft(k.end, now), waiting := true)
  }

  /** `proto_resume` on the clocks at the instant `now`. */
  function Resumed(k: Timing, now: Timespec): (r: Timing)
    ensures !r.waiting && r.endSet == k.endSet && r.canPauseUntil == k.canPauseUntil && r.pausedTime == k.pausedTime
  {
    if !k.waiting then k
    else if k.endSet && k.pausedTime != 0 then k.(waiting := false, end := TimeAdd(now, k.pausedTime))
    else k.(waiting := false)
  }

  /** The clocks after `start_level` at the instant `now`: pauses freeze
      the time left during the first `CAN_PAUSE_INTERVAL` milliseconds,
      and a level with a time limit gets its deadline. */
  function Started(k: Timing, lv: Level, now: Timespec): (r: Timing)
    ensures r.waiting == k.waiting && r.pausedTime == k.pausedTime
    ensures lv.maxTime == 0 ==> r.endSet == k.endSet && r.end == k.end
  {
    var k1 := k.(canPauseUntil := TimeAdd(now, CAN_PAUSE_INTERVAL));
    if lv.maxTime != 0 then k1.(end := TimeAdd(now, lv.maxTime * 1000), endSet := true) else k1
  }

  /** The effects of `start_level`: the redraw timer and the kill button. */
  const START_EFFECTS: seq<Effect> := [DrawTimerArmed(REDRAW_INTERVAL), Button(Draw.BUTTON_KILL, true)]

  /** The effects of binding connection `id` to the level `lv`: its data,
      the screen, the acknowledgement, and the pause of its socket while
      the game is paused. */
  function BindEffects(id: nat, crlf: bool, lv: Level, sent: int, waiting: bool): seq<Effect> {
    (if lv.hasGetData then [DataAllocated(id)] else []) + [LevelDirty]
    + Write(id, Reply("DONE", None, crlf), sent) + (if waiting then [SocketPaused(id, true)] else [])
  }

  function TimerEffects(fds: seq<int>, pause: bool): seq<Effect> {
    seq(|fds|, i requires 0 <= i < |fds| => if pause then TimerPaused(fds[i]) else TimerResumed(fds[i]))
  }

  function SocketEffects(ids: seq<nat>, pause: bool): seq<Effect> {
    seq(|ids|, i requires 0 <= i < |ids| => SocketPaused(ids[i], pause))
  }

  /** The effects of `proto_pause`: the timers, the sockets, the button. */
  function PauseEffects(fds: seq<int>, ids: seq<nat>): seq<Effect> {
    TimerEffects(fds, true) + SocketEffects(ids, true) + [Button(Draw.BUTTON_WAIT, true)]
  }

  /** The effects of `proto_resume`: the sockets, the button, the timers. */
  function ResumeEffects(fds: seq<int>, ids: seq<nat>): seq<Effect> {
    SocketEffects(ids, false) + [Button(Draw.BUTTON_WAIT, false)] + TimerEffects(fds, false)
  }

  /** The chunks `p_read` takes from the socket, in order. */
  function Joined(chunks: seq<seq<char>>): seq<char>
    decreases |chunks|
  {
    if |chunks| == 0 then [] else Joined(chunks[..|chunks| - 1]) + chunks[|chunks| - 1]
  }

  /** Reading two runs of chunks reads their bytes one after the other. */
  lemma {:induction false} JoinedAppend(a: seq<seq<char>>, b: seq<seq<char>>)
    ensures Joined(a + b) == Joined(a) + Joined(b)
    decreases |b|
  {
    if |b| > 0 {
      var b' := b[..|b| - 1];
      assert (a + b)[..|a + b| - 1] == a + b';
      JoinedAppend(a, b');
      AppendAssoc(Joined(a), Joined(b'), b[|b| - 1]);
    } else {
      assert a + b == a;
    }
  }

  /** `p_report_error`: the refusal's text closes the connection. */
  function Refusal(id: nat, crlf: bool, m: PMsg, sent: int): seq<Effect> {
    Report(id, crlf, Some(Text(m)), sent)
  }

  /** The line after `check_msg_complete` has handled it: kept for the
      report of a refusal, cleared after an accepted one. */
  function Concluded(l: Line, err: Option<PMsg>): (r: Line)
    ensures err.None? ==> Fresh(r) && Terminated(r) && r.crlf == l.crlf
    ensures err.Some? ==> r == l
  {
    if err.Some? then l else Reset(l)
  }

  // ---------------------------------------------------------------------
  // A connection: `struct p_data`

  /** The line being read on a connection: the reading fields of
      `struct p_data`. */
  class Reader {
    /** The command letters read so far (`cmd`, `cmd_len`). */
    var cmd: seq<char>
    /** The value buffer, NUL-terminated at `valLen`. */
    const val: array<char>
    var valLen: nat
    var complete: bool
    var isVal: bool
    var crlf: bool
    var expectLf: bool

    /** The buffer has its size, and the line read so far is well formed
        and terminated. */
    predicate Valid()
      reads this, val
    {
      && val.Length == VAL_LEN + 1 && valLen <= VAL_LEN
      && LineOk(Line(cmd, val[..], valLen, complete, isVal, crlf, expectLf))
      && Terminated(Line(cmd, val[..], valLen, complete, isVal, crlf, expectLf))
    }

    /** The reading state as a value. */
    function Reading(): (l: Line)
      requires Valid()
      reads this, val
      ensures LineOk(l) && Terminated(l)
    {
      Line(cmd, val[..], valLen, complete, isVal, crlf, expectLf)
    }

    /** The value in the buffer, as the handlers read it. */
    function Val(): (v: seq<char>)
      reads val
      ensures Valid() ==> v == Value(Reading())
    {
      CStr(val[..])
    }

    /** A line not begun, with the line end `crlf`. */
    constructor (crlf: bool)
      ensures Valid() && fresh(val)
      ensures Reading() == Line([], seq(VAL_LEN + 1, _ => '\0'), 0, false, false, crlf, false)
    {
      cmd := [];
      val := new char[VAL_LEN + 1](_ => '\0');
      valLen := 0;
      complete, isVal, this.crlf, expectLf := false, false, crlf, false;
      new;
      assert val[..][..0] == [];
    }

    /** One pass of the loop of `process_msg_chunk`. A refused byte
        leaves the state as it was. */
    method Step(ch: char) returns (err: Option<PMsg>)
      requires Valid()
      modifies this, val
      ensures Valid()
      ensures var r := LineStep(old(Reading()), ch);
        if r.Going? then err == None && Reading() == r.s else err == Some(r.r) && Reading() == old(Reading())
    {
      StepKeepsLineOk(Reading(), ch);
      if |cmd| < CMD_LEN {
        if ch < 'A' || ch > 'Z' {
          return Some(CmdNoLetter);
        }
        cmd := cmd + [ch];
        return None;
      }
      if complete {
        return Some(Impatient);
      }
      if expectLf {
        if ch != '\n' {
          return Some(InvalidEol);
        }
        expectLf, crlf, complete := false, true, true;
        return None;
      }
      if valLen == 0 {
        if ch == ' ' || ch == '\t' {
          isVal := true;
          return None;
        }
        if !isVal && ch != '\r' && ch != '\n' {
          return Some(CmdExtraChars);
        }
      }
      if ch == '\r' {
        expectLf := true;
        return None;
      }
      if ch == '\n' {
        crlf, complete := false, true;
        return None;
      }
      if ch == '\0' {
        return Some(ValContainsNull);
      }
      if valLen == VAL_LEN {
        return Some(ValTooLong);
      }
      val[valLen] := ch;
      valLen := valLen + 1;
      val[valLen] := '\0';
      return None;
    }

    /** `process_msg_chunk(pd, buf, |buf|)`: the bytes in order until one
        is refused. */
    method ProcessMsgChunk(buf: seq<char>) returns (err: Option<PMsg>)
      requires Valid()
      modifies this, val
      ensures Valid()
      ensures var r := Chunk(old(Reading()), buf);
        if r.Going? then err == None && Reading() == r.s else err == Some(r.r)
    {
      ghost var total := Chunk(Reading(), buf);
      var i := 0;
      while i < |buf|
        invariant Valid() && i <= |buf|
        invariant total == Chunk(Reading(), buf[i..])
        decreases |buf| - i
      {
        assert buf[i..] == [buf[i]] + buf[i + 1..];
        FoldCons(LineSteps(), Reading(), buf[i], buf[i + 1..]);
        err := Step(buf[i]);
        if err.Some? {
          return;
        }
        i := i + 1;
      }
      return None;
    }

    /** The loop of `p_read`: the chunks the socket gives, in order,
        until one holds a refused byte. */
    method ProcessChunks(chunks: seq<seq<char>>) returns (err: Option<PMsg>)
      requires Valid()
      modifies this, val
      ensures Valid()
      ensures var r := Chunk(old(Reading()), Joined(chunks));
        if r.Going? then err == None && Reading() == r.s else err == Some(r.r)
    {
      ghost var l0 := Reading();
      var i := 0;
      while i < |chunks|
        invariant Valid() && i <= |chunks|
        invariant Chunk(l0, Joined(chunks[..i])) == Going(Reading())
      {
        ghost var done := Joined(chunks[..i]);
        assert chunks[..i + 1][..i] == chunks[..i];
        ChunkAppend(l0, done, chunks[i]);
        err := ProcessMsgChunk(chunks[i]);
        if err.Some? {
          assert chunks == chunks[..i + 1] + chunks[i + 1..];
          JoinedAppend(chunks[..i + 1], chunks[i + 1..]);
          ChunkAppend(l0, Joined(chunks[..i + 1]), Joined(chunks[i + 1..]));
          return;
        }
        i := i + 1;
      }
      assert chunks[..i] == chunks;
      return None;
    }

    /** The reset of `check_msg_complete` after a processed line, with the
        value buffer emptied (see `ProtoLine.Reset`). */
    method ResetLine()
      requires Valid()
      modifies this, val
      ensures Valid() && Reading() == Reset(old(Reading()))
    {
      cmd, valLen, complete, isVal, expectLf := [], 0, false, false, false;
      val[0] := '\0';
      assert val[..][..0] == [];
    }
  }


  /** A connection: `struct p_data`. */
  class Conn {
    /** The socket of the connection. */
    const id: nat
    /** The line being read. */
    const line: Reader
    /** `process`: the handler of the next complete line. */
    var phase: Phase
    /** Whether the connection counts in `p_bound_count`. */
    var bound: bool

    /** `szalloc` of a `struct p_data`, with the handler and line end the
        caller sets: `p_server_new` for a new player socket (`USER`
        first), `proto_client_add` for a socket passed on (`LEVL` next). */
    constructor (id: nat, phase: Phase, crlf: bool)
      ensures this.id == id && this.phase == phase && !bound && line.Valid()
      ensures line.Reading() == Line([], seq(VAL_LEN + 1, _ => '\0'), 0, false, false, crlf, false)
      ensures fresh(line) && fresh(line.val)
    {
      this.id := id;
      line := new Reader(crlf);
      this.phase := phase;
      bound := false;
    }
  }

  // ---------------------------------------------------------------------
  // Building a reply: `p_send_msg`

  /** A move that wins or loses the game is answered with the report. */
  lemma EndedEffects(id: nat, crlf: bool, won: bool, nope: Option<seq<char>>, sent: int, run: Option<Output>)
    ensures OutcomeEffects(id, crlf, Moved(if won then MoveWin else MoveLose, nope), sent, run, [])
      == Report(id, crlf, if won then WinMessage(nope, run) else nope, sent)
  {
  }

  /** The buffer `p_send_msg` fills: the status, a space and the data,
      then the line end. */
  method BuildReply(status: seq<char>, data: Option<seq<char>>, crlf: bool) returns (msg: seq<char>)
    requires |status| == CMD_LEN
    ensures msg == Reply(status, data, crlf)
  {
    var dataLen := if data.Some? then |data.value| + 1 else 0;
    var msgLen := 4 + dataLen + (if crlf then 2 else 1);
    var buf := new char[msgLen];
    forall i | 0 <= i < 4 {
      buf[i] := status[i];
    }
    if data.Some? {
      buf[4] := ' ';
      forall i | 0 <= i < dataLen - 1 {
        buf[5 + i] := data.value[i];
      }
    }
    if crlf {
      buf[4 + dataLen] := '\r';
      buf[4 + dataLen + 1] := '\n';
    } else {
      buf[4 + dataLen] := '\n';
    }
    msg := buf[..];
    ghost var r := Reply(status, data, crlf);
    assert |msg| == |r|;
    forall k | 0 <= k < |msg|
      ensures msg[k] == r[k]
    {
      if k >= 4 + dataLen {
        assert r[|r| - |Eol(crlf)|..] == Eol(crlf);
        assert r[k] == Eol(crlf)[k - (4 + dataLen)];
      } else if k >= 5 {
        assert r[5..5 + |data.value|] == data.value;
        assert r[k] == data.value[k - 5];
      } else if k < 4 {
        assert r[..4] == status;
      }
    }
  }

  // ---------------------------------------------------------------------
  // The server: the globals of server/proto.c

  class Server {
    /** `p_sockets`: the sockets of the bound and binding connections,
        most recent first. */
    var sockets: seq<nat>
    var count: int
    var boundCount: int
    var boundMax: int
    /** `p_code` and `p_level`: the running level. */
    var code: Option<seq<char>>
    var level: Option<Level>
    var endSet: bool
    var end: Timespec
    var canPauseUntil: Timespec
    var pausedTime: int
    var waiting: bool
    /** `timers` and `timers_cnt`: the level's timers. */
    const timers: array<int>
    var timersCnt: nat
    var login: seq<char>
    var hasCloseCb: bool
    /** Everything asked of the sockets, the screen, the timers and the
        application, in order. */
    var log: seq<Effect>

    /** The counter counts the list, the timer table has its size, and no
        connection is bound before a level runs. */
    predicate Valid()
      reads this`sockets, this`count, this`boundCount, this`code, this`level, this`timersCnt
    {
      && count == |sockets|
      && timers.Length == MAX_TIMERS && timersCnt <= MAX_TIMERS
      && (code.Some? <==> level.Some?)
      && (code.None? ==> boundCount == 0)
    }

    function Clocks(): Timing
      reads this`endSet, this`end, this`canPauseUntil, this`pausedTime, this`waiting
    {
      Timing(endSet, end, canPauseUntil, pausedTime, waiting)
    }

    /** The timers in the table, in order. */
    function Timers(): seq<int>
      requires timersCnt <= timers.Length
      reads this`timersCnt, timers
    {
      timers[..timersCnt]
    }

    /** `proto_client_init`, with the timer table empty as it starts. */
    constructor (login: seq<char>, closeCb: bool)
      ensures Valid() && sockets == [] && boundCount == 0 && boundMax == 1
      ensures code == None && level == None && !endSet && !waiting && pausedTime == 0
      ensures Timers() == [] && this.login == login && hasCloseCb == closeCb && log == []
    {
      sockets, count, boundCount, boundMax := [], 0, 0, 1;
      code, level := None, None;
      endSet, end, canPauseUntil, pausedTime, waiting := false, Timespec(0, 0), Timespec(0, 0), 0, false;
      timers := new int[MAX_TIMERS](_ => 0);
      timersCnt := 0;
      this.login, hasCloseCb := login, closeCb;
      log := [];
    }

    /** `proto_client_add`: a socket the event loop refuses is closed;
        otherwise the connection joins the front of the list in the
        `LEVL` phase and is greeted with `DONE`. */
    method ClientAdd(id: nat, crlf: bool, added: bool, sent: int) returns (ret: int, c: Conn?)
      requires Valid()
      modifies this`sockets, this`count, this`log
      ensures Valid()
      ensures !added ==> ret == -ENOTSOCK && c == null && sockets == old(sockets) && log == old(log) + [FdClosed(id)]
      ensures added ==>
        && c != null && fresh(c) && c.line.Valid() && Fresh(c.line.Reading()) && c.id == id && c.line.crlf == crlf
        && c.phase == AwaitLevel && !c.bound
        && sockets == [id] + old(sockets) && log == old(log) + Write(id, Reply("DONE", None, crlf), sent) && ret == sent
    {
      if !added {
        log := log + [FdClosed(id)];
        return -ENOTSOCK, null;
      }
      ret, c := Join(id, crlf, sent);
    }

    /** The socket was added: the connection joins and is greeted. */
    method Join(id: nat, crlf: bool, sent: int) returns (ret: int, c: Conn)
      requires Valid()
      modifies this`sockets, this`count, this`log
      ensures Valid()
      ensures fresh(c) && c.line.Valid() && Fresh(c.line.Reading()) && c.id == id && c.line.crlf == crlf
      ensures c.phase == AwaitLevel && !c.bound
      ensures sockets == [id] + old(sockets) && log == old(log) + Write(id, Reply("DONE", None, crlf), sent) && ret == sent
    {
      c := new Conn(id, AwaitLevel, crlf);
      assert Fresh(c.line.Reading());
      sockets := [id] + sockets;
      count := count + 1;
      ret := SendMsg(c, "DONE", None, sent);
    }

    /** `p_free`: the connection leaves the list and the counters; the
        level frees its data, and the close callback runs when the last
        connection or a bound one goes. */
    method Free(c: Conn)
      modifies this`sockets, this`count, this`boundCount, this`log
      ensures sockets == RemoveFirst(old(sockets), c.id) && count == old(count) - 1
      ensures boundCount == old(boundCount) - (if c.bound then 1 else 0)
      ensures log == old(log)
        + (if level.Some? && level.value.hasFreeData then [DataFreed(c.id)] else [])
        + (if (count == 0 || c.bound) && hasCloseCb then [CloseCallback] else [])
      ensures old(Valid()) && c.id in old(sockets) && (c.bound ==> code.Some?) ==> Valid()
    {
      sockets := RemoveFirst(sockets, c.id);
      count := count - 1;
      if c.bound {
        boundCount := boundCount - 1;
      }
      var freed := if level.Some? && level.value.hasFreeData then [DataFreed(c.id)] else [];
      var closed := if (count == 0 || c.bound) && hasCloseCb then [CloseCallback] else [];
      log := log + freed + closed;
    }

    /** `proto_cond_close`: the close callback runs when no connection is
        left. */
    method CondClose()
      modifies this`log
      ensures log == old(log) + (if count == 0 && hasCloseCb then [CloseCallback] else [])
    {
      if count == 0 && hasCloseCb {
        log := log + [CloseCallback];
      }
    }

    /** `pd->process`: the handler of the connection's phase. A refused
        line leaves the engine as it was. */
    method Process(c: Conn, w: World) returns (err: Option<PMsg>)
      requires Valid() && c.line.Valid() && (c.phase == Playing ==> level.Some?)
      modifies this`code, this`level, this`boundMax, this`canPauseUntil, this`end, this`endSet
      modifies this`boundCount, this`log, this`pausedTime, this`waiting, c`phase, c`bound
      ensures Valid()
      ensures err == PhaseError(old(c.phase), c.line.Reading(), old(code), old(boundCount), old(boundMax),
                                old(level.Some? && level.value.hasMaze), old(endSet && Later(w.now, end)), w)
      ensures err.Some? ==> log == old(log)
    {
      match c.phase {
        case AwaitUser =>
          err := ProcessUser(c, w);
        case AwaitLevel =>
          err := ProcessLevel(c, w);
        case Playing =>
          err := ProcessCmd(c, w);
      }
    }

    /** `p_read`: the bytes the socket gives until one is refused, which
        ends the connection; then a complete line is handled. */
    method Read(c: Conn, chunks: seq<seq<char>>, w: World)
      requires Valid() && c.line.Valid() && (c.phase == Playing ==> level.Some?)
      modifies this`code, this`level, this`boundMax, this`canPauseUntil, this`end, this`endSet
      modifies this`boundCount, this`log, this`pausedTime, this`waiting
      modifies c`phase, c`bound, c.line, c.line.val
      ensures Valid() && c.line.Valid()
      ensures var r := Chunk(old(c.line.Reading()), Joined(chunks));
        && (r.Halted? ==> log == old(log) + Refusal(c.id, c.line.crlf, r.r, w.sent))
        && (r.Going? && !r.s.complete ==> log == old(log) && c.line.Reading() == r.s)
        && (r.Going? && r.s.complete ==>
              var e := PhaseError(old(c.phase), r.s, old(code), old(boundCount), old(boundMax),
                                  old(level.Some? && level.value.hasMaze), old(endSet && Later(w.now, end)), w);
              && c.line.Reading() == Concluded(r.s, e)
              && (e.Some? ==> log == old(log) + Refusal(c.id, c.line.crlf, e.value, w.sent)))
    {
      var ok := ReadChunks(c, chunks, w.sent);
      if ok {
        CheckMsgComplete(c, w);
      }
    }

    /** The loop of `p_read` and the report of a refused byte. */
    method ReadChunks(c: Conn, chunks: seq<seq<char>>, sent: int) returns (ok: bool)
      requires Valid() && c.line.Valid()
      modifies this`log, c.line, c.line.val
      ensures Valid() && c.line.Valid()
      ensures var r := Chunk(old(c.line.Reading()), Joined(chunks));
        && ok == r.Going?
        && (r.Halted? ==> log == old(log) + Refusal(c.id, c.line.crlf, r.r, sent))
        && (r.Going? ==> log == old(log) && c.line.Reading() == r.s)
    {
      var err := c.line.ProcessChunks(chunks);
      if err.Some? {
        ReportError(c, err.value, sent);
        return false;
      }
      return true;
    }

    /** `check_msg_complete`: only a complete line is handled. */
    method CheckMsgComplete(c: Conn, w: World)
      requires Valid() && c.line.Valid() && (c.phase == Playing ==> level.Some?)
      modifies this`code, this`level, this`boundMax, this`canPauseUntil, this`end, this`endSet
      modifies this`boundCount, this`log, this`pausedTime, this`waiting
      modifies c`phase, c`bound, c.line, c.line.val
      ensures Valid() && c.line.Valid()
      ensures !old(c.line.complete) ==> log == old(log) && c.line.Reading() == old(c.line.Reading())
      ensures old(c.line.complete) ==>
        var e := PhaseError(old(c.phase), old(c.line.Reading()), old(code), old(boundCount), old(boundMax),
                            old(level.Some? && level.value.hasMaze), old(endSet && Later(w.now, end)), w);
        && c.line.Reading() == Concluded(old(c.line.Reading()), e)
        && (e.Some? ==> log == old(log) + Refusal(c.id, c.line.crlf, e.value, w.sent))
    {
      if c.line.complete {
        Handle(c, w);
      }
    }

    /** A complete line goes to the handler of its phase; a refused one
        ends the connection, an accepted one makes room for the next
        line. */
    method Handle(c: Conn, w: World)
      requires Valid() && c.line.Valid() && (c.phase == Playing ==> level.Some?)
      modifies this`code, this`level, this`boundMax, this`canPauseUntil, this`end, this`endSet
      modifies this`boundCount, this`log, this`pausedTime, this`waiting
      modifies c`phase, c`bound, c.line, c.line.val
      ensures Valid() && c.line.Valid()
      ensures var e := PhaseError(old(c.phase), old(c.line.Reading()), old(code), old(boundCount), old(boundMax),
                                  old(level.Some? && level.value.hasMaze), old(endSet && Later(w.now, end)), w);
        && c.line.Reading() == Concluded(old(c.line.Reading()), e)
        && (e.Some? ==> log == old(log) + Refusal(c.id, c.line.crlf, e.value, w.sent))
    {
      var err := Process(c, w);
      Conclude(c, err, w.sent);
    }

    /** The end of `check_msg_complete`: a refusal is reported, an
        accepted line is cleared. */
    method Conclude(c: Conn, err: Option<PMsg>, sent: int)
      requires c.line.Valid()
      modifies this`log, c.line, c.line.val
      ensures c.line.Valid() && c.line.Reading() == Concluded(old(c.line.Reading()), err)
      ensures log == old(log) + (if err.Some? then Refusal(c.id, c.line.crlf, err.value, sent) else [])
      ensures err.None? ==> log == old(log) && c.line.Reading() == Reset(old(c.line.Reading()))
    {
      if err.Some? {
        ReportError(c, err.value, sent);
      } else {
        c.line.ResetLine();
      }
    }

    /** `p_send_msg`: the result is that of the write. */
    method SendMsg(c: Conn, status: seq<char>, data: Option<seq<char>>, sent: int) returns (ret: int)
      requires |status| == CMD_LEN
      modifies this`log
      ensures log == old(log) + Write(c.id, Reply(status, data, c.line.crlf), sent) && ret == sent
    {
      var msg := BuildReply(status, data, c.line.crlf);
      log := log + [Sent(c.id, msg)];
      ret := sent;
      if ret < 0 {
        log := log + [Deleted(c.id)];
      }
    }

    /** `p_send_data` with the members `m`. */
    method SendData(c: Conn, m: Members, sent: int) returns (ret: int)
      requires |Values(m)| > 0 && (m.Ints? ==> forall i :: 0 <= i < |m.ints| ==> IsInt32(m.ints[i]))
      modifies this`log
      ensures log == old(log) + Write(c.id, Reply("DATA", Some(DataText(Values(m))), c.line.crlf), sent) && ret == sent
    {
      var text := SendDataText(m);
      ret := SendMsg(c, "DATA", Some(text), sent);
    }

    /** `p_send_int`: a `DATA` reply with one number. */
    method SendInt(c: Conn, v: Int32, sent: int) returns (ret: int)
      modifies this`log
      ensures log == old(log) + Write(c.id, Reply("DATA", Some(Decimal(v)), c.line.crlf), sent) && ret == sent
    {
      OneValueText(v);
      ret := SendData(c, Ints([v]), sent);
    }

    /** `process_user`: the socket of a known user is passed on to the
        user's process, with the line end the user chose. */
    method ProcessUser(c: Conn, w: World) returns (err: Option<PMsg>)
      modifies this`log
      ensures err == UserError(c.line.cmd, w.userExists(c.line.Val()))
      ensures log == old(log) + (if err.None? then [PassedOn(c.id, c.line.Val(), c.line.crlf)] else [])
    {
      if c.line.cmd != "USER" {
        return Some(UserExpected);
      }
      var v := c.line.Val();
      if !w.userExists(v) {
        return Some(UserUnknown);
      }
      log := log + [PassedOn(c.id, v, c.line.crlf)];
      return None;
    }

    /** `start_level` for the level `lv` of code `v`. */
    method StartLevel(v: seq<char>, lv: Level, now: Timespec)
      modifies this`code, this`level, this`boundMax, this`canPauseUntil, this`end, this`endSet, this`log
      ensures code == Some(v) && level == Some(lv) && boundMax == lv.maxConn
      ensures Clocks() == Started(old(Clocks()), lv, now)
      ensures log == old(log) + START_EFFECTS
    {
      code := Some(v);
      boundMax := lv.maxConn;
      canPauseUntil := TimeAdd(now, CAN_PAUSE_INTERVAL);
      if lv.maxTime != 0 {
        end := TimeAdd(now, lv.maxTime * 1000);
        endSet := true;
      }
      level := Some(lv);
      log := log + START_EFFECTS;
    }

    /** `process_level`: the second line binds the connection to a level,
        starting it if none runs yet. */
    method ProcessLevel(c: Conn, w: World) returns (err: Option<PMsg>)
      requires Valid()
      modifies this`code, this`level, this`boundMax, this`canPauseUntil, this`end, this`endSet
      modifies this`boundCount, this`log, c`phase, c`bound
      ensures Valid()
      ensures err == LevelError(c.line.cmd, c.line.Val(), old(code), old(boundCount), old(boundMax), w.levels(c.line.Val()))
      ensures err.Some? ==>
        && log == old(log) && code == old(code) && level == old(level) && boundCount == old(boundCount)
        && boundMax == old(boundMax) && Clocks() == old(Clocks()) && c.phase == old(c.phase) && c.bound == old(c.bound)
      ensures err.None? ==>
        && c.bound && c.phase == Playing && boundCount == old(boundCount) + 1 && code == Some(c.line.Val()) && level.Some?
        && (old(code).Some? ==>
              level == old(level) && boundMax == old(boundMax) && Clocks() == old(Clocks()) && boundCount <= boundMax)
        && (old(code).None? ==>
              level == w.levels(c.line.Val()) && boundMax == level.value.maxConn && Clocks() == Started(old(Clocks()), level.value, w.now))
        && log == old(log) + (if old(code).None? then START_EFFECTS else []) + BindEffects(c.id, c.line.crlf, level.value, w.sent, waiting)
    {
      err := LevelCheck(c, w.levels);
      if err.None? {
        Admit(c, w);
      }
    }

    /** The connection passed the checks: the level starts if it is the
        first, and the connection is bound to it. */
    method Admit(c: Conn, w: World)
      requires Valid() && boundCount < boundMax
      requires code.Some? ==> code.value == c.line.Val()
      requires code.None? ==> w.levels(c.line.Val()).Some?
      modifies this`code, this`level, this`boundMax, this`canPauseUntil, this`end, this`endSet
      modifies this`boundCount, this`log, c`phase, c`bound
      ensures Valid()
      ensures && c.bound && c.phase == Playing && boundCount == old(boundCount) + 1 && code == Some(c.line.Val()) && level.Some?
        && (old(code).Some? ==>
              level == old(level) && boundMax == old(boundMax) && Clocks() == old(Clocks()) && boundCount <= boundMax)
        && (old(code).None? ==>
              level == w.levels(c.line.Val()) && boundMax == level.value.maxConn && Clocks() == Started(old(Clocks()), level.value, w.now))
        && log == old(log) + (if old(code).None? then START_EFFECTS else []) + BindEffects(c.id, c.line.crlf, level.value, w.sent, waiting)
    {
      if code.None? {
        StartLevel(c.line.Val(), w.levels(c.line.Val()).value, w.now);
      } else {
        assert old(log) + [] == old(log);
      }
      Bind(c, w.sent);
    }

    /** The checks of `process_level`, and the lookup of the level that
        `start_level` begins with. */
    method LevelCheck(c: Conn, levels: seq<char> -> Option<Level>) returns (err: Option<PMsg>)
      ensures err == LevelError(c.line.cmd, c.line.Val(), code, boundCount, boundMax, levels(c.line.Val()))
    {
      if c.line.cmd != "LEVL" {
        return Some(LevlExpected);
      }
      var v := c.line.Val();
      var ok := ValidIdentifier(v);
      if !ok {
        return Some(LevlBadChars);
      }
      if code.Some? && v != code.value {
        return Some(LevlNotMatching);
      }
      if boundCount >= boundMax {
        return Some(ConnTooMany);
      }
      if code.None? && levels(v).None? {
        return Some(LevlUnknown);
      }
      return None;
    }

    /** The end of `process_level` once the checks passed: the connection
        is bound and told so. */
    method Bind(c: Conn, sent: int)
      requires level.Some?
      modifies this`boundCount, this`log, c`phase, c`bound
      ensures c.bound && c.phase == Playing && boundCount == old(boundCount) + 1
      ensures log == old(log) + BindEffects(c.id, c.line.crlf, level.value, sent, waiting)
    {
      ghost var start := log;
      var first: seq<Effect> := [LevelDirty];
      if level.value.hasGetData {
        first := [DataAllocated(c.id)] + first;
      }
      c.bound := true;
      c.phase := Playing;
      boundCount := boundCount + 1;
      log := log + first;
      var _ := SendMsg(c, "DONE", None, sent);
      ghost var written := Write(c.id, Reply("DONE", None, c.line.crlf), sent);
      var last: seq<Effect> := [];
      if waiting {
        last := [SocketPaused(c.id, true)];
      }
      log := log + last;
      AppendAssoc(start, first, written);
      AppendAssoc(start, first + written, last);
    }

    /** `process_cmd` of a bound connection. */
    method ProcessCmd(c: Conn, w: World) returns (err: Option<PMsg>)
      requires Valid() && c.line.Valid() && level.Some?
      modifies this`log, this`pausedTime, this`waiting
      ensures var o := CmdOutcome(c.line.Reading(), old(endSet && Later(w.now, end)), level.value.hasMaze, w.answers);
        && err == Failure(o)
        && Clocks() == (if o.Wait? then Paused(old(Clocks()), w.now) else old(Clocks()))
        && log == old(log) + OutcomeEffects(c.id, c.line.crlf, o, w.sent, w.run, if old(waiting) then [] else PauseEffects(Timers(), sockets))
    {
      if endSet && Later(w.now, end) {
        return Some(Timeout);
      }
      err := Live(c, level.value.hasMaze, w);
    }

    /** `process_cmd` before the deadline. */
    method Live(c: Conn, hasMaze: bool, w: World) returns (err: Option<PMsg>)
      requires Valid() && c.line.Valid()
      modifies this`log, this`pausedTime, this`waiting
      ensures var o := CmdOutcome(c.line.Reading(), false, hasMaze, w.answers);
        && err == Failure(o)
        && Clocks() == (if o.Wait? then Paused(old(Clocks()), w.now) else old(Clocks()))
        && log == old(log) + OutcomeEffects(c.id, c.line.crlf, o, w.sent, w.run, if old(waiting) then [] else PauseEffects(Timers(), sockets))
    {
      if c.line.cmd == "WAIT" {
        err := WaitCmd(c, w);
      } else {
        err := Dispatch(c, hasMaze, w);
      }
    }

    /** The commands of `process_cmd` other than `WAIT`, before the
        deadline. */
    method Dispatch(c: Conn, hasMaze: bool, w: World) returns (err: Option<PMsg>)
      requires c.line.Valid()
      modifies this`log
      ensures var o := Request(c.line.Reading(), hasMaze, w.answers);
        err == Failure(o) && log == old(log) + OutcomeEffects(c.id, c.line.crlf, o, w.sent, w.run, [])
    {
      if c.line.cmd == "MOVE" {
        err := MoveCmd(c, w);
      } else if c.line.cmd == "WHAT" {
        err := WhatCmd(c, w);
      } else if c.line.cmd == "MAZE" {
        err := MazeCmd(c, hasMaze, w);
      } else if c.line.cmd in QUERIES {
        err := QueryCmd(c, Query(c.line.cmd, w.answers), w);
      } else {
        err := Some(CmdUnknown);
      }
    }

    /** The `MOVE` branch of `process_cmd`. */
    method MoveCmd(c: Conn, w: World) returns (err: Option<PMsg>)
      requires c.line.Valid()
      modifies this`log
      ensures var o := MoveOutcome(c.line.Reading(), w.answers);
        err == Failure(o) && log == old(log) + OutcomeEffects(c.id, c.line.crlf, o, w.sent, w.run, [])
    {
      if c.line.valLen != 1 {
        return Some(CharExpected);
      }
      var verdict := w.answers.move(c.line.val[0]);
      assert MoveOutcome(c.line.Reading(), w.answers) == Moved(verdict.0, verdict.1);
      if verdict.0 == MoveWin || verdict.0 == MoveLose {
        Ended(c, verdict.0, verdict.1, w);
      } else {
        Answered(c, verdict.0, verdict.1, w);
      }
      return None;
    }

    /** The reply to a move the level accepts or refuses. */
    method Answered(c: Conn, res: MoveResult, nope: Option<seq<char>>, w: World)
      requires res == MoveOkay || res == MoveBad
      modifies this`log
      ensures log == old(log) + OutcomeEffects(c.id, c.line.crlf, Moved(res, nope), w.sent, w.run, [])
    {
      if res == MoveOkay {
        var _ := SendMsg(c, "DONE", None, w.sent);
      } else if nope.Some? {
        var _ := SendMsg(c, "NOPE", nope, w.sent);
      }
    }

    /** A move that ends the game closes the connection, with the
        recorder's verdict on a win. */
    method Ended(c: Conn, res: MoveResult, nope: Option<seq<char>>, w: World)
      requires res == MoveWin || res == MoveLose
      modifies this`log
      ensures log == old(log) + OutcomeEffects(c.id, c.line.crlf, Moved(res, nope), w.sent, w.run, [])
    {
      EndedEffects(c.id, c.line.crlf, res == MoveWin, nope, w.sent, w.run);
      if res == MoveWin {
        ReportWin(c, nope, w.run, w.sent);
      } else {
        ReportAndClose(c, nope, w.sent);
      }
    }

    /** The `WHAT` branch of `process_cmd`. */
    method WhatCmd(c: Conn, w: World) returns (err: Option<PMsg>)
      requires c.line.Valid()
      modifies this`log
      ensures var o := WhatOutcome(c.line.Reading(), w.answers);
        err == Failure(o) && log == old(log) + OutcomeEffects(c.id, c.line.crlf, o, w.sent, w.run, [])
    {
      var v := c.line.Val();
      var ok, x, y := TwoInts(v);
      ghost var o := WhatOutcome(c.line.Reading(), w.answers);
      WhatOutcomeIs(c.line.Reading(), v, w.answers, ok, x, y);
      if !ok {
        assert OutcomeEffects(c.id, c.line.crlf, o, w.sent, w.run, []) == [];
        return Some(TwoIntExpected);
      }
      var ans := w.answers.what(x, y);
      assert o == Said(ans);
      err := Answer(c, ans, w);
    }

    /** The `MAZE` branch of `process_cmd`. */
    method MazeCmd(c: Conn, hasMaze: bool, w: World) returns (err: Option<PMsg>)
      modifies this`log
      ensures var o := MazeOutcome(c.line.isVal, hasMaze, w.answers);
        err == Failure(o) && log == old(log) + OutcomeEffects(c.id, c.line.crlf, o, w.sent, w.run, [])
    {
      if c.line.isVal {
        return Some(ExtraParam);
      }
      if !hasMaze {
        return Some(MazeNotAvail);
      }
      match w.answers.maze {
        case Refused(why) =>
          var _ := SendMsg(c, "NOPE", Some(why), w.sent);
        case Answered(cells) =>
          var _ := SendData(c, Bytes(cells), w.sent);
      }
      return None;
    }

    /** The `GETX`, `GETY`, `GETW` and `GETH` branches of `process_cmd`. */
    method QueryCmd(c: Conn, ans: Answer<Int32>, w: World) returns (err: Option<PMsg>)
      modifies this`log
      ensures var o := QueryOutcome(c.line.isVal, ans);
        err == Failure(o) && log == old(log) + OutcomeEffects(c.id, c.line.crlf, o, w.sent, w.run, [])
    {
      if c.line.isVal {
        return Some(ExtraParam);
      }
      err := Answer(c, ans, w);
    }

    /** A number for the client, or the level's refusal. */
    method Answer(c: Conn, ans: Answer<Int32>, w: World) returns (err: Option<PMsg>)
      modifies this`log
      ensures err == None && log == old(log) + OutcomeEffects(c.id, c.line.crlf, Said(ans), w.sent, w.run, [])
    {
      match ans {
        case Refused(why) =>
          var _ := SendMsg(c, "NOPE", Some(why), w.sent);
        case Answered(v) =>
          var _ := SendInt(c, v, w.sent);
      }
      return None;
    }

    /** The `WAIT` branch of `process_cmd`: the acknowledgement is queued
        before the sockets are paused. */
    method WaitCmd(c: Conn, w: World) returns (err: Option<PMsg>)
      requires Valid()
      modifies this`log, this`pausedTime, this`waiting
      ensures var o := if c.line.isVal then Fail(ExtraParam) else Wait;
        && err == Failure(o)
        && Clocks() == (if o.Wait? then Paused(old(Clocks()), w.now) else old(Clocks()))
        && log == old(log) + OutcomeEffects(c.id, c.line.crlf, o, w.sent, w.run, if old(waiting) then [] else PauseEffects(Timers(), sockets))
    {
      if c.line.isVal {
        return Some(ExtraParam);
      }
      ghost var log0 := log;
      var _ := SendMsg(c, "DONE", None, w.sent);
      ghost var pause := if waiting then [] else PauseEffects(Timers(), sockets);
      Pause(w.now);
      AppendAssoc(log0, Write(c.id, Reply("DONE", None, c.line.crlf), w.sent), pause);
      return None;
    }

    /** `proto_pause`: only the first of several pauses acts. */
    method Pause(now: Timespec)
      requires Valid()
      modifies this`pausedTime, this`waiting, this`log
      ensures Clocks() == Paused(old(Clocks()), now)
      ensures log == old(log) + (if old(waiting) then [] else PauseEffects(Timers(), sockets))
    {
      if waiting {
        return;
      }
      ghost var log0, t, k := log, TimerEffects(Timers(), true), SocketEffects(sockets, true);
      ToggleTimers(true);
      ToggleSockets(true);
      log := log + [Button(Draw.BUTTON_WAIT, true)];
      AppendAssoc(log0, t, k);
      AppendAssoc(log0, t + k, [Button(Draw.BUTTON_WAIT, true)]);
      if endSet {
        if Later(now, canPauseUntil) {
          pausedTime := 0;
        } else {
          pausedTime := MsLeft(end, now);
        }
      }
      waiting := true;
    }

    /** `proto_resume`: only a paused game resumes; the time frozen by the
        pause becomes the new deadline. */
    method Resume(now: Timespec)
      requires Valid()
      modifies this`end, this`waiting, this`log
      ensures Clocks() == Resumed(old(Clocks()), now)
      ensures log == old(log) + (if !old(waiting) then [] else ResumeEffects(Timers(), sockets))
    {
      if !waiting {
        return;
      }
      waiting := false;
      ghost var log0, k, t := log, SocketEffects(sockets, false), TimerEffects(Timers(), false);
      ToggleSockets(false);
      log := log + [Button(Draw.BUTTON_WAIT, false)];
      if endSet && pausedTime != 0 {
        end := TimeAdd(now, pausedTime);
      }
      ToggleTimers(false);
      AppendAssoc(log0, k, [Button(Draw.BUTTON_WAIT, false)]);
      AppendAssoc(log0, k + [Button(Draw.BUTTON_WAIT, false)], t);
    }

    /** `level_timer_new`: the timer `timer_new` made (`res`, asked for
        only while the table has room) joins the table; a full table
        gives `-ENOBUFS`, a failed `timer_new` its own error. */
    method TimerNew(res: int) returns (r: int)
      requires timersCnt <= timers.Length == MAX_TIMERS
      modifies timers, this`timersCnt
      ensures timersCnt <= timers.Length
      ensures old(timersCnt) >= MAX_TIMERS ==> r == -ENOBUFS && Timers() == old(Timers())
      ensures old(timersCnt) < MAX_TIMERS ==> r == res
      ensures old(timersCnt) < MAX_TIMERS && res >= 0 ==> Timers() == old(Timers()) + [res]
      ensures res < 0 ==> Timers() == old(Timers())
    {
      if timersCnt >= MAX_TIMERS {
        return -ENOBUFS;
      }
      if res < 0 {
        return res;
      }
      timers[timersCnt] := res;
      timersCnt := timersCnt + 1;
      assert Timers() == old(Timers()) + [res];
      return res;
    }

    /** `level_timer_del`: the first entry of the timer leaves the table,
        the later ones moving down; the result is that of `timer_del`. */
    method TimerDel(fd: int, delRet: int) returns (r: int)
      requires timersCnt <= timers.Length
      modifies timers, this`timersCnt
      ensures timersCnt <= timers.Length
      ensures Timers() == RemoveFirst(old(Timers()), fd) && r == delRet
    {
      ghost var t0 := Timers();
      var i := 0;
      while i < timersCnt
        invariant i <= timersCnt && fd !in t0[..i]
      {
        if fd == timers[i] {
          ghost var pre, post := t0[..i], t0[i + 1..];
          assert pre == timers[..i] && post == timers[i + 1..timersCnt];
          ShiftDown(i);
          timersCnt := timersCnt - 1;
          RemoveFirstAt(t0, fd, i);
          assert Timers() == pre + post;
          return delRet;
        }
        assert t0[..i + 1] == t0[..i] + [t0[i]];
        i := i + 1;
      }
      RemoveFirstAt(t0, fd, i);
      return delRet;
    }

    /** The `memmove` of `level_timer_del`: the entries after `i` move
        down by one. */
    method ShiftDown(i: nat)
      requires i < timersCnt <= timers.Length
      modifies timers
      ensures timers[..timersCnt - 1] == old(timers[..i]) + old(timers[i + 1..timersCnt])
    {
      var j := i;
      while j < timersCnt - 1
        invariant i <= j <= timersCnt - 1
        invariant forall k :: 0 <= k < i ==> timers[k] == old(timers[k])
        invariant forall k :: i <= k < j ==> timers[k] == old(timers[k + 1])
        invariant forall k :: j <= k < timers.Length ==> timers[k] == old(timers[k])
      {
        timers[j] := timers[j + 1];
        j := j + 1;
      }
      ghost var want := old(timers[..i]) + old(timers[i + 1..timersCnt]);
      assert forall k :: 0 <= k < |want| ==> timers[k] == want[k];
      assert timers[..timersCnt - 1] == want;
    }

    /** `p_pause_timers` and `p_resume_timers`. */
    method ToggleTimers(pause: bool)
      requires timersCnt <= timers.Length
      modifies this`log
      ensures log == old(log) + TimerEffects(Timers(), pause)
    {
      var i := 0;
      while i < timersCnt
        invariant i <= timersCnt
        invariant log == old(log) + TimerEffects(timers[..i], pause)
      {
        TimerEffectsSnoc(timers[..i + 1], pause);
        assert timers[..i + 1][..i] == timers[..i];
        log := log + [if pause then TimerPaused(timers[i]) else TimerResumed(timers[i])];
        i := i + 1;
      }
    }

    /** `p_pause_sockets`: every socket of the list, in order. */
    method ToggleSockets(pause: bool)
      modifies this`log
      ensures log == old(log) + SocketEffects(sockets, pause)
    {
      var pd := sockets;
      while pd != []
        invariant log + SocketEffects(pd, pause) == old(log) + SocketEffects(sockets, pause)
        decreases |pd|
      {
        SocketEffectsCons(pd, pause);
        AppendAssoc(log, [SocketPaused(pd[0], pause)], SocketEffects(pd[1..], pause));
        log := log + [SocketPaused(pd[0], pause)];
        pd := pd[1..];
      }
    }

    /** `p_report_and_close`. */
    method ReportAndClose(c: Conn, msg: Option<seq<char>>, sent: int)
      modifies this`log
      ensures log == old(log) + Report(c.id, c.line.crlf, msg, sent)
    {
      ghost var log0 := log;
      log := log + [StoppedReading(c.id)];
      var _ := SendMsg(c, "OVER", msg, sent);
      log := log + [FlushedAndDeleted(c.id)];
      AppendAssoc4(log0, [StoppedReading(c.id)], Write(c.id, Reply("OVER", msg, c.line.crlf), sent), [FlushedAndDeleted(c.id)]);
    }

    /** `p_report_error`. */
    method ReportError(c: Conn, m: PMsg, sent: int)
      modifies this`log
      ensures log == old(log) + Report(c.id, c.line.crlf, Some(Text(m)), sent)
    {
      ReportAndClose(c, Some(Text(m)), sent);
    }

    /** `p_report_win`: the result recorder's answer chooses the message. */
    method ReportWin(c: Conn, nope: Option<seq<char>>, run: Option<Output>, sent: int)
      modifies this`log
      ensures log == old(log) + Report(c.id, c.line.crlf, WinMessage(nope, run), sent)
    {
      var msg := nope;
      if run.None? {
        msg := Some(RECORD_FAILED);
      } else {
        var buf := run.value;
        var res := |buf|;
        if StartsWith(buf, "ERROR: ") {
          msg := Some(RECORD_FAILED);
        } else if StartsWith(buf, "REPORT: ") {
          if buf[res - 1] == '\n' {
            res := res - 1;
            buf := buf[..res];
          }
          if res == 8 {
            msg := Some(RECORD_FAILED);
          } else {
            msg := Some(CStr(buf[8..]));
          }
        } else if !StartsWith(buf, "OK") {
          msg := Some(RECORD_FAILED);
        }
      }
      ReportAndClose(c, msg, sent);
    }
  }

  lemma TimerEffectsSnoc(fds: seq<int>, pause: bool)
    requires |fds| > 0
    ensures TimerEffects(fds, pause) == TimerEffects(fds[..|fds| - 1], pause)
      + [if pause then TimerPaused(fds[|fds| - 1]) else TimerResumed(fds[|fds| - 1])]
  {
  }

  lemma SocketEffectsCons(ids: seq<nat>, pause: bool)
    requires |ids| > 0
    ensures SocketEffects(ids, pause) == [SocketPaused(ids[0], pause)] + SocketEffects(ids[1..], pause)
  {
  }

  lemma OneValueText(v: int)
    ensures DataText(Values(Ints([v]))) == Decimal(v)
  {
    assert Values(Ints([v])) == [v];
    assert [v][..0] == [];
    assert Spaced([v]) == [] + " " + Decimal(v);
  }
}
