/** What a well-formed request line, read from the start of a line by
    the tokenizer of server/proto.c, leads to in the handler of each
    phase: the bytes a client writes are parsed back into the command and
    the value the handlers then check. */
module ProtoRequests {
  import opened Prelude
  import opened CInt
  import opened CString
  import opened Clock
  import opened ProtoLine
  import opened Proto

  /** A `USER` line is accepted exactly when the user table knows the
      name it carries, and refused as an unknown user otherwise. */
  lemma UserLineAccepted(l: Line, name: seq<char>, crlf: bool, code: Option<seq<char>>, boundCount: int,
                         boundMax: int, hasMaze: bool, expired: bool, w: World)
    requires Fresh(l) && Terminated(l) && Sendable(name)
    ensures var r := Chunk(l, Reply("USER", Some(name), crlf));
      && r.Going? && r.s.crlf == crlf
      && PhaseError(AwaitUser, r.s, code, boundCount, boundMax, hasMaze, expired, w)
         == (if w.userExists(name) then None else Some(UserUnknown))
  {
    assert IsCommand("USER") by { assert forall i :: 0 <= i < 4 ==> IsUpper("USER"[i]); }
    LineValue(l, "USER", Some(name), crlf);
  }

  /** A `LEVL` line hands its code, as written, to the checks of
      `process_level`. */
  lemma LevelLineChecked(l: Line, v: seq<char>, crlf: bool, code: Option<seq<char>>, boundCount: int,
                         boundMax: int, hasMaze: bool, expired: bool, w: World)
    requires Fresh(l) && Terminated(l) && Sendable(v)
    ensures var r := Chunk(l, Reply("LEVL", Some(v), crlf));
      && r.Going? && r.s.crlf == crlf
      && PhaseError(AwaitLevel, r.s, code, boundCount, boundMax, hasMaze, expired, w)
         == LevelError("LEVL", v, code, boundCount, boundMax, w.levels(v))
  {
    assert IsCommand("LEVL") by { assert forall i :: 0 <= i < 4 ==> IsUpper("LEVL"[i]); }
    LineValue(l, "LEVL", Some(v), crlf);
  }

  /** `WHAT x y` with the numbers written in decimal asks the level about
      the cell (x, y) and says its answer. */
  lemma WhatAnswered(l: Line, x: int, y: int, crlf: bool, hasMaze: bool, a: Answers)
    requires Fresh(l) && Terminated(l) && 0 <= x <= INT_MAX && 0 <= y <= INT_MAX
    ensures var r := Chunk(l, Reply("WHAT", Some(Decimal(x) + " " + Decimal(y)), crlf));
      r.Going? && CmdOutcome(r.s, false, hasMaze, a) == Said(a.what(x, y))
  {
    assert IsCommand("WHAT") by { assert forall i :: 0 <= i < 4 ==> IsUpper("WHAT"[i]); }
    var v := Decimal(x) + " " + Decimal(y);
    DecimalSendable(x, y);
    LineValue(l, "WHAT", Some(v), crlf);
    Get2IntRoundTrip(x, y);
    WhatRequest(Chunk(l, Reply("WHAT", Some(v), crlf)).s, x, y, hasMaze, a);
  }

  lemma WhatRequest(l: Line, x: int, y: int, hasMaze: bool, a: Answers)
    requires l.cmd == "WHAT" && Get2Int(Value(l)) == Some((x, y))
    ensures CmdOutcome(l, false, hasMaze, a) == Said(a.what(x, y))
  {
    assert l.cmd != "WAIT" && l.cmd != "MOVE" by { assert l.cmd[1] == 'H'; }
  }

  /** `MOVE c` hands the one character to the level and answers its
      verdict. */
  lemma MoveAsked(l: Line, c: char, crlf: bool, hasMaze: bool, a: Answers)
    requires Fresh(l) && Sendable([c])
    ensures var r := Chunk(l, Reply("MOVE", Some([c]), crlf));
      r.Going? && CmdOutcome(r.s, false, hasMaze, a) == Moved(a.move(c).0, a.move(c).1)
  {
    assert IsCommand("MOVE") by { assert forall i :: 0 <= i < 4 ==> IsUpper("MOVE"[i]); }
    LineParses(l, "MOVE", Some([c]), crlf);
  }

  /** A query without a value says the level's answer to it. */
  lemma QueryAnswered(l: Line, q: seq<char>, crlf: bool, hasMaze: bool, a: Answers)
    requires Fresh(l) && q in QUERIES
    ensures var r := Chunk(l, Reply(q, None, crlf));
      r.Going? && CmdOutcome(r.s, false, hasMaze, a) == Said(Query(q, a))
  {
    assert IsCommand(q) by { assert forall i :: 0 <= i < 4 ==> IsUpper(q[i]); }
    LineParses(l, q, None, crlf);
  }

  /** Blanks after a query's name count as a value, even with nothing
      after them: "GETX \n" is refused as an extra parameter. */
  lemma BlankIsParam(l: Line, q: seq<char>, crlf: bool, hasMaze: bool, a: Answers)
    requires Fresh(l) && q in QUERIES
    ensures var r := Chunk(l, Reply(q, Some([]), crlf));
      r.Going? && CmdOutcome(r.s, false, hasMaze, a) == Fail(ExtraParam)
  {
    assert IsCommand(q) by { assert forall i :: 0 <= i < 4 ==> IsUpper(q[i]); }
    LineParses(l, q, Some([]), crlf);
  }

  // ---------------------------------------------------------------------
  // The result recorder's answer after a won game

  /** "REPORT: " and a text replace the level's message with that text. */
  lemma ReportShown(nope: Option<seq<char>>, t: seq<char>)
    requires 0 < |t| && |t| + 9 <= BUF_SIZE && '\0' !in t
    ensures WinMessage(nope, Some("REPORT: " + t + "\n")) == Some(t)
  {
    var out: Output := "REPORT: " + t + "\n";
    assert out[..8] == "REPORT: ";
    assert !StartsWith(out, "ERROR: ") by { assert out[0] == 'R'; }
    assert out[|out| - 1] == '\n';
    var body := out[..|out| - 1];
    assert body == "REPORT: " + t && body[8..] == t;
    assert StrLen(t) == |t|;
    assert CStr(body[8..]) == t;
    assert StartsWith(out, "REPORT: ");
    assert WinMessage(nope, Some(out)) == Some(CStr(body[8..]));
  }

  /** "OK" keeps the level's own message. */
  lemma OkKeepsMessage(nope: Option<seq<char>>, out: Output)
    requires StartsWith(out, "OK")
    ensures WinMessage(nope, Some(out)) == nope
  {
    assert out[0] == 'O';
    assert !StartsWith(out, "ERROR: ") && !StartsWith(out, "REPORT: ");
  }

  // ---------------------------------------------------------------------
  // Pause and resume

  /** A second `WAIT` changes nothing, and neither does a resume of a
      running game. */
  lemma PauseIdempotent(k: Timing, n1: Timespec, n2: Timespec)
    ensures Paused(Paused(k, n1), n2) == Paused(k, n1)
    ensures Resumed(Resumed(k, n1), n2) == Resumed(k, n1)
  { }

  /** A pause within the first second of the level freezes the time left:
      after the resume the same number of milliseconds remain. */
  lemma PauseFreezesTimeLeft(k: Timing, n1: Timespec, n2: Timespec)
    requires !k.waiting && k.endSet && Normalized(n1) && Normalized(n2)
    requires !Later(n1, k.canPauseUntil) && MsLeft(k.end, n1) > 0
    ensures var r := Resumed(Paused(k, n1), n2);
      !r.waiting && r.endSet && MsLeft(r.end, n2) == MsLeft(k.end, n1)
  {
    MsLeftOfTimeAdd(n2, MsLeft(k.end, n1));
  }

  /** A pause after the first second keeps the deadline: the clock goes
      on running through the pause. */
  lemma LatePauseKeepsDeadline(k: Timing, n1: Timespec, n2: Timespec)
    requires !k.waiting && k.endSet && Later(n1, k.canPauseUntil)
    ensures var r := Resumed(Paused(k, n1), n2);
      !r.waiting && r.endSet && r.end == k.end
  { }

  /** A level with a time limit gets its deadline that many seconds from
      its start, and the game may be paused without loss during the next
      second. */
  lemma StartedDeadline(k: Timing, lv: Level, now: Timespec)
    requires Normalized(now) && lv.maxTime > 0
    ensures var r := Started(k, lv, now);
      r.endSet && MsLeft(r.end, now) == lv.maxTime * 1000 && MsLeft(r.canPauseUntil, now) == CAN_PAUSE_INTERVAL
  {
    MsLeftOfTimeAdd(now, lv.maxTime * 1000);
    MsLeftOfTimeAdd(now, CAN_PAUSE_INTERVAL);
  }
}
