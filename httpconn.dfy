/** The handshake connection as the object `struct ws_http_data` that the
    functions of server/websocket_http.c (and of its older revision
    server/websocket.c) update in place: the tokenizer, the handlers, the
    chunk loop, the read callback, the reply and the error status lines.

    Each method is proved against the function of the same step in
    `HttpData`. The socket layer, the user table and the accept key are
    parameters: `userExists` answers `db_user_exists`, `acceptKey` stands
    for SHA-1 and base64 behind `construct_accept_key` (NULL as `None`),
    and the answers of `socket_write` are given in order. */
module HttpConnection {
  import opened CInt
  import opened Prelude
  import opened CString
  import opened HttpData

  /** What the handshake asks of the socket layer and of the user table. */
  datatype Effect =
    | StoppedReading              // `socket_stop_reading`
    | Write(text: seq<char>)      // `socket_write`
    | WriteDoneInstalled          // `socket_set_write_done_cb(s, ws_headers_sent)`
    | Deleted                     // `socket_del`
    | FlushedAndDeleted           // `socket_flush_and_del`
    | SentFd(login: seq<char>)    // `ipc_send_fd` to the user's worker
    | MadeUnmanaged               // `socket_set_unmanaged`
    | ClosedFd                    // `close(fd)`

  const RESPONSE1: seq<char> :=
    "HTTP/1.1 101 Switching Protocols\r\nUpgrade: websocket\r\nConnection: Upgrade\r\nSec-WebSocket-Accept: "
  const RESPONSE2: seq<char> := "\r\n\r\n"

  /** `handshake == HANDSHAKE_OK`: the three header checks all passed. */
  predicate HandshakeOk(s: HttpState) {
    s.upgrade && s.connection && s.version
  }

  // ---------------------------------------------------------------------
  // Errors

  /** The HTTP status `ws_report_error` answers an error with: 400 for a
      malformed, too long, unsupported or repeated header, 501 for a method
      other than GET, 505 for a version other than HTTP/1.1, 404 for an
      unknown user, and 500 for anything else. */
  function Status(err: int): (code: nat)
    ensures code == 400 <==> err in {-EINVAL, -ENOSPC, -EOPNOTSUPP, -EEXIST}
    ensures code == 501 <==> err == -ENOTBLK
    ensures code == 505 <==> err == -ENOPROTOOPT
    ensures code == 404 <==> err == -ENOENT
    ensures code == 500 <==> err !in {-EINVAL, -ENOSPC, -EOPNOTSUPP, -EEXIST, -ENOTBLK, -ENOPROTOOPT, -ENOENT}
  {
    if err in {-EINVAL, -ENOSPC, -EOPNOTSUPP, -EEXIST} then 400
    else if err == -ENOTBLK then 501
    else if err == -ENOPROTOOPT then 505
    else if err == -ENOENT then 404
    else 500
  }

  /** The reason phrase that goes with a status. */
  function Reason(code: nat): seq<char> {
    if code == 400 then "Bad Request"
    else if code == 501 then "Not Implemented"
    else if code == 505 then "HTTP Version Not Supported"
    else if code == 404 then "Not Found"
    else "Internal Server Error"
  }

  /** The status line `ws_report_error` sends for an error, with the empty
      line that ends the reply. */
  function StatusLine(err: int): (msg: seq<char>)
    ensures |msg| >= 17 && msg[..9] == "HTTP/1.1 " && msg[9..12] == Decimal(Status(err)) && msg[12] == ' '
    ensures msg[13..|msg| - 4] == Reason(Status(err)) && msg[|msg| - 4..] == "\r\n\r\n"
  {
    var code := Status(err);
    var digits := [DigitChar(code / 100), DigitChar(code / 10 % 10), DigitChar(code % 10)];
    CodeText(code, digits);
    var msg := "HTTP/1.1 " + digits + " " + Reason(code) + "\r\n\r\n";
    FiveParts("HTTP/1.1 ", digits, " ", Reason(code), "\r\n\r\n", msg);
    msg
  }

  /** The parts of a concatenation of five sequences. */
  lemma FiveParts<T>(a: seq<T>, b: seq<T>, c: seq<T>, d: seq<T>, e: seq<T>, m: seq<T>)
    requires m == a + b + c + d + e
    ensures m[..|a|] == a && m[|a|..|a| + |b|] == b && m[|a| + |b|..|a| + |b| + |c|] == c
    ensures m[|a| + |b| + |c|..|m| - |e|] == d && m[|m| - |e|..] == e
  {
  }

  /** A three-digit status code prints as its three digits. */
  lemma CodeText(code: nat, text: seq<char>)
    requires 100 <= code < 1000 && |text| == 3
    requires text[0] == DigitChar(code / 100) && text[1] == DigitChar(code / 10 % 10) && text[2] == DigitChar(code % 10)
    ensures Decimal(code) == text
  {
    assert Digits(code / 100) == [text[0]];
    assert Digits(code / 10) == [text[0]] + [text[1]];
  }

  /** The error that closes the socket without a reply: a failed write of
      the reply in the current revision, a failed allocation in the older. */
  function SilentError(rev: Revision): int {
    if rev == Current then -ENOTSOCK else -ENOMEM
  }

  /** What `ws_report_error` does: close at once on the silent error,
      otherwise stop reading, send the status line and flush-and-close. */
  function ReportEffects(rev: Revision, err: int): (r: seq<Effect>)
    ensures err == SilentError(rev) ==> r == [Deleted]
    ensures err != SilentError(rev) ==> r == [StoppedReading, Write(StatusLine(err)), FlushedAndDeleted]
  {
    if err == SilentError(rev) then [Deleted]
    else [StoppedReading, Write(StatusLine(err)), FlushedAndDeleted]
  }

  // ---------------------------------------------------------------------
  // The end of the headers

  /** What `ws_headers_processed` did: its effects and its return code. */
  datatype Finish = Finish(effects: seq<Effect>, ret: int)

  /** The path names a user: it is '/' and the login of an existing user. */
  predicate UserPath(path: seq<char>, userExists: seq<char> -> bool) {
    |path| > 0 && path[0] == '/' && userExists(path[1..])
  }

  /** The three writes of the reply; `ok` holds the answers of
      `socket_write`, and a refused write ends the reply early. */
  function ReplyWrites(rev: Revision, accept: seq<char>, ok: seq<bool>): (f: Finish)
    requires |ok| == 3
    ensures f.ret == 0 <==> ok[0] && ok[1] && ok[2]
    ensures f.ret != 0 ==> f.ret == SilentError(rev)
    ensures f.ret == 0 ==> f.effects == [Write(RESPONSE1), Write(accept), Write(RESPONSE2), WriteDoneInstalled]
  {
    if !ok[0] then Finish([Write(RESPONSE1)], SilentError(rev))
    else if !ok[1] then Finish([Write(RESPONSE1), Write(accept)], SilentError(rev))
    else if !ok[2] then Finish([Write(RESPONSE1), Write(accept), Write(RESPONSE2)], SilentError(rev))
    else Finish([Write(RESPONSE1), Write(accept), Write(RESPONSE2), WriteDoneInstalled], 0)
  }

  /** `ws_headers_processed`, with a missing key refused as a malformed
      request: the handshake bits, then the path, then the reply. */
  function HeadersProcessed(rev: Revision, s: HttpState, userExists: seq<char> -> bool,
                            acceptKey: seq<char> -> Option<seq<char>>, ok: seq<bool>): (f: Finish)
    requires s.path.Some? && |ok| == 3
    ensures f.ret == 0 ==> HandshakeOk(s) && s.key.Some? && UserPath(s.path.value, userExists)
    ensures f.ret == 0 ==> (s.key.Some? && acceptKey(s.key.value).Some? &&
      f.effects == [StoppedReading, Write(RESPONSE1), Write(acceptKey(s.key.value).value), Write(RESPONSE2), WriteDoneInstalled])
    ensures !HandshakeOk(s) || s.key.None? ==> f == Finish([], -EINVAL)
    ensures HandshakeOk(s) && s.key.Some? && !UserPath(s.path.value, userExists) ==> f == Finish([], -ENOENT)
    ensures f.ret != 0 && f.effects != [] ==> f.effects[0] == StoppedReading
  {
    if !HandshakeOk(s) || s.key.None? then Finish([], -EINVAL)
    else if !UserPath(s.path.value, userExists) then Finish([], -ENOENT)
    else Reply(rev, s.key.value, acceptKey, ok)
  }

  /** The reply, once the request is accepted. */
  function Reply(rev: Revision, key: seq<char>, acceptKey: seq<char> -> Option<seq<char>>, ok: seq<bool>): (f: Finish)
    requires |ok| == 3
    ensures f.effects != [] && f.effects[0] == StoppedReading
    ensures f.ret == 0 ==> (acceptKey(key).Some? &&
      f.effects == [StoppedReading, Write(RESPONSE1), Write(acceptKey(key).value), Write(RESPONSE2), WriteDoneInstalled])
  {
    if !ok[0] then Finish([StoppedReading, Write(RESPONSE1)], SilentError(rev))
    else match acceptKey(key)
      case None => Finish([StoppedReading, Write(RESPONSE1)], if rev == Current then -EINVAL else -ENOMEM)
      case Some(a) =>
        var w := ReplyWrites(rev, a, ok);
        Finish([StoppedReading] + w.effects, w.ret)
  }

  /** `ws_headers_processed` as written: the key is handed to
      `construct_accept_key` without a check, and `strlen` of a NULL key
      crashes the server (`None`). */
  function HeadersProcessedAsWritten(rev: Revision, s: HttpState, userExists: seq<char> -> bool,
                                     acceptKey: seq<char> -> Option<seq<char>>, ok: seq<bool>): (r: Option<Finish>)
    requires s.path.Some? && |ok| == 3
    ensures r.None? <==> HandshakeOk(s) && UserPath(s.path.value, userExists) && ok[0] && s.key.None?
    ensures s.key.Some? ==> r == Some(HeadersProcessed(rev, s, userExists, acceptKey, ok))
  {
    if !HandshakeOk(s) then Some(Finish([], -EINVAL))
    else if !UserPath(s.path.value, userExists) then Some(Finish([], -ENOENT))
    else if !ok[0] then Some(Finish([StoppedReading, Write(RESPONSE1)], SilentError(rev)))
    else if s.key.None? then None
    else Some(Reply(rev, s.key.value, acceptKey, ok))
  }

  /** A request with the three checked headers, a valid user path and no
      Sec-WebSocket-Key crashes the server as written; with the check it
      is answered 400. Otherwise the two agree. */
  lemma MissingKeyCrashes(rev: Revision, s: HttpState, userExists: seq<char> -> bool,
                          acceptKey: seq<char> -> Option<seq<char>>, ok: seq<bool>)
    requires s.path.Some? && |ok| == 3
    ensures HandshakeOk(s) && s.key.None? && UserPath(s.path.value, userExists) && ok[0] ==>
      HeadersProcessedAsWritten(rev, s, userExists, acceptKey, ok) == None &&
      HeadersProcessed(rev, s, userExists, acceptKey, ok) == Finish([], -EINVAL) &&
      Status(-EINVAL) == 400
    ensures s.key.Some? ==>
      HeadersProcessedAsWritten(rev, s, userExists, acceptKey, ok) == Some(HeadersProcessed(rev, s, userExists, acceptKey, ok))
  {
    if s.key.Some? && HandshakeOk(s) && UserPath(s.path.value, userExists) && !ok[0] {
      assert Reply(rev, s.key.value, acceptKey, ok) == Finish([StoppedReading, Write(RESPONSE1)], SilentError(rev));
    }
  }

  /** What `ws_headers_sent` does once the reply has drained: the current
      revision deletes the socket and hands the descriptor to the user's
      worker over its pipe (when there is one), making the socket unmanaged
      when that succeeded; the older revision takes the descriptor out of
      the socket, deletes it and closes the descriptor. */
  function HeadersSentEffects(rev: Revision, path: seq<char>, hasPipe: bool, sent: bool): (r: seq<Effect>)
    requires |path| > 0
    ensures |r| >= 1 && (rev == Current && hasPipe ==> |r| >= 2)
    ensures rev == Current ==> r[0] == Deleted && (MadeUnmanaged in r <==> hasPipe && sent)
    ensures rev == Current && hasPipe ==> r[1] == SentFd(path[1..])
    ensures rev.Older? ==> r == [MadeUnmanaged, Deleted, ClosedFd]
  {
    if rev.Older? then [MadeUnmanaged, Deleted, ClosedFd]
    else if !hasPipe then [Deleted]
    else if !sent then [Deleted, SentFd(path[1..])]
    else [Deleted, SentFd(path[1..]), MadeUnmanaged]
  }

  // ---------------------------------------------------------------------
  // Reading the request in chunks

  /** The chunks `socket_read` hands `ws_header_read`, taken until an empty
      read, an error or the end of the headers. */
  function ReadChunks(rev: Revision, r: Reader, chunks: seq<seq<byte>>): (o: Read)
    requires HttpValid(r)
    ensures HttpValid(o.rd) && IsHandshakeCode(rev, o.ret) && (o.ret == 1 ==> o.rd.st.path.Some?)
    decreases |chunks|
  {
    if |chunks| == 0 || |chunks[0]| == 0 then Read(r, 0)
    else
      ChunkKeepsValid(rev, r, chunks[0]);
      var c := Chunk(rev, r, chunks[0]);
      if c.ret != 0 then c else ReadChunks(rev, c.rd, chunks[1..])
  }

  /** `ReadChunks` unfolded once. */
  lemma ReadChunksFront(rev: Revision, r: Reader, chunks: seq<seq<byte>>)
    requires HttpValid(r)
    ensures |chunks| == 0 || |chunks[0]| == 0 ==> ReadChunks(rev, r, chunks) == Read(r, 0)
    ensures |chunks| > 0 && |chunks[0]| > 0 ==>
      var c := Chunk(rev, r, chunks[0]);
      && HttpValid(c.rd)
      && ReadChunks(rev, r, chunks) == (if c.ret != 0 then c else ReadChunks(rev, c.rd, chunks[1..]))
  {
    if |chunks| > 0 && |chunks[0]| > 0 {
      ChunkKeepsValid(rev, r, chunks[0]);
    }
  }

  function Concat(chunks: seq<seq<byte>>): seq<byte>
    decreases |chunks|
  {
    if |chunks| == 0 then [] else chunks[0] + Concat(chunks[1..])
  }

  /** Where the reads split the request does not matter: the chunks read as
      their concatenation. */
  lemma {:induction false} ReadChunksConcat(rev: Revision, r: Reader, chunks: seq<seq<byte>>)
    requires HttpValid(r)
    requires forall k :: 0 <= k < |chunks| ==> |chunks[k]| > 0
    ensures ReadChunks(rev, r, chunks) == Chunk(rev, r, Concat(chunks))
    decreases |chunks|
  {
    if |chunks| > 0 {
      ChunksConcat(rev, r, chunks[0], Concat(chunks[1..]));
      var c := Chunk(rev, r, chunks[0]);
      ChunkKeepsValid(rev, r, chunks[0]);
      if c.ret == 0 {
        var tail := chunks[1..];
        assert forall k :: 0 <= k < |tail| ==> tail[k] == chunks[k + 1];
        ReadChunksConcat(rev, c.rd, tail);
      }
    }
  }

  /** Everything `ws_header_read` does with what it read. */
  function ReadEffects(rev: Revision, o: Read, userExists: seq<char> -> bool,
                       acceptKey: seq<char> -> Option<seq<char>>, ok: seq<bool>): (e: seq<Effect>)
    requires |ok| == 3 && (o.ret == 1 ==> o.rd.st.path.Some?)
    ensures o.ret >= 0 && o.ret != 1 ==> e == []
    ensures o.ret == 1 && HeadersProcessed(rev, o.rd.st, userExists, acceptKey, ok).ret == 0 ==> WriteDoneInstalled in e
  {
    if o.ret < 0 then ReportEffects(rev, o.ret)
    else if o.ret != 1 then []
    else
      var f := HeadersProcessed(rev, o.rd.st, userExists, acceptKey, ok);
      if f.ret < 0 then f.effects + ReportEffects(rev, f.ret) else f.effects
  }

  /** A request is answered at most once: either with the upgrade reply, or
      with a single status line, or (on the silent error) not at all. */
  lemma ReadEffectsAnswerOnce(rev: Revision, o: Read, userExists: seq<char> -> bool,
                              acceptKey: seq<char> -> Option<seq<char>>, ok: seq<bool>)
    requires |ok| == 3 && (o.ret == 1 ==> o.rd.st.path.Some?) && o.ret <= 1
    ensures var e := ReadEffects(rev, o, userExists, acceptKey, ok);
      && (WriteDoneInstalled in e ==> FlushedAndDeleted !in e && Deleted !in e)
      && (WriteDoneInstalled in e <==> o.ret == 1 && HeadersProcessed(rev, o.rd.st, userExists, acceptKey, ok).ret == 0)
      && (o.ret == 0 ==> e == [])
  {
    if o.ret == 1 {
      var f := HeadersProcessed(rev, o.rd.st, userExists, acceptKey, ok);
      if f.ret < 0 {
        assert WriteDoneInstalled !in f.effects;
      }
    }
  }

  // ---------------------------------------------------------------------
  // The connection object

  class HttpConn {
    const rev: Revision
    var tokenEnd: TokenEnd
    var future: Future
    var phase: Phase
    var buf: seq<char>
    var field: seq<char>
    var path: Option<seq<char>>
    var key: Option<seq<char>>
    var upgrade: bool
    var connection: bool
    var version: bool
    /** What the connection asked of the socket layer, in order. */
    var log: seq<Effect>

    function State(): HttpState
      reads this`tokenEnd, this`phase, this`buf, this`field, this`path, this`key
      reads this`upgrade, this`connection, this`version
    {
      HttpState(tokenEnd, phase, buf, field, path, key, upgrade, connection, version)
    }

    function Rd(): Reader
      reads this`future, this`tokenEnd, this`phase, this`buf, this`field, this`path, this`key
      reads this`upgrade, this`connection, this`version
    {
      Reader(future, State())
    }

    /** `ws_new`. */
    constructor (rev: Revision)
      ensures this.rev == rev && Rd() == Reader(Idle, Init) && log == []
    {
      this.rev := rev;
      tokenEnd, future, phase := Space, Idle, Method;
      buf, field, path, key := [], [], None, None;
      upgrade, connection, version := false, false, false;
      log := [];
    }

    /** `tokenizer(wsd, c)`. */
    method Tokenizer(c: byte) returns (res: int)
      modifies this`future
      ensures var t := Tokenize(tokenEnd, old(future), c); res == t.res && future == t.future
    {
      if future == SkipBlanks {
        if c == SP || c == TAB {
          return SKIP;
        }
        future := Idle;
      } else if future == ExpectLf {
        future := LineStart;
        return if c == LF then SKIP else ABORT;
      } else if future == ExpectLfNoFold {
        future := LineStartNoFold;
        return if c == LF then SKIP else ABORT;
      } else if future == ExpectLfEnd {
        future := Idle;
        return if c == LF then END_HEADERS else ABORT;
      } else if future == LineStart || future == LineStartNoFold {
        if c == SP || c == TAB {
          if future == LineStartNoFold {
            return ABORT;
          }
          future := SkipBlanks;
          return SP;
        }
        future := Idle;
        if c == LF {
          return END_HEADERS;
        }
        if c == CR {
          future := ExpectLfEnd;
          return SKIP;
        }
        return END_KEEP;
      }
      match tokenEnd {
        case Space =>
          if c == SP {
            return END;
          }
        case Blanks =>
          if c == SP || c == TAB {
            future := SkipBlanks;
            return END;
          }
        case Colon =>
          if c == COLON {
            future := SkipBlanks;
            return END;
          }
        case Eol =>
          if c == CR {
            future := ExpectLf;
            return SKIP;
          }
          if c == LF {
            future := LineStart;
            return SKIP;
          }
        case EolNoFold =>
          if c == CR {
            future := ExpectLfNoFold;
            return SKIP;
          }
          if c == LF {
            future := LineStartNoFold;
            return SKIP;
          }
      }
      if c == LF || c == CR {
        return ABORT;
      }
      return c;
    }

    /** `process_method`. */
    method ProcessMethod() returns (ret: int)
      modifies this
      ensures var h := HttpData.ProcessMethod(old(State())); State() == h.st && ret == h.ret
      ensures future == old(future) && log == old(log)
    {
      if buf != "GET" {
        return -ENOTBLK;
      }
      phase := Path;
      return 0;
    }

    /** `process_path`: `strdup` of the path, which the older revision may
        see fail. */
    method ProcessPath() returns (ret: int)
      modifies this
      ensures var h := HttpData.ProcessPath(rev, old(State())); State() == h.st && ret == h.ret
      ensures future == old(future) && log == old(log)
    {
      if rev.Older? && !rev.pathDup {
        return -ENOMEM;
      }
      path := Some(buf);
      phase := HttpVer;
      tokenEnd := EolNoFold;
      return 0;
    }

    /** `process_http_ver`. */
    method ProcessHttpVer() returns (ret: int)
      modifies this
      ensures var h := HttpData.ProcessHttpVer(old(State())); State() == h.st && ret == h.ret
      ensures future == old(future) && log == old(log)
    {
      if buf != "HTTP/1.1" {
        return -ENOPROTOOPT;
      }
      phase := Field;
      tokenEnd := Colon;
      return 0;
    }

    /** `process_field`: `rstrip`, then `strlcpy` into the field buffer. */
    method ProcessField() returns (ret: int)
      modifies this
      ensures var h := HttpData.ProcessField(old(State())); State() == h.st && ret == h.ret
      ensures future == old(future) && log == old(log)
    {
      field := Truncated(RStripped(buf), FIELD_MAX_SIZE);
      phase := Value;
      tokenEnd := Eol;
      return 0;
    }

    /** `process_value`. */
    method ProcessValue() returns (ret: int)
      modifies this`upgrade, this`connection, this`version, this`key, this`phase, this`tokenEnd
      ensures var h := HttpData.ProcessValue(rev, old(State())); State() == h.st && ret == h.ret
    {
      var v := RStripped(buf);
      if CaseEq(field, "upgrade") {
        if !CaseEq(v, "websocket") {
          return -EOPNOTSUPP;
        }
        upgrade := true;
      } else if CaseEq(field, "connection") {
        var found: bool;
        if rev == Current {
          found := FindValueToken(v, "upgrade");
        } else {
          found := CaseEq(v, "upgrade");
        }
        if !found {
          return -EOPNOTSUPP;
        }
        connection := true;
      } else if CaseEq(field, "sec-websocket-version") {
        if v != "13" {
          return -EOPNOTSUPP;
        }
        version := true;
      } else if CaseEq(field, "sec-websocket-key") {
        if key.Some? {
          return -EEXIST;
        }
        if rev.Older? && !rev.keyDup {
          return -ENOMEM;
        }
        key := Some(v);
      }
      phase := Field;
      tokenEnd := Colon;
      return 0;
    }

    /** `wsd->process(wsd)`. */
    method Process() returns (ret: int)
      modifies this
      ensures var h := Handle(rev, old(State())); State() == h.st && ret == h.ret
      ensures future == old(future) && log == old(log)
    {
      match phase
      case Method => ret := ProcessMethod();
      case Path => ret := ProcessPath();
      case HttpVer => ret := ProcessHttpVer();
      case Field => ret := ProcessField();
      case Value => ret := ProcessValue();
    }

    /** One pass of the loop of `process_header_chunk` over byte `c`:
        whether the loop stops (and with what), and whether the byte is to
        be read again. */
    method Pass(c: byte) returns (stop: bool, ret: int, again: bool)
      modifies this
      ensures var x := Step(Handlers(rev), old(Rd()), c);
        && stop == x.Stop? && again == x.Again?
        && (x.Stop? ==> Rd() == x.out.rd && ret == x.out.ret)
        && (!x.Stop? ==> Rd() == x.rd)
      ensures log == old(log)
    {
      ghost var r := Rd();
      var res := Tokenizer(c);
      TokenEndLowByte(r.st.tokenEnd, r.future, c);
      if res == ABORT {
        return true, -EINVAL, false;
      }
      if res == SKIP {
        return false, 0, false;
      }
      if res % 256 == 0 {
        var h := Process();
        if h < 0 {
          return true, h, false;
        }
        buf := [];
      } else {
        if |buf| >= BUF_SIZE - 1 {
          return true, -ENOSPC, false;
        }
        buf := buf + [res as char];
      }
      if res == END_HEADERS {
        return true, 1, false;
      }
      return false, 0, res == END_KEEP;
    }

    /** `process_header_chunk(wsd, w, |w|)`. */
    method ProcessHeaderChunk(w: seq<byte>) returns (ret: int)
      modifies this
      ensures var o := Chunk(rev, old(Rd()), w); Rd() == o.rd && ret == o.ret
      ensures log == old(log)
    {
      ghost var hd := Handlers(rev);
      ghost var total := Fold(ByteSteps(hd), Rd(), w);
      ghost var pending := false;
      var pos := 0;
      while pos < |w|
        invariant 0 <= pos <= |w| && log == old(log) && hd == Handlers(rev)
        invariant pending ==> pos < |w| && future == Idle
        invariant total == Remaining(hd, Rd(), w, pos, pending)
        decreases |w| - pos, if pending then 0 else 1
      {
        ghost var r := Rd();
        var stop, res, again := Pass(w[pos]);
        if pending {
          LoopStepPending(hd, w, pos, r);
        } else {
          LoopStepFresh(hd, w, pos, r);
        }
        if stop {
          return res;
        }
        if again {
          pending := true;
        } else {
          pending := false;
          pos := pos + 1;
        }
      }
      assert w[pos..] == [];
      return 0;
    }

    /** `ws_header_read`: take chunks until an empty read; on an error
        report it, at the end of the headers finish the handshake. `ok`
        holds the answers of `socket_write` to the three parts of the
        reply. */
    method HeaderRead(chunks: seq<seq<byte>>, userExists: seq<char> -> bool,
                      acceptKey: seq<char> -> Option<seq<char>>, ok: seq<bool>) returns (ret: int)
      requires |ok| == 3 && HttpValid(Rd())
      modifies this
      ensures var o := ReadChunks(rev, old(Rd()), chunks);
        && Rd() == o.rd && ret == o.ret
        && log == old(log) + ReadEffects(rev, o, userExists, acceptKey, ok)
    {
      ghost var total := ReadChunks(rev, Rd(), chunks);
      var k := 0;
      while k < |chunks|
        invariant k <= |chunks| && HttpValid(Rd()) && log == old(log)
        invariant total == ReadChunks(rev, Rd(), chunks[k..])
      {
        ReadChunksFront(rev, Rd(), chunks[k..]);
        assert chunks[k..][0] == chunks[k] && chunks[k..][1..] == chunks[k + 1..];
        if |chunks[k]| == 0 {
          break;
        }
        ChunkKeepsValid(rev, Rd(), chunks[k]);
        ret := ProcessHeaderChunk(chunks[k]);
        if ret != 0 {
          Conclude(ret, userExists, acceptKey, ok);
          return;
        }
        k := k + 1;
      }
      if k == |chunks| {
        ReadChunksFront(rev, Rd(), chunks[k..]);
      }
      return 0;
    }

    /** The end of `ws_header_read` after a chunk returned `ret`: report
        an error, or finish the handshake at the end of the headers. */
    method Conclude(ret: int, userExists: seq<char> -> bool,
                    acceptKey: seq<char> -> Option<seq<char>>, ok: seq<bool>)
      requires |ok| == 3 && IsHandshakeCode(rev, ret) && (ret == 1 ==> path.Some?)
      modifies this`log
      ensures log == old(log) + ReadEffects(rev, Read(Rd(), ret), userExists, acceptKey, ok)
    {
      ghost var log0 := log;
      ghost var e := ReadEffects(rev, Read(Rd(), ret), userExists, acceptKey, ok);
      if ret < 0 {
        ReportError(ret);
      } else if ret > 0 {
        var f := HeadersProcessed(rev, State(), userExists, acceptKey, ok);
        log := log + f.effects;
        if f.ret < 0 {
          ReportError(f.ret);
          AppendAssoc(log0, f.effects, ReportEffects(rev, f.ret));
        }
      }
      assert log == log0 + e;
    }

    /** `ws_report_error`. */
    method ReportError(err: int)
      modifies this`log
      ensures log == old(log) + ReportEffects(rev, err)
    {
      if err == SilentError(rev) {
        log := log + [Deleted];
        return;
      }
      log := log + [StoppedReading, Write(StatusLine(err)), FlushedAndDeleted];
    }

    /** `ws_headers_sent`, run once the reply has drained; `hasPipe` is
        whether `db_get_pipe` found the user's worker and `sent` whether
        `ipc_send_fd` succeeded. */
    method HeadersSent(hasPipe: bool, sent: bool)
      requires path.Some? && |path.value| > 0
      modifies this`log
      ensures log == old(log) + HeadersSentEffects(rev, path.value, hasPipe, sent)
    {
      if rev.Older? {
        log := log + [MadeUnmanaged, Deleted, ClosedFd];
        return;
      }
      log := log + [Deleted];
      if hasPipe {
        log := log + [SentFd(path.value[1..])];
        if sent {
          log := log + [MadeUnmanaged];
        }
      }
    }
  }

  /** `find_value_token(s, needle)`: walk the comma-separated items, each
      after its leading blanks. */
  method FindValueToken(s: seq<char>, needle: seq<char>) returns (found: bool)
    ensures found == HasToken(s, needle)
  {
    var buf := s;
    while true
      invariant HasToken(s, needle) == HasToken(buf, needle)
      decreases |buf|
    {
      var b := SkipBlanks(buf, 0);
      var next := ItemEnd(buf, b);
      HasTokenAt(buf, b, next, needle);
      if CaseEq(buf[b..next], needle) {
        return true;
      }
      if next == |buf| {
        return false;
      }
      buf := buf[next + 1..];
    }
  }

  /** The blanks skipped before an item: `b` is the first other character
      from `start`, or the end. */
  method SkipBlanks(s: seq<char>, start: nat) returns (b: nat)
    requires start <= |s|
    ensures start <= b <= |s|
    ensures forall i :: start <= i < b ==> s[i] == ' ' || s[i] == '\t'
    ensures b == |s| || (s[b] != ' ' && s[b] != '\t')
  {
    b := start;
    while b < |s| && (s[b] == ' ' || s[b] == '\t')
      invariant start <= b <= |s|
      invariant forall i :: start <= i < b ==> s[i] == ' ' || s[i] == '\t'
    {
      b := b + 1;
    }
  }

  /** The end of the item from `b`: the first comma, or the end. */
  method ItemEnd(s: seq<char>, b: nat) returns (n: nat)
    requires b <= |s|
    ensures b <= n <= |s|
    ensures forall i :: b <= i < n ==> s[i] != ','
    ensures n == |s| || s[n] == ','
  {
    n := b;
    while n < |s| && s[n] != ','
      invariant b <= n <= |s|
      invariant forall i :: b <= i < n ==> s[i] != ','
    {
      n := n + 1;
    }
  }

  /** One turn of `find_value_token`: blanks up to `b`, the item up to the
      comma at `n` (or the end). */
  lemma HasTokenAt(s: seq<char>, b: nat, n: nat, needle: seq<char>)
    requires ItemShape(s, b, n)
    ensures HasToken(s, needle) == (CaseEq(s[b..n], needle) || (n < |s| && HasToken(s[n + 1..], needle)))
  {
    ItemAt(s, b, n);
    HasTokenStep(s, needle, b, n);
  }

  /** Blanks up to `b`, then an item without a comma up to `n`, which is
      the end of `s` or a comma. */
  predicate ItemShape(s: seq<char>, b: nat, n: nat) {
    && b <= n <= |s|
    && (forall i :: 0 <= i < b ==> s[i] == ' ' || s[i] == '\t')
    && (b == n || (s[b] != ' ' && s[b] != '\t'))
    && (forall i :: b <= i < n ==> s[i] != ',')
    && (n == |s| || s[n] == ',')
  }

  /** `HasToken` unfolded once, over names for its parts. */
  lemma HasTokenStep(s: seq<char>, needle: seq<char>, b: nat, n: nat)
    requires b <= n <= |s| && |UpToComma(s)| == n && DropBlanks(UpToComma(s)) == s[b..n]
    ensures HasToken(s, needle) == (CaseEq(s[b..n], needle) || (n < |s| && HasToken(s[n + 1..], needle)))
  {
    var t := UpToComma(s);
    var item := DropBlanks(t);
    assert HasToken(s, needle) == (CaseEq(item, needle) || (|t| < |s| && HasToken(s[|t| + 1..], needle)));
  }

  /** The item at the front of `s`, found the way `find_value_token` finds
      it: blanks, then everything up to a comma. */
  lemma ItemAt(s: seq<char>, b: nat, n: nat)
    requires ItemShape(s, b, n)
    ensures |UpToComma(s)| == n && DropBlanks(UpToComma(s)) == s[b..n]
  {
    UpToCommaAt(s, n);
    DropBlanksAt(s[..n], b);
    assert s[..n][b..] == s[b..n];
  }

  lemma {:induction false} UpToCommaAt(s: seq<char>, n: nat)
    requires n <= |s| && (forall i :: 0 <= i < n ==> s[i] != ',') && (n == |s| || s[n] == ',')
    ensures UpToComma(s) == s[..n]
    decreases n
  {
    if n > 0 {
      UpToCommaAt(s[1..], n - 1);
      assert s[..n] == [s[0]] + s[1..][..n - 1];
    }
  }

  lemma {:induction false} DropBlanksAt(s: seq<char>, b: nat)
    requires b <= |s|
    requires forall i :: 0 <= i < b ==> s[i] == ' ' || s[i] == '\t'
    requires b == |s| || (s[b] != ' ' && s[b] != '\t')
    ensures DropBlanks(s) == s[b..]
  {
  }
}
