/** The HTTP upgrade handshake that opens a WebSocket (server/websocket_http.c,
    and its older revision server/websocket.c): a byte-at-a-time tokenizer
    over the request line and the header lines, the chain of token handlers
    that check the fields of section 4.2.1 of RFC 6455, the reply of section
    4.2.2 and the error status lines.

    The two revisions share the tokenizer and the chunk loop; they differ
    in the Connection check, in what an allocation or write failure returns
    and in what happens once the reply is sent. */
module HttpData {
  import opened CInt
  import opened Prelude
  import opened CString

  /** websocket_http.c, or the older websocket.c together with what its
      two `strdup` calls, of the path and of the key, give: a copy, or NULL
      when memory runs out. (Each is called at most once per connection.) */
  datatype Revision = Current | Older(pathDup: bool, keyDup: bool)

  const BUF_SIZE: nat := 1024
  const FIELD_MAX_SIZE: nat := 32

  const TAB: byte := 0x09
  const LF: byte := 0x0a
  const CR: byte := 0x0d
  const SP: byte := 0x20
  const COLON: byte := 0x3a

  predicate IsBlank(c: byte) {
    c == SP || c == TAB
  }

  /** What ends the token being read (`token_end`): a space, a run of
      blanks, a colon and the blanks after it, the end of the line, or the
      end of a line that no continuation line may follow. */
  datatype TokenEnd = Space | Blanks | Colon | Eol | EolNoFold

  /** What the tokenizer expects next (`future`): nothing special, blanks to
      skip, the LF of a CRLF (three flavours), or the start of a line that may
      or may not continue the last one. */
  datatype Future = Idle | SkipBlanks | ExpectLf | ExpectLfNoFold | ExpectLfEnd | LineStart | LineStartNoFold

  /** Tokenizer results: a byte to append (1..255), or one of these. */
  const SKIP: int := -1
  const ABORT: int := -2
  const END: int := 0
  const END_KEEP: int := 0x100
  const END_HEADERS: int := 0x200

  datatype Tok = Tok(res: int, future: Future)

  /** A start-of-line state: the next byte decides whether the previous
      line continues. */
  predicate AtLineStart(f: Future) {
    f == LineStart || f == LineStartNoFold
  }

  /** The second `switch` of `tokenizer`, on `token_end`, reached with
      nothing special expected. */
  function EndOfToken(te: TokenEnd, c: byte): (t: Tok)
    ensures t.res in {ABORT, SKIP, END} || (t.res == c && 1 <= c && c != CR && c != LF)
    ensures t.future in {Idle, SkipBlanks, ExpectLf, ExpectLfNoFold, LineStart, LineStartNoFold}
  {
    if te == Space && c == SP then Tok(END, Idle)
    else if te == Blanks && IsBlank(c) then Tok(END, SkipBlanks)
    else if te == Colon && c == COLON then Tok(END, SkipBlanks)
    else if te == Eol && c == CR then Tok(SKIP, ExpectLf)
    else if te == Eol && c == LF then Tok(SKIP, LineStart)
    else if te == EolNoFold && c == CR then Tok(SKIP, ExpectLfNoFold)
    else if te == EolNoFold && c == LF then Tok(SKIP, LineStartNoFold)
    else if c == LF || c == CR then Tok(ABORT, Idle)
    else Tok(c, Idle)
  }

  /** `tokenizer(wsd, c)` with `c` read as the unsigned byte it is on the
      wire: the new `future` and what to do with the byte. */
  function Tokenize(te: TokenEnd, fu: Future, c: byte): (t: Tok)
    ensures t.res in {ABORT, SKIP, END, END_KEEP, END_HEADERS} || 1 <= t.res < 256
    ensures 1 <= t.res < 256 ==> t.res == c || (fu == LineStart && IsBlank(c) && t.res == SP)
    ensures t.res == END_KEEP ==> AtLineStart(fu) && t.future == Idle
    ensures t.res == END_HEADERS ==> (AtLineStart(fu) || fu == ExpectLfEnd) && c == LF
  {
    if fu == SkipBlanks && IsBlank(c) then Tok(SKIP, fu)
    else if fu == ExpectLf then Tok(if c == LF then SKIP else ABORT, LineStart)
    else if fu == ExpectLfNoFold then Tok(if c == LF then SKIP else ABORT, LineStartNoFold)
    else if fu == ExpectLfEnd then Tok(if c == LF then END_HEADERS else ABORT, Idle)
    else if fu == LineStart then
      if IsBlank(c) then Tok(SP, SkipBlanks)
      else if c == LF then Tok(END_HEADERS, Idle)
      else if c == CR then Tok(SKIP, ExpectLfEnd)
      else Tok(END_KEEP, Idle)
    else if fu == LineStartNoFold then
      if IsBlank(c) then Tok(ABORT, fu)
      else if c == LF then Tok(END_HEADERS, Idle)
      else if c == CR then Tok(SKIP, ExpectLfEnd)
      else Tok(END_KEEP, Idle)
    else EndOfToken(te, c)
  }

  /** The tokenizer as written: `c` is a plain `char`, signed on the
      platforms the server targets, so the byte it hands back for appending
      is sign-extended. */
  function TokenizeAsWritten(te: TokenEnd, fu: Future, c: byte): (t: Tok)
    ensures c < 0x80 ==> t == Tokenize(te, fu, c)
    ensures t.future == Tokenize(te, fu, c).future
  {
    var t := Tokenize(te, fu, c);
    if t.res == c && c >= 0x80 then Tok(c - 256, t.future) else t
  }

  /** As written, a 0xff byte in a header value reads as "skip" and is
      dropped, and a 0xfe byte reads as "abort" and fails the request;
      read unsigned, both are kept. */
  lemma TokenizeAsWrittenHighBytes()
    ensures TokenizeAsWritten(Eol, Idle, 0xff).res == SKIP && Tokenize(Eol, Idle, 0xff).res == 0xff
    ensures TokenizeAsWritten(Eol, Idle, 0xfe).res == ABORT && Tokenize(Eol, Idle, 0xfe).res == 0xfe
  {
  }

  /** A CR must be followed by LF: whatever else follows aborts. */
  lemma CrNeedsLf(te: TokenEnd, c: byte)
    requires c != LF
    ensures Tokenize(te, ExpectLf, c).res == ABORT
    ensures Tokenize(te, ExpectLfNoFold, c).res == ABORT
    ensures Tokenize(te, ExpectLfEnd, c).res == ABORT
  {
  }

  /** A bare CR or LF where no line may end aborts. */
  lemma StrayEolAborts(te: TokenEnd, c: byte)
    requires te == Space || te == Blanks || te == Colon
    requires c == CR || c == LF
    ensures Tokenize(te, Idle, c).res == ABORT
  {
  }

  /** The request line has no continuation line: a blank at the start of
      the next line aborts. */
  lemma NoFoldAfterRequestLine(te: TokenEnd, c: byte)
    requires IsBlank(c)
    ensures Tokenize(te, LineStartNoFold, c).res == ABORT
  {
  }

  /** `strcasecmp(a, b) == 0` in the C locale. */
  function Lower(c: char): (l: char)
    ensures 'A' <= c <= 'Z' ==> l as int == c as int + 32
    ensures !('A' <= c <= 'Z') ==> l == c
  {
    if 'A' <= c <= 'Z' then (c as int + 32) as char else c
  }

  predicate CaseEq(a: seq<char>, b: seq<char>) {
    |a| == |b| && forall i :: 0 <= i < |a| ==> Lower(a[i]) == Lower(b[i])
  }

  /** The text before the first comma. */
  function UpToComma(s: seq<char>): (t: seq<char>)
    ensures |t| <= |s| && t == s[..|t|] && ',' !in t
    ensures |t| < |s| ==> s[|t|] == ','
  {
    if |s| == 0 || s[0] == ',' then []
    else
      var r := UpToComma(s[1..]);
      assert s[..|r| + 1] == [s[0]] + s[1..][..|r|];
      [s[0]] + r
  }

  /** The text after its leading blanks. */
  function DropBlanks(s: seq<char>): (t: seq<char>)
    ensures |t| <= |s| && t == s[|s| - |t|..]
    ensures forall i :: 0 <= i < |s| - |t| ==> s[i] == ' ' || s[i] == '\t'
    ensures |t| > 0 ==> t[0] != ' ' && t[0] != '\t'
  {
    if |s| > 0 && (s[0] == ' ' || s[0] == '\t') then DropBlanks(s[1..]) else s
  }

  /** `find_value_token(buf, needle)`: one of the comma-separated items of
      `s`, with its leading blanks skipped, equals `needle` ignoring case. */
  function HasToken(s: seq<char>, needle: seq<char>): (b: bool)
    ensures ',' !in s ==> (b <==> CaseEq(DropBlanks(s), needle))
    decreases |s|
  {
    var t := UpToComma(s);
    assert ',' !in s ==> t == s;
    CaseEq(DropBlanks(t), needle) || (|t| < |s| && HasToken(s[|t| + 1..], needle))
  }

  /** The comma-separated item of `s` from `i` to `j`. */
  predicate IsItem(s: seq<char>, i: nat, j: nat) {
    i <= j <= |s| && (i == 0 || s[i - 1] == ',') && (j == |s| || s[j] == ',') && ',' !in s[i..j]
  }

  /** An item that matches. */
  predicate Matches(s: seq<char>, i: nat, j: nat, needle: seq<char>) {
    IsItem(s, i, j) && CaseEq(DropBlanks(s[i..j]), needle)
  }

  /** `HasToken` finds only items that match. */
  lemma {:induction false} HasTokenSound(s: seq<char>, needle: seq<char>)
    requires HasToken(s, needle)
    ensures exists i: nat, j: nat :: Matches(s, i, j, needle)
    decreases |s|, 1
  {
    if CaseEq(DropBlanks(UpToComma(s)), needle) {
      MatchFirst(s, needle);
    } else {
      HasTokenSoundLater(s, needle);
    }
  }

  /** Past an item that does not match, the match is further on. */
  lemma {:induction false} HasTokenSoundLater(s: seq<char>, needle: seq<char>)
    requires HasToken(s, needle) && !CaseEq(DropBlanks(UpToComma(s)), needle)
    ensures exists i: nat, j: nat :: Matches(s, i, j, needle)
    decreases |s|, 0
  {
    HasTokenRest(s, needle);
    var d := |UpToComma(s)| + 1;
    HasTokenSound(s[d..], needle);
    var i: nat, j: nat :| Matches(s[d..], i, j, needle);
    MatchShift(s, d, i, j, needle);
  }

  /** ... and finds every item that matches. */
  lemma {:induction false} HasTokenComplete(s: seq<char>, needle: seq<char>, i: nat, j: nat)
    requires Matches(s, i, j, needle)
    ensures HasToken(s, needle)
    decreases |s|
  {
    var t := UpToComma(s);
    if i == 0 {
      ItemFirst(s, j, |t|);
      assert s[i..j] == t;
    } else {
      ItemLater(s, i, j, |t|);
      var d := |t| + 1;
      MatchShiftBack(s, d, i, j, needle);
      HasTokenComplete(s[d..], needle, i - d, j - d);
    }
  }

  lemma HasTokenIff(s: seq<char>, needle: seq<char>)
    ensures HasToken(s, needle) <==> exists i: nat, j: nat :: Matches(s, i, j, needle)
  {
    if HasToken(s, needle) {
      HasTokenSound(s, needle);
    }
    if exists i: nat, j: nat :: Matches(s, i, j, needle) {
      var i: nat, j: nat :| Matches(s, i, j, needle);
      HasTokenComplete(s, needle, i, j);
    }
  }

  lemma ItemShift(s: seq<char>, d: nat, i: nat, j: nat)
    requires 0 < d <= |s| && s[d - 1] == ','
    requires IsItem(s[d..], i, j)
    ensures IsItem(s, d + i, d + j) && s[d + i..d + j] == s[d..][i..j]
  {
    assert s[d + i..d + j] == s[d..][i..j];
    if i > 0 {
      assert s[d + i - 1] == s[d..][i - 1];
    }
    if j < |s[d..]| {
      assert s[d + j] == s[d..][j];
    }
  }

  lemma ItemShiftBack(s: seq<char>, d: nat, i: nat, j: nat)
    requires 0 < d <= i && IsItem(s, i, j)
    ensures IsItem(s[d..], i - d, j - d) && s[d..][i - d..j - d] == s[i..j]
  {
    assert s[d..][i - d..j - d] == s[i..j];
    if i - d > 0 {
      assert s[d..][i - d - 1] == s[i - 1];
    }
    if j - d < |s[d..]| {
      assert s[d..][j - d] == s[j];
    }
  }

  /** Past an item that does not match, the search goes on after the comma. */
  lemma HasTokenRest(s: seq<char>, needle: seq<char>)
    requires HasToken(s, needle) && !CaseEq(DropBlanks(UpToComma(s)), needle)
    ensures var d := |UpToComma(s)| + 1;
      d <= |s| && s[d - 1] == ',' && HasToken(s[d..], needle)
  {
  }

  lemma MatchFirst(s: seq<char>, needle: seq<char>)
    requires CaseEq(DropBlanks(UpToComma(s)), needle)
    ensures Matches(s, 0, |UpToComma(s)|, needle)
  {
    var t := UpToComma(s);
    assert s[0..|t|] == t;
  }

  lemma MatchShift(s: seq<char>, d: nat, i: nat, j: nat, needle: seq<char>)
    requires 0 < d <= |s| && s[d - 1] == ','
    requires Matches(s[d..], i, j, needle)
    ensures Matches(s, d + i, d + j, needle)
  {
    ItemShift(s, d, i, j);
  }

  lemma MatchShiftBack(s: seq<char>, d: nat, i: nat, j: nat, needle: seq<char>)
    requires 0 < d <= i && Matches(s, i, j, needle)
    ensures Matches(s[d..], i - d, j - d, needle)
  {
    ItemShiftBack(s, d, i, j);
  }

  /** The first item starts at 0 and ends at the first comma. */
  lemma ItemFirst(s: seq<char>, j: nat, k: nat)
    requires IsItem(s, 0, j) && k <= |s| && ',' !in s[..k] && (k == |s| || s[k] == ',')
    ensures j == k
  {
  }

  /** A later item starts after the first comma. */
  lemma ItemLater(s: seq<char>, i: nat, j: nat, k: nat)
    requires IsItem(s, i, j) && i > 0 && k <= |s| && ',' !in s[..k] && (k == |s| || s[k] == ',')
    ensures k < |s| && k + 1 <= i
  {
  }

  // ---------------------------------------------------------------------
  // The connection state and the token handlers

  /** Which handler `wsd->process` points to. */
  datatype Phase = Method | Path | HttpVer | Field | Value

  /** What the handlers of `struct ws_http_data` see and change: how the
      next token ends, the handler, the token read so far, the last header
      name, the path and key (absent while NULL) and the three handshake
      bits. */
  datatype HttpState = HttpState(
    tokenEnd: TokenEnd,
    phase: Phase,
    buf: seq<char>,
    field: seq<char>,
    path: Option<seq<char>>,
    key: Option<seq<char>>,
    upgrade: bool,
    connection: bool,
    version: bool)

  /** `ws_new`: everything zero, the method handler, tokens end at a space. */
  const Init: HttpState := HttpState(Space, Method, [], [], None, None, false, false, false)

  /** A handler's or a loop's new state and return code. */
  datatype HOut = HOut(st: HttpState, ret: int)

  /** `process_method`: the method must be GET. */
  function ProcessMethod(s: HttpState): (r: HOut)
    ensures r.ret == 0 <==> s.buf == "GET"
    ensures r.ret != 0 ==> r.ret == -ENOTBLK && r.st == s
    ensures r.ret == 0 ==> r.st == s.(phase := Path)
  {
    if s.buf != "GET" then HOut(s, -ENOTBLK) else HOut(s.(phase := Path), 0)
  }

  /** `process_path`: keep the path; the version follows, ended by the end
      of the line. */
  function ProcessPath(rev: Revision, s: HttpState): (r: HOut)
    ensures r.ret != 0 <==> rev.Older? && !rev.pathDup
    ensures r.ret != 0 ==> r.ret == -ENOMEM && r.st == s
    ensures r.ret == 0 ==> r.st == s.(path := Some(s.buf), phase := HttpVer, tokenEnd := EolNoFold)
  {
    if rev.Older? && !rev.pathDup then HOut(s, -ENOMEM)
    else HOut(s.(path := Some(s.buf), phase := HttpVer, tokenEnd := EolNoFold), 0)
  }

  /** `process_http_ver`: the version must be HTTP/1.1; header names follow. */
  function ProcessHttpVer(s: HttpState): (r: HOut)
    ensures r.ret == 0 <==> s.buf == "HTTP/1.1"
    ensures r.ret != 0 ==> r.ret == -ENOPROTOOPT && r.st == s
    ensures r.ret == 0 ==> r.st == s.(phase := Field, tokenEnd := Colon)
  {
    if s.buf != "HTTP/1.1" then HOut(s, -ENOPROTOOPT)
    else HOut(s.(phase := Field, tokenEnd := Colon), 0)
  }

  /** `process_field`: keep the header name, without trailing white space
      and cut to `FIELD_MAX_SIZE - 1` characters; its value follows. */
  function ProcessField(s: HttpState): (r: HOut)
    ensures r.ret == 0 && r.st == s.(field := r.st.field, phase := Value, tokenEnd := Eol)
    ensures |r.st.field| == if |RStripped(s.buf)| < FIELD_MAX_SIZE then |RStripped(s.buf)| else FIELD_MAX_SIZE - 1
    ensures r.st.field == RStripped(s.buf)[..|r.st.field|]
  {
    RStrippedSpec(s.buf);
    HOut(s.(field := Truncated(RStripped(s.buf), FIELD_MAX_SIZE), phase := Value, tokenEnd := Eol), 0)
  }

  /** The Connection check: the older revision wants the whole value to be
      "upgrade", the current one any of its comma-separated items. */
  predicate ConnectionOk(rev: Revision, v: seq<char>) {
    if rev == Current then HasToken(v, "upgrade") else CaseEq(v, "upgrade")
  }

  /** After a value, the next header name. */
  function NextField(s: HttpState): HttpState {
    s.(phase := Field, tokenEnd := Colon)
  }

  /** `process_value`: check the value of the header just named, without
      its trailing white space, and record what the handshake needs. */
  function ProcessValue(rev: Revision, s: HttpState): (r: HOut)
    ensures r.ret in {0, -EOPNOTSUPP, -EEXIST, -ENOMEM}
    ensures r.ret == 0 ==> r.st.phase == Field && r.st.tokenEnd == Colon
    ensures r.ret != 0 ==> r.st == s
    ensures r.st.path == s.path && r.st.buf == s.buf && r.st.field == s.field
  {
    var v := RStripped(s.buf);
    if CaseEq(s.field, "upgrade") then
      if !CaseEq(v, "websocket") then HOut(s, -EOPNOTSUPP) else HOut(NextField(s).(upgrade := true), 0)
    else if CaseEq(s.field, "connection") then
      if !ConnectionOk(rev, v) then HOut(s, -EOPNOTSUPP) else HOut(NextField(s).(connection := true), 0)
    else if CaseEq(s.field, "sec-websocket-version") then
      if v != "13" then HOut(s, -EOPNOTSUPP) else HOut(NextField(s).(version := true), 0)
    else if CaseEq(s.field, "sec-websocket-key") then
      if s.key.Some? then HOut(s, -EEXIST)
      else if rev.Older? && !rev.keyDup then HOut(s, -ENOMEM)
      else HOut(NextField(s).(key := Some(v)), 0)
    else HOut(NextField(s), 0)
  }

  /** What `process_value` checks and records, header by header; any
      other header is ignored. */
  lemma ProcessValueChecks(rev: Revision, s: HttpState)
    ensures var r := ProcessValue(rev, s);
      && (CaseEq(s.field, "upgrade") ==>
        (r.ret == 0 <==> CaseEq(RStripped(s.buf), "websocket")) && (r.ret == 0 ==> r.st == NextField(s).(upgrade := true)))
      && (CaseEq(s.field, "connection") ==>
        (r.ret == 0 <==> ConnectionOk(rev, RStripped(s.buf))) && (r.ret == 0 ==> r.st == NextField(s).(connection := true)))
      && (CaseEq(s.field, "sec-websocket-version") ==>
        (r.ret == 0 <==> RStripped(s.buf) == "13") && (r.ret == 0 ==> r.st == NextField(s).(version := true)))
      && (CaseEq(s.field, "sec-websocket-key") ==>
        && (r.ret == -EEXIST <==> s.key.Some?)
        && (r.ret == -ENOMEM <==> s.key.None? && rev.Older? && !rev.keyDup)
        && (r.ret == 0 ==> r.st == NextField(s).(key := Some(RStripped(s.buf)))))
      && ((!CaseEq(s.field, "upgrade") && !CaseEq(s.field, "connection")
        && !CaseEq(s.field, "sec-websocket-version") && !CaseEq(s.field, "sec-websocket-key")) ==>
        r.ret == 0 && r.st == NextField(s))
  {
  }

  /** `wsd->process(wsd)`: the handler of the current phase on the token. A
      handler that succeeds leaves the request line behind it only forwards
      and never forgets the path. */
  function Handle(rev: Revision, s: HttpState): (r: HOut)
    ensures r.st.buf == s.buf
    ensures r.ret in {0, -ENOTBLK, -ENOMEM, -ENOPROTOOPT, -EOPNOTSUPP, -EEXIST}
    ensures rev == Current ==> r.ret != -ENOMEM
    ensures r.ret != 0 ==> r.st == s
    ensures r.ret == 0 && s.phase == Method ==> r.st == s.(phase := Path)
    ensures r.ret == 0 && s.phase == Path ==> r.st.path.Some? && r.st.phase == HttpVer
    ensures r.ret == 0 && s.phase != Method && s.phase != Path ==>
      r.st.path == s.path && r.st.phase != Method && r.st.phase != Path
  {
    match s.phase
    case Method => ProcessMethod(s)
    case Path => ProcessPath(rev, s)
    case HttpVer => ProcessHttpVer(s)
    case Field => ProcessField(s)
    case Value => ProcessValue(rev, s)
  }

  // ---------------------------------------------------------------------
  // The chunk loop

  /** The whole of `struct ws_http_data` but its socket: the tokenizer's
      `future`, which no handler reads or writes, and the rest. */
  datatype Reader = Reader(future: Future, st: HttpState)

  /** Where the loop stops: the state and the return code. */
  datatype Read = Read(rd: Reader, ret: int)

  /** What one pass of the loop of `process_header_chunk` does: stop with a
      result, go on with the next byte, or look at the same byte again
      (a token ended without consuming it). */
  datatype Stepped = Stop(out: Read) | Next(rd: Reader) | Again(rd: Reader)

  /** The results whose low byte is zero, `(res & 0xff) == 0`: those that
      end a token. */
  predicate IsTokenEnd(res: int) {
    res == END || res == END_KEEP || res == END_HEADERS
  }

  /** Among the results of the tokenizer, those are exactly the ones with a
      zero low byte. */
  lemma TokenEndLowByte(te: TokenEnd, fu: Future, c: byte)
    ensures var t := Tokenize(te, fu, c); IsTokenEnd(t.res) <==> t.res != ABORT && t.res != SKIP && t.res % 256 == 0
  {
  }

  /** The handler chain as the loop calls it, through `wsd->process`. */
  type Handler = HttpState -> HOut

  function Handlers(rev: Revision): Handler {
    (s: HttpState) => Handle(rev, s)
  }

  /** One pass of the loop of `process_header_chunk` over byte `c`. */
  function Step(handle: Handler, r: Reader, c: byte): (x: Stepped)
    ensures x.Again? ==> AtLineStart(r.future) && x.rd.future == Idle
    ensures x.Stop? ==> x.out.ret != 0
  {
    var t := Tokenize(r.st.tokenEnd, r.future, c);
    if t.res == ABORT then Stop(Read(Reader(t.future, r.st), -EINVAL))
    else if t.res == SKIP then Next(Reader(t.future, r.st))
    else if IsTokenEnd(t.res) then
      var h := handle(r.st);
      if h.ret < 0 then Stop(Read(Reader(t.future, h.st), h.ret))
      else
        var s2 := h.st.(buf := []);
        if t.res == END_HEADERS then Stop(Read(Reader(t.future, s2), 1))
        else if t.res == END_KEEP then Again(Reader(t.future, s2))
        else Next(Reader(t.future, s2))
    else if |r.st.buf| >= BUF_SIZE - 1 then Stop(Read(Reader(t.future, r.st), -ENOSPC))
    else Next(Reader(t.future, r.st.(buf := r.st.buf + [t.res as char])))
  }

  /** Everything the loop does with byte `c` before it moves to the next:
      after a token that did not consume it, the byte is read a second
      time, now with nothing special expected, so that pass moves on. */
  function ByteStep(handle: Handler, r: Reader, c: byte): (h: Halt<Reader, Read>)
    ensures h.Halted? ==> h.r.ret != 0
  {
    match Step(handle, r, c)
    case Stop(o) => Halted(o)
    case Next(t) => Going(t)
    case Again(t) =>
      var x := Step(handle, t, c);
      if x.Stop? then Halted(x.out) else Going(x.rd)
  }

  function ByteSteps(handle: Handler): (Reader, byte) -> Halt<Reader, Read> {
    (r: Reader, c: byte) => ByteStep(handle, r, c)
  }

  /** Where the loop stands after a pass: stopped, or going on over `rest`. */
  function Resume(handle: Handler, x: Stepped, rest: seq<byte>): Halt<Reader, Read> {
    if x.Stop? then Halted(x.out) else Fold(ByteSteps(handle), x.rd, rest)
  }

  /** The loop over a byte and the bytes after it: one pass, or two when
      the first ends a token without consuming the byte. */
  lemma FoldByteStep(handle: Handler, r: Reader, c: byte, rest: seq<byte>)
    ensures var x := Step(handle, r, c);
      Fold(ByteSteps(handle), r, [c] + rest) ==
        if x.Again? then Resume(handle, Step(handle, x.rd, c), rest) else Resume(handle, x, rest)
  {
    FoldCons(ByteSteps(handle), r, c, rest);
  }

  /** What the loop of `process_header_chunk` still has to do at `pos`:
      the fold over `w[pos..]`, or, after a token ended without consuming
      `w[pos]` (`pending`), a second pass of `w[pos]` first. */
  function Remaining(handle: Handler, r: Reader, w: seq<byte>, pos: nat, pending: bool): Halt<Reader, Read>
    requires pos <= |w| && (pending ==> pos < |w|)
  {
    if pending then Resume(handle, Step(handle, r, w[pos]), w[pos + 1..])
    else Fold(ByteSteps(handle), r, w[pos..])
  }

  /** A first pass of `w[pos]`: it stops the loop, asks for a second pass,
      or moves on to `w[pos + 1]`. */
  lemma LoopStepFresh(handle: Handler, w: seq<byte>, pos: nat, r: Reader)
    requires pos < |w|
    ensures var x := Step(handle, r, w[pos]); var left := Remaining(handle, r, w, pos, false);
      && (x.Stop? ==> left == Halted(x.out))
      && (x.Again? ==> left == Remaining(handle, x.rd, w, pos, true))
      && (x.Next? ==> left == Remaining(handle, x.rd, w, pos + 1, false))
  {
    var rest := w[pos + 1..];
    assert w[pos..] == [w[pos]] + rest;
    FoldByteStep(handle, r, w[pos], rest);
  }

  /** The second pass of `w[pos]`, with nothing special expected: it stops
      the loop or moves on. */
  lemma LoopStepPending(handle: Handler, w: seq<byte>, pos: nat, r: Reader)
    requires pos < |w| && r.future == Idle
    ensures var x := Step(handle, r, w[pos]); var left := Remaining(handle, r, w, pos, true);
      && !x.Again?
      && (x.Stop? ==> left == Halted(x.out))
      && (x.Next? ==> left == Remaining(handle, x.rd, w, pos + 1, false))
  {
  }

  /** `process_header_chunk` over the bytes `w`: 0 when every byte was
      taken, 1 at the end of the headers, or the first error. */
  function Chunk(rev: Revision, r: Reader, w: seq<byte>): (o: Read)
    ensures w == [] ==> o == Read(r, 0)
  {
    match Fold(ByteSteps(Handlers(rev)), r, w)
    case Going(t) => Read(t, 0)
    case Halted(o) => o
  }

  /** The error codes of a handshake, and which revision can return which. */
  predicate IsHandshakeCode(rev: Revision, ret: int) {
    ret in {0, 1, -EINVAL, -ENOSPC, -ENOTBLK, -ENOPROTOOPT, -EOPNOTSUPP, -EEXIST}
    || (rev.Older? && ret == -ENOMEM)
  }

  /** What the loop keeps true: the token fits its buffer, the request line
      is read with tokens ended by spaces, and the path is known once it has
      been read. */
  predicate HttpValid(r: Reader) {
    && |r.st.buf| < BUF_SIZE
    && (r.st.phase == Method || r.st.phase == Path ==> r.st.tokenEnd == Space && r.future == Idle)
    && (r.st.phase != Method && r.st.phase != Path ==> r.st.path.Some?)
  }

  /** A pass stops only with a handshake code other than 0... */
  lemma StepCode(rev: Revision, r: Reader, c: byte)
    ensures var x := Step(Handlers(rev), r, c); x.Stop? ==> IsHandshakeCode(rev, x.out.ret)
  {
  }

  /** ... keeps the state valid, and sees the end of the headers only once
      the path is known. */
  lemma StepKeepsValid(rev: Revision, r: Reader, c: byte)
    requires HttpValid(r)
    ensures var x := Step(Handlers(rev), r, c);
      && (x.Stop? ==> HttpValid(x.out.rd) && (x.out.ret == 1 ==> x.out.rd.st.path.Some?))
      && (!x.Stop? ==> HttpValid(x.rd))
  {
    var t := Tokenize(r.st.tokenEnd, r.future, c);
    if IsTokenEnd(t.res) {
      assert r.st.phase == Method || r.st.phase == Path ==> t.future == Idle;
      HandleKeepsValid(rev, r.st, t.future);
    }
  }

  lemma HandleKeepsValid(rev: Revision, s: HttpState, f: Future)
    requires HttpValid(Reader(f, s))
    ensures var h := Handle(rev, s);
      && (h.ret != 0 ==> HttpValid(Reader(f, h.st)))
      && (h.ret == 0 ==> HttpValid(Reader(f, h.st.(buf := []))))
  {
  }

  lemma ByteStepKeepsValid(rev: Revision, r: Reader, c: byte)
    requires HttpValid(r)
    ensures match ByteStep(Handlers(rev), r, c)
      case Going(t) => HttpValid(t)
      case Halted(o) => o.ret != 0 && IsHandshakeCode(rev, o.ret) && HttpValid(o.rd) && (o.ret == 1 ==> o.rd.st.path.Some?)
  {
    StepCode(rev, r, c);
    StepKeepsValid(rev, r, c);
    match Step(Handlers(rev), r, c)
    case Stop(o) =>
    case Next(t) =>
    case Again(t) =>
      StepCode(rev, t, c);
      StepKeepsValid(rev, t, c);
  }

  /** Every chunk ends with a handshake code in a valid state, and a chunk
      that ends the headers has seen the path. */
  lemma {:induction false} ChunkKeepsValid(rev: Revision, r: Reader, w: seq<byte>)
    requires HttpValid(r)
    ensures var o := Chunk(rev, r, w);
      IsHandshakeCode(rev, o.ret) && HttpValid(o.rd) && (o.ret == 1 ==> o.rd.st.path.Some?)
    decreases |w|
  {
    if |w| > 0 {
      ByteStepKeepsValid(rev, r, w[0]);
      match ByteStep(Handlers(rev), r, w[0])
      case Halted(o) =>
      case Going(t) => ChunkKeepsValid(rev, t, w[1..]);
    }
  }

  /** A chunk that stops early stops with a result other than 0. */
  lemma {:induction false} FoldStopsNonZero(handle: Handler, r: Reader, w: seq<byte>)
    ensures var x := Fold(ByteSteps(handle), r, w); x.Halted? ==> x.r.ret != 0
    decreases |w|
  {
    if |w| > 0 {
      match ByteStep(handle, r, w[0])
      case Halted(o) =>
      case Going(t) => FoldStopsNonZero(handle, t, w[1..]);
    }
  }

  /** A request split into two chunks reads as the whole request: where a
      chunk ends does not matter. */
  lemma ChunksConcat(rev: Revision, r: Reader, a: seq<byte>, b: seq<byte>)
    ensures var o := Chunk(rev, r, a);
      Chunk(rev, r, a + b) == if o.ret == 0 then Chunk(rev, o.rd, b) else o
  {
    FoldAppend(ByteSteps(Handlers(rev)), r, a, b);
    FoldStopsNonZero(Handlers(rev), r, a);
  }

  // ---------------------------------------------------------------------
  // Whole requests

  /** The text of a token read byte by byte. */
  function Chars(w: seq<byte>): (r: seq<char>)
    ensures |r| == |w| && forall i :: 0 <= i < |w| ==> r[i] == w[i] as char
  {
    seq(|w|, i requires 0 <= i < |w| => w[i] as char)
  }

  /** What the handler chain does with one complete token: the handler of
      the current phase sees it, and the token buffer is emptied. */
  function TokenStep(handle: Handler, s: HttpState, tok: seq<char>): Halt<HttpState, HOut>
  {
    var h := handle(s.(buf := tok));
    if h.ret < 0 then Halted(h) else Going(h.st.(buf := []))
  }

  function TokenSteps(handle: Handler): (HttpState, seq<char>) -> Halt<HttpState, HOut> {
    (s: HttpState, tok: seq<char>) => TokenStep(handle, s, tok)
  }

  /** The reference reading of a request cut into its tokens: the handlers
      in turn, and 1 once every token was accepted. */
  function Handled(rev: Revision, s: HttpState, toks: seq<seq<char>>): HOut
  {
    match Fold(TokenSteps(Handlers(rev)), s, toks)
    case Going(t) => HOut(t, 1)
    case Halted(o) => o
  }

  /** A byte that goes into a token ended by `te`: not NUL (it would end
      the token), not CR or LF, not the byte that ends the token. */
  predicate Plain(te: TokenEnd, c: byte) {
    && c != 0 && c != CR && c != LF
    && !(te == Space && c == SP)
    && !(te == Blanks && IsBlank(c))
    && !(te == Colon && c == COLON)
  }

  predicate PlainToken(te: TokenEnd, w: seq<byte>) {
    |w| <= BUF_SIZE - 1 && forall i :: 0 <= i < |w| ==> Plain(te, w[i])
  }

  lemma PlainByte(handle: Handler, r: Reader, c: byte)
    requires r.future == Idle || (r.future == SkipBlanks && !IsBlank(c))
    requires Plain(r.st.tokenEnd, c) && |r.st.buf| < BUF_SIZE - 1
    ensures ByteStep(handle, r, c) == Going(Reader(Idle, r.st.(buf := r.st.buf + [c as char])))
  {
  }

  /** The bytes of a token are appended to the token buffer. */
  lemma {:induction false} PlainRun(handle: Handler, r: Reader, w: seq<byte>)
    requires r.future == Idle
    requires PlainToken(r.st.tokenEnd, w) && |r.st.buf| + |w| <= BUF_SIZE - 1
    ensures Fold(ByteSteps(handle), r, w) == Going(Reader(Idle, r.st.(buf := r.st.buf + Chars(w))))
    decreases |w|
  {
    if |w| == 0 {
      assert r.st.buf + Chars(w) == r.st.buf;
    } else {
      var t := Reader(Idle, r.st.(buf := r.st.buf + Chars(w[..1])));
      FirstPlain(handle, r, w);
      PlainRun(handle, t, w[1..]);
      CharsAppend(r.st.buf, w);
    }
  }

  lemma FirstPlain(handle: Handler, r: Reader, w: seq<byte>)
    requires r.future == Idle && |w| > 0
    requires PlainToken(r.st.tokenEnd, w) && |r.st.buf| + |w| <= BUF_SIZE - 1
    ensures Fold(ByteSteps(handle), r, w) == Fold(ByteSteps(handle), Reader(Idle, r.st.(buf := r.st.buf + Chars(w[..1]))), w[1..])
    ensures PlainToken(r.st.tokenEnd, w[1..])
  {
    PlainByte(handle, r, w[0]);
    assert [w[0] as char] == Chars(w[..1]);
    FoldGoing(ByteSteps(handle), r, w[0], w[1..], Reader(Idle, r.st.(buf := r.st.buf + Chars(w[..1]))));
    assert [w[0]] + w[1..] == w;
  }

  lemma CharsAppend(b: seq<char>, w: seq<byte>)
    requires |w| > 0
    ensures b + Chars(w[..1]) + Chars(w[1..]) == b + Chars(w)
  {
    CharsSplit(w);
  }

  /** A byte that ends a token hands it to the handler. */
  lemma TokenEnds(handle: Handler, r: Reader, c: byte)
    requires r.future == Idle
    requires (r.st.tokenEnd == Space && c == SP) || (r.st.tokenEnd == Colon && c == COLON)
    ensures ByteStep(handle, r, c) == match TokenStep(handle, r.st, r.st.buf)
      case Going(u) => Going(Reader(if c == SP then Idle else SkipBlanks, u))
      case Halted(o) => Halted(Read(Reader(if c == SP then Idle else SkipBlanks, o.st), o.ret))
  {
    assert r.st.(buf := r.st.buf) == r.st;
  }

  lemma BlankSkipped(handle: Handler, r: Reader, c: byte)
    requires r.future == SkipBlanks && IsBlank(c)
    ensures ByteStep(handle, r, c) == Going(r)
  {
  }

  /** CRLF at the end of a token that runs to the end of the line leaves
      the tokenizer at the start of the next line. */
  lemma LineEnds(handle: Handler, r: Reader)
    requires r.future == Idle || r.future == SkipBlanks
    requires r.st.tokenEnd == Eol || r.st.tokenEnd == EolNoFold
    ensures Fold(ByteSteps(handle), r, [CR, LF]) ==
      Going(Reader(if r.st.tokenEnd == Eol then LineStart else LineStartNoFold, r.st))
  {
    var f := if r.st.tokenEnd == Eol then ExpectLf else ExpectLfNoFold;
    assert ByteStep(handle, r, CR) == Going(Reader(f, r.st));
    FoldCons(ByteSteps(handle), r, CR, [LF]);
    FoldCons(ByteSteps(handle), Reader(f, r.st), LF, []);
  }

  /** The first byte of a line that does not continue the last one ends the
      token still held, and is then read again. */
  lemma LineStartEnds(handle: Handler, r: Reader, c: byte)
    requires AtLineStart(r.future) && !IsBlank(c) && c != CR && c != LF
    ensures ByteStep(handle, r, c) == match TokenStep(handle, r.st, r.st.buf)
      case Going(u) => ByteStep(handle, Reader(Idle, u), c)
      case Halted(o) => Halted(Read(Reader(Idle, o.st), o.ret))
  {
    assert r.st.(buf := r.st.buf) == r.st;
  }

  /** An empty line ends the token still held and the headers. */
  lemma EmptyLineEnds(handle: Handler, r: Reader)
    requires AtLineStart(r.future)
    ensures Fold(ByteSteps(handle), r, [CR, LF]) == Halted(match TokenStep(handle, r.st, r.st.buf)
      case Going(u) => Read(Reader(Idle, u), 1)
      case Halted(o) => Read(Reader(Idle, o.st), o.ret))
  {
    assert r.st.(buf := r.st.buf) == r.st;
    assert ByteStep(handle, r, CR) == Going(Reader(ExpectLfEnd, r.st));
    FoldCons(ByteSteps(handle), r, CR, [LF]);
    FoldCons(ByteSteps(handle), Reader(ExpectLfEnd, r.st), LF, []);
  }

  /** A token ended by a space or a colon: its bytes, then the byte that
      ends it, which hands it to the handler. */
  lemma TokenThen(handle: Handler, r: Reader, w: seq<byte>, c: byte, rest: seq<byte>)
    requires r.future == Idle && r.st.buf == []
    requires (r.st.tokenEnd == Space && c == SP) || (r.st.tokenEnd == Colon && c == COLON)
    requires PlainToken(r.st.tokenEnd, w)
    ensures var f := if c == SP then Idle else SkipBlanks;
      Fold(ByteSteps(handle), r, w + ([c] + rest)) == match TokenStep(handle, r.st, Chars(w))
        case Going(u) => Fold(ByteSteps(handle), Reader(f, u), rest)
        case Halted(o) => Halted(Read(Reader(f, o.st), o.ret))
  {
    var r1 := Reader(Idle, r.st.(buf := Chars(w)));
    assert r.st.buf + Chars(w) == Chars(w);
    PlainRun(handle, r, w);
    FoldAppend(ByteSteps(handle), r, w, [c] + rest);
    FoldCons(ByteSteps(handle), r1, c, rest);
    TokenEnds(handle, r1, c);
    assert r1.st.(buf := Chars(w)) == r.st.(buf := Chars(w));
  }

  /** The bytes of a token that may follow blanks to skip. */
  lemma ValueBytes(handle: Handler, r: Reader, w: seq<byte>)
    requires r.future == Idle || (r.future == SkipBlanks && (|w| > 0 ==> !IsBlank(w[0])))
    requires r.st.buf == [] && PlainToken(r.st.tokenEnd, w)
    ensures Fold(ByteSteps(handle), r, w) == Going(if |w| == 0 then r else Reader(Idle, r.st.(buf := Chars(w))))
  {
    if |w| > 0 {
      if r.future == Idle {
        assert r.st.buf + Chars(w) == Chars(w);
        PlainRun(handle, r, w);
      } else {
        AfterBlanks(handle, r, w);
      }
    }
  }

  lemma AfterBlanks(handle: Handler, r: Reader, w: seq<byte>)
    requires r.future == SkipBlanks && |w| > 0 && !IsBlank(w[0])
    requires r.st.buf == [] && PlainToken(r.st.tokenEnd, w)
    ensures Fold(ByteSteps(handle), r, w) == Going(Reader(Idle, r.st.(buf := Chars(w))))
  {
    FirstAfterBlanks(handle, r, w);
    PlainRun(handle, Reader(Idle, r.st.(buf := Chars(w[..1]))), w[1..]);
    CharsSplit(w);
  }

  lemma FirstAfterBlanks(handle: Handler, r: Reader, w: seq<byte>)
    requires r.future == SkipBlanks && |w| > 0 && !IsBlank(w[0])
    requires r.st.buf == [] && PlainToken(r.st.tokenEnd, w)
    ensures Fold(ByteSteps(handle), r, w) == Fold(ByteSteps(handle), Reader(Idle, r.st.(buf := Chars(w[..1]))), w[1..])
  {
    PlainByte(handle, r, w[0]);
    assert r.st.buf + [w[0] as char] == Chars(w[..1]);
    FoldGoing(ByteSteps(handle), r, w[0], w[1..], Reader(Idle, r.st.(buf := Chars(w[..1]))));
    assert [w[0]] + w[1..] == w;
  }

  lemma CharsSplit(w: seq<byte>)
    requires |w| > 0
    ensures Chars(w[..1]) + Chars(w[1..]) == Chars(w)
  {
  }

  /** A token that runs to the end of the line: its bytes (after the blanks
      that may be skipped before it), then CRLF. */
  lemma LineThen(handle: Handler, r: Reader, w: seq<byte>, rest: seq<byte>)
    requires r.future == Idle || (r.future == SkipBlanks && (|w| > 0 ==> !IsBlank(w[0])))
    requires r.st.buf == [] && (r.st.tokenEnd == Eol || r.st.tokenEnd == EolNoFold)
    requires PlainToken(r.st.tokenEnd, w)
    ensures Fold(ByteSteps(handle), r, w + ([CR, LF] + rest)) ==
      Fold(ByteSteps(handle), Reader(if r.st.tokenEnd == Eol then LineStart else LineStartNoFold, r.st.(buf := Chars(w))), rest)
  {
    var rb := if |w| == 0 then r else Reader(Idle, r.st.(buf := Chars(w)));
    ValueBytes(handle, r, w);
    FoldAppend(ByteSteps(handle), r, w, [CR, LF] + rest);
    FoldAppend(ByteSteps(handle), rb, [CR, LF], rest);
    LineEnds(handle, rb);
    assert rb.st == r.st.(buf := Chars(w));
  }

  /** How each handler moves the chain on when it accepts a token. */
  lemma PhaseStep(rev: Revision, s: HttpState, tok: seq<char>)
    ensures var x := TokenStep(Handlers(rev), s, tok);
      && (x.Halted? ==> s.phase != Field)
      && (x.Going? ==> x.s.buf == [])
      && (x.Going? && s.phase == Method ==> x.s.phase == Path && x.s.tokenEnd == s.tokenEnd)
      && (x.Going? && s.phase == Path ==> x.s.phase == HttpVer && x.s.tokenEnd == EolNoFold)
      && (x.Going? && (s.phase == HttpVer || s.phase == Value) ==> x.s.phase == Field && x.s.tokenEnd == Colon)
      && (x.Going? && s.phase == Field ==> x.s.phase == Value && x.s.tokenEnd == Eol)
  {
  }

  /** A header line: its name, a colon and one space, its value, CRLF. */
  datatype Header = Header(name: seq<byte>, value: seq<byte>)

  /** A request line and its header lines. */
  datatype Request = Request(verb: seq<byte>, path: seq<byte>, version: seq<byte>, headers: seq<Header>)

  function HeaderLine(h: Header): seq<byte> {
    h.name + ([COLON, SP] + (h.value + [CR, LF]))
  }

  function HeaderLines(hs: seq<Header>): seq<byte>
    decreases |hs|
  {
    if |hs| == 0 then [] else HeaderLine(hs[0]) + HeaderLines(hs[1..])
  }

  /** The bytes of a request, up to and with the empty line that ends it. */
  function RequestText(q: Request): seq<byte> {
    q.verb + ([SP] + (q.path + ([SP] + (q.version + ([CR, LF] + (HeaderLines(q.headers) + [CR, LF]))))))
  }

  /** The tokens the handlers see: each name and value. */
  function HeaderTokens(hs: seq<Header>): seq<seq<char>>
    decreases |hs|
  {
    if |hs| == 0 then [] else [Chars(hs[0].name), Chars(hs[0].value)] + HeaderTokens(hs[1..])
  }

  function Tokens(q: Request): seq<seq<char>> {
    [Chars(q.verb), Chars(q.path), Chars(q.version)] + HeaderTokens(q.headers)
  }

  /** A header line the tokenizer reads as written: a name that does not
      start with a blank (that would continue the previous line), and a
      value without leading blanks (they would be skipped). */
  predicate HeaderOk(h: Header) {
    && PlainToken(Colon, h.name) && |h.name| > 0 && !IsBlank(h.name[0])
    && PlainToken(Eol, h.value) && (|h.value| > 0 ==> !IsBlank(h.value[0]))
  }

  predicate RequestOk(q: Request) {
    && PlainToken(Space, q.verb) && PlainToken(Space, q.path) && PlainToken(EolNoFold, q.version)
    && forall i :: 0 <= i < |q.headers| ==> HeaderOk(q.headers[i])
  }

  /** A handler's result as the loop reports it, at a point where nothing
      special is expected next. */
  function Lifted(o: HOut): Read {
    Read(Reader(Idle, o.st), o.ret)
  }

  /** The request line: method, path and version are handed on in turn;
      the version is still held when the line ends. */
  lemma RequestLineRun(rev: Revision, q: Request, rest: seq<byte>)
    requires RequestOk(q)
    ensures var x := Fold(TokenSteps(Handlers(rev)), Init, [Chars(q.verb), Chars(q.path)]);
      x.Going? ==> x.s.phase == HttpVer
    ensures var text := q.verb + ([SP] + (q.path + ([SP] + (q.version + ([CR, LF] + rest)))));
      var x := Fold(TokenSteps(Handlers(rev)), Init, [Chars(q.verb), Chars(q.path)]);
      Fold(ByteSteps(Handlers(rev)), Reader(Idle, Init), text) ==
        if x.Going? then Fold(ByteSteps(Handlers(rev)), Reader(LineStartNoFold, x.s.(buf := Chars(q.version))), rest)
        else Halted(Lifted(x.r))
  {
    var hd := Handlers(rev);
    var m, p := Chars(q.verb), Chars(q.path);
    TokenThen(hd, Reader(Idle, Init), q.verb, SP, q.path + ([SP] + (q.version + ([CR, LF] + rest))));
    FoldCons(TokenSteps(hd), Init, m, [p]);
    PhaseStep(rev, Init, m);
    match TokenStep(hd, Init, m)
    case Halted(o) =>
    case Going(u0) =>
      TokenThen(hd, Reader(Idle, u0), q.path, SP, q.version + ([CR, LF] + rest));
      FoldCons(TokenSteps(hd), u0, p, []);
      PhaseStep(rev, u0, p);
      match TokenStep(hd, u0, p)
      case Halted(o) =>
      case Going(u1) =>
        LineThen(hd, Reader(Idle, u1), q.version, rest);
  }

  /** A header line: the token still held from the line before is handed
      on, then the name at the colon; the value is still held when the line
      ends. */
  lemma HeaderLineRun(rev: Revision, s: HttpState, tok: seq<char>, f: Future, h: Header, rest: seq<byte>)
    requires AtLineStart(f) && (s.phase == HttpVer || s.phase == Value) && HeaderOk(h)
    ensures var x := Fold(TokenSteps(Handlers(rev)), s, [tok, Chars(h.name)]);
      x.Going? ==> x.s.phase == Value
    ensures var x := Fold(TokenSteps(Handlers(rev)), s, [tok, Chars(h.name)]);
      Fold(ByteSteps(Handlers(rev)), Reader(f, s.(buf := tok)), HeaderLine(h) + rest) ==
        if x.Going? then Fold(ByteSteps(Handlers(rev)), Reader(LineStart, x.s.(buf := Chars(h.value))), rest)
        else Halted(Lifted(x.r))
  {
    if TokenStep(Handlers(rev), s, tok).Going? {
      HeaderLineGoes(rev, s, tok, f, h, rest);
    } else {
      HeaderLineHalts(rev, s, tok, f, h, rest);
    }
  }

  /** The bytes of a header line: its name, the colon and what follows. */
  lemma HeaderLineSplit(h: Header, rest: seq<byte>)
    requires HeaderOk(h)
    ensures HeaderLine(h) + rest == h.name + ([COLON] + ([SP] + (h.value + ([CR, LF] + rest))))
    ensures (HeaderLine(h) + rest)[0] == h.name[0]
  {
    var after := [COLON] + ([SP] + (h.value + ([CR, LF] + rest)));
    assert HeaderLine(h) + rest == h.name + after;
  }

  /** The token held from the line before is refused: the line's first
      byte halts the parse. */
  lemma HeaderLineHalts(rev: Revision, s: HttpState, tok: seq<char>, f: Future, h: Header, rest: seq<byte>)
    requires AtLineStart(f) && HeaderOk(h) && TokenStep(Handlers(rev), s, tok).Halted?
    ensures var x := Fold(TokenSteps(Handlers(rev)), s, [tok, Chars(h.name)]);
      x.Halted? && Fold(ByteSteps(Handlers(rev)), Reader(f, s.(buf := tok)), HeaderLine(h) + rest) == Halted(Lifted(x.r))
  {
    var hd := Handlers(rev);
    var r := Reader(f, s.(buf := tok));
    var w := HeaderLine(h) + rest;
    HeaderLineSplit(h, rest);
    assert r.st.(buf := r.st.buf) == s.(buf := tok);
    LineStartEnds(hd, r, h.name[0]);
    FoldCons(TokenSteps(hd), s, tok, [Chars(h.name)]);
    FoldCons(ByteSteps(hd), r, w[0], w[1..]);
    assert [w[0]] + w[1..] == w;
  }

  /** The token held from the line before is accepted: the name follows. */
  lemma HeaderLineGoes(rev: Revision, s: HttpState, tok: seq<char>, f: Future, h: Header, rest: seq<byte>)
    requires AtLineStart(f) && (s.phase == HttpVer || s.phase == Value) && HeaderOk(h)
    requires TokenStep(Handlers(rev), s, tok).Going?
    ensures var x := Fold(TokenSteps(Handlers(rev)), s, [tok, Chars(h.name)]);
      && x.Going? && x.s.phase == Value
      && Fold(ByteSteps(Handlers(rev)), Reader(f, s.(buf := tok)), HeaderLine(h) + rest) ==
         Fold(ByteSteps(Handlers(rev)), Reader(LineStart, x.s.(buf := Chars(h.value))), rest)
  {
    var hd := Handlers(rev);
    var r := Reader(f, s.(buf := tok));
    var u := TokenStep(hd, s, tok).s;
    HeaderLineSplit(h, rest);
    assert r.st.(buf := r.st.buf) == s.(buf := tok);
    LineStartEnds(hd, r, h.name[0]);
    FoldCons(TokenSteps(hd), s, tok, [Chars(h.name)]);
    PhaseStep(rev, s, tok);
    FoldSameStep(ByteSteps(hd), r, Reader(Idle, u), HeaderLine(h) + rest);
    NameThen(rev, u, h, rest);
  }

  /** From the name on, at a point where the name may be read. */
  lemma NameThen(rev: Revision, u: HttpState, h: Header, rest: seq<byte>)
    requires u.phase == Field && u.tokenEnd == Colon && u.buf == [] && HeaderOk(h)
    ensures var x := TokenStep(Handlers(rev), u, Chars(h.name));
      && x.Going? && x.s.phase == Value
      && Fold(ByteSteps(Handlers(rev)), Reader(Idle, u), h.name + ([COLON] + ([SP] + (h.value + ([CR, LF] + rest))))) ==
         Fold(ByteSteps(Handlers(rev)), Reader(LineStart, x.s.(buf := Chars(h.value))), rest)
  {
    var hd := Handlers(rev);
    PhaseStep(rev, u, Chars(h.name));
    TokenThen(hd, Reader(Idle, u), h.name, COLON, [SP] + (h.value + ([CR, LF] + rest)));
    var u2 := TokenStep(hd, u, Chars(h.name)).s;
    BlankSkipped(hd, Reader(SkipBlanks, u2), SP);
    FoldGoing(ByteSteps(hd), Reader(SkipBlanks, u2), SP, h.value + ([CR, LF] + rest), Reader(SkipBlanks, u2));
    LineThen(hd, Reader(SkipBlanks, u2), h.value, rest);
  }

  /** The header lines and the empty line after them: every token is handed
      on in turn, and the loop stops with the handlers' verdict. */
  lemma {:induction false} LinesRun(rev: Revision, s: HttpState, tok: seq<char>, f: Future, hs: seq<Header>)
    requires AtLineStart(f) && (s.phase == HttpVer || s.phase == Value)
    requires forall i :: 0 <= i < |hs| ==> HeaderOk(hs[i])
    ensures Fold(ByteSteps(Handlers(rev)), Reader(f, s.(buf := tok)), HeaderLines(hs) + [CR, LF]) ==
      Halted(Lifted(Handled(rev, s, [tok] + HeaderTokens(hs))))
    decreases |hs|
  {
    if |hs| == 0 {
      assert HeaderLines(hs) + [CR, LF] == [CR, LF] && [tok] + HeaderTokens(hs) == [tok];
      LinesEnd(rev, s, tok, f);
    } else {
      var h := hs[0];
      HeaderLineRun(rev, s, tok, f, h, HeaderLines(hs[1..]) + [CR, LF]);
      var x := Fold(TokenSteps(Handlers(rev)), s, [tok, Chars(h.name)]);
      if x.Going? {
        LinesRun(rev, x.s, Chars(h.value), LineStart, hs[1..]);
      }
      LinesJoin(rev, s, tok, f, hs);
    }
  }

  lemma LinesEnd(rev: Revision, s: HttpState, tok: seq<char>, f: Future)
    requires AtLineStart(f)
    ensures Fold(ByteSteps(Handlers(rev)), Reader(f, s.(buf := tok)), [CR, LF]) == Halted(Lifted(Handled(rev, s, [tok])))
  {
    var hd := Handlers(rev);
    EmptyLineEnds(hd, Reader(f, s.(buf := tok)));
    assert s.(buf := tok).(buf := tok) == s.(buf := tok);
    assert TokenStep(hd, s.(buf := tok), tok) == TokenStep(hd, s, tok);
    FoldCons(TokenSteps(hd), s, tok, []);
    assert [tok] + [] == [tok];
    match TokenStep(hd, s, tok)
    case Going(u) =>
      assert Fold(TokenSteps(hd), s, [tok]) == Going(u);
    case Halted(o) =>
      assert Fold(TokenSteps(hd), s, [tok]) == Halted(o);
  }

  /** The first header line, then the rest of the headers as the induction
      hypothesis reads them. */
  lemma LinesJoin(rev: Revision, s: HttpState, tok: seq<char>, f: Future, hs: seq<Header>)
    requires |hs| > 0 && AtLineStart(f) && (s.phase == HttpVer || s.phase == Value) && HeaderOk(hs[0])
    requires var x := Fold(TokenSteps(Handlers(rev)), s, [tok, Chars(hs[0].name)]);
      x.Going? ==>
        Fold(ByteSteps(Handlers(rev)), Reader(LineStart, x.s.(buf := Chars(hs[0].value))), HeaderLines(hs[1..]) + [CR, LF]) ==
        Halted(Lifted(Handled(rev, x.s, [Chars(hs[0].value)] + HeaderTokens(hs[1..]))))
    ensures Fold(ByteSteps(Handlers(rev)), Reader(f, s.(buf := tok)), HeaderLines(hs) + [CR, LF]) ==
      Halted(Lifted(Handled(rev, s, [tok] + HeaderTokens(hs))))
  {
    var h := hs[0];
    LinesSplit(tok, hs);
    HeaderLineRun(rev, s, tok, f, h, HeaderLines(hs[1..]) + [CR, LF]);
    FoldAppend(TokenSteps(Handlers(rev)), s, [tok, Chars(h.name)], [Chars(h.value)] + HeaderTokens(hs[1..]));
  }

  /** The first header's line and tokens, split off the rest. */
  lemma LinesSplit(tok: seq<char>, hs: seq<Header>)
    requires |hs| > 0
    ensures HeaderLines(hs) + [CR, LF] == HeaderLine(hs[0]) + (HeaderLines(hs[1..]) + [CR, LF])
    ensures [tok] + HeaderTokens(hs) == [tok, Chars(hs[0].name)] + ([Chars(hs[0].value)] + HeaderTokens(hs[1..]))
  {
    var line, lines := HeaderLine(hs[0]), HeaderLines(hs[1..]);
    assert HeaderLines(hs) == line + lines;
    AppendAssoc(line, lines, [CR, LF]);
    TokensSplit(tok, Chars(hs[0].name), Chars(hs[0].value), HeaderTokens(hs[1..]), HeaderTokens(hs));
  }

  lemma TokensSplit(tok: seq<char>, n: seq<char>, v: seq<char>, ts: seq<seq<char>>, all: seq<seq<char>>)
    requires all == [n, v] + ts
    ensures [tok] + all == [tok, n] + ([v] + ts)
  {
    assert ([tok] + all)[..2] == [tok, n];
  }

  /** A request the tokenizer reads as written, up to the empty line that
      ends it, comes out of the chunk loop as the handlers' verdict on its
      tokens: method, path, version, then each header's name and value. */
  lemma RequestParses(rev: Revision, q: Request)
    requires RequestOk(q)
    ensures Chunk(rev, Reader(Idle, Init), RequestText(q)) == Lifted(Handled(rev, Init, Tokens(q)))
  {
    var hd := Handlers(rev);
    var rest := HeaderLines(q.headers) + [CR, LF];
    RequestLineRun(rev, q, rest);
    var mp := [Chars(q.verb), Chars(q.path)];
    assert Tokens(q) == mp + ([Chars(q.version)] + HeaderTokens(q.headers));
    FoldAppend(TokenSteps(hd), Init, mp, [Chars(q.version)] + HeaderTokens(q.headers));
    var x := Fold(TokenSteps(hd), Init, mp);
    if x.Going? {
      LinesRun(rev, x.s, Chars(q.version), LineStartNoFold, q.headers);
    }
  }
}
