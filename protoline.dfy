/** The line protocol of the game server (server/proto.c) as values: the
    byte-at-a-time reader of a request line, the reply lines, the numbers
    of `WHAT` and `DATA`, and the level code. The connection and the
    server state that drive these live in module Proto. */
module ProtoLine {
  import opened Prelude
  import opened CInt
  import opened CString

  const CMD_LEN: nat := 4
  /** `VAL_LEN` is `LOGIN_LEN`, the longest login (server/db.c). */
  const VAL_LEN: nat := 30

  // ---------------------------------------------------------------------
  // The texts of server/proto_msg.h

  /** The protocol errors the server reports in an `OVER` line. */
  datatype PMsg =
    | InvalidEol | Impatient | ConnTooMany | CmdNoLetter | CmdExtraChars
    | CmdUnknown | ValContainsNull | ValTooLong | UserExpected | UserUnknown
    | LevlExpected | LevlBadChars | LevlNotMatching | LevlUnknown | Timeout
    | CharExpected | TwoIntExpected | ExtraParam | MazeNotAvail

  function Text(m: PMsg): seq<char> {
    match m
    case InvalidEol => "Zprava musi byt ukoncena znakem LF nebo znaky CRLF."
    case Impatient => "Je mozne poslat pouze jednu zpravu najednou. Pred odeslanim dalsi pockej na odpoved serveru. Anebo posilas znaky navic po znaku konce radku."
    case ConnTooMany => "Navazujes najednou vice spojeni, nez povoluje aktualni uloha."
    case CmdNoLetter => "Zprava musi zacinat prikazem, ktery ma presne 4 znaky. Tyto znaky musi byt velka pismena."
    case CmdExtraChars => "Zprava musi zacinat prikazem, ktery ma presne 4 znaky. Za temito znaky musi nasledovat mezera nebo konec radku."
    case CmdUnknown => "Neznamy prikaz."
    case ValContainsNull => "Zprava obsahuje znak \\0. Tento znak neni ve zprave povoleny."
    case ValTooLong => "Zprava je prilis dlouha. Nechybi ti nekde znak konce radku?"
    case UserExpected => "Komunikace musi zacit prikazem USER."
    case UserUnknown => "Tento uzivatel neexistuje."
    case LevlExpected => "Druhy prikaz komunikace musi byt LEVL."
    case LevlBadChars => "Kod levelu smi obsahovat jen mala pismena a cislice."
    case LevlNotMatching => "Jiz bezi spojeni pro jinou ulohu. Nelze resit dve ulohy najednou."
    case LevlUnknown => "Uloha s timto kodem neexistuje."
    case Timeout => "Vyprsel cas pro reseni teto ulohy."
    case CharExpected => "Tento prikaz ocekava jako parametr jeden znak."
    case TwoIntExpected => "Tento prikaz ocekava jako parametr dve nezaporna cisla."
    case ExtraParam => "Tento prikaz se vola bez parametru."
    case MazeNotAvail => "V teto uloze nelze ziskat data o celem bludisti. Pouzij prikaz WHAT."
  }

  // ---------------------------------------------------------------------
  // Reading a request line: `process_msg_chunk`

  predicate IsUpper(c: char) { 'A' <= c <= 'Z' }

  /** A command: four upper-case letters. */
  predicate IsCommand(cmd: seq<char>) {
    |cmd| == CMD_LEN && forall i :: 0 <= i < |cmd| ==> IsUpper(cmd[i])
  }

  /** The `val` buffer of `struct p_data`: `VAL_LEN` characters and a NUL. */
  type ValBuf = s: seq<char> | |s| == VAL_LEN + 1 witness seq(VAL_LEN + 1, _ => '\0')
  type ValLen = n: nat | n <= VAL_LEN

  /** The reading state of a connection: the command letters read so far,
      the value buffer and its length, and the flags of the line. */
  datatype Line = Line(cmd: seq<char>, val: ValBuf, valLen: ValLen,
                       complete: bool, isVal: bool, crlf: bool, expectLf: bool)

  /** Nothing of a line read yet (a new connection, or after a command was
      processed); `crlf` and the value buffer carry over. */
  predicate Fresh(l: Line) {
    l.cmd == [] && l.valLen == 0 && !l.complete && !l.isVal && !l.expectLf
  }

  /** What the loop of `process_msg_chunk` does with one byte. */
  function LineStep(l: Line, c: char): (r: Halt<Line, PMsg>)
    requires |l.cmd| <= CMD_LEN
    ensures r == Halted(CmdNoLetter) <==> |l.cmd| < CMD_LEN && !IsUpper(c)
    ensures |l.cmd| < CMD_LEN && IsUpper(c) ==> r == Going(l.(cmd := l.cmd + [c]))
    ensures |l.cmd| == CMD_LEN && l.complete ==> r == Halted(Impatient)
    ensures |l.cmd| == CMD_LEN && !l.complete && l.expectLf ==>
      r == if c == '\n' then Going(l.(expectLf := false, crlf := true, complete := true)) else Halted(InvalidEol)
    ensures r.Going? ==> |r.s.cmd| <= CMD_LEN && r.s.valLen >= l.valLen
  {
    if |l.cmd| < CMD_LEN then
      if c < 'A' || c > 'Z' then Halted(CmdNoLetter) else Going(l.(cmd := l.cmd + [c]))
    else if l.complete then Halted(Impatient)
    else if l.expectLf then
      if c != '\n' then Halted(InvalidEol)
      else Going(l.(expectLf := false, crlf := true, complete := true))
    else if l.valLen == 0 && (c == ' ' || c == '\t') then Going(l.(isVal := true))
    else if l.valLen == 0 && !l.isVal && c != '\r' && c != '\n' then Halted(CmdExtraChars)
    else if c == '\r' then Going(l.(expectLf := true))
    else if c == '\n' then Going(l.(crlf := false, complete := true))
    else if c == '\0' then Halted(ValContainsNull)
    else if l.valLen == VAL_LEN then Halted(ValTooLong)
    else Going(l.(val := l.val[l.valLen := c][l.valLen + 1 := '\0'], valLen := l.valLen + 1))
  }

  /** The reading state every step keeps: at most four command letters,
      and nothing after them before the fourth. */
  predicate LineOk(l: Line) {
    && |l.cmd| <= CMD_LEN
    && (forall i :: 0 <= i < |l.cmd| ==> IsUpper(l.cmd[i]))
    && (|l.cmd| < CMD_LEN ==> l.valLen == 0 && !l.isVal && !l.complete && !l.expectLf)
    && (l.valLen > 0 ==> l.isVal)
    && !(l.complete && l.expectLf)
  }

  /** The value buffer holds the value and a NUL after it. */
  predicate Terminated(l: Line) {
    l.val[l.valLen] == '\0' && '\0' !in l.val[..l.valLen]
  }

  lemma StepKeepsLineOk(l: Line, c: char)
    requires LineOk(l)
    ensures var r := LineStep(l, c); r.Going? ==> LineOk(r.s) && (Terminated(l) ==> Terminated(r.s))
  {
    var r := LineStep(l, c);
    if r.Going? && r.s.valLen > l.valLen {
      assert r.s.val[..r.s.valLen] == l.val[..l.valLen] + [c];
    }
  }

  function LineSteps(): (Line, char) -> Halt<Line, PMsg> {
    (l: Line, c: char) => if |l.cmd| <= CMD_LEN then LineStep(l, c) else Halted(CmdNoLetter)
  }

  /** `process_msg_chunk(pd, w, |w|)`: the state after the bytes, or the
      first error. */
  function Chunk(l: Line, w: seq<char>): Halt<Line, PMsg> {
    Fold(LineSteps(), l, w)
  }

  lemma {:induction false} ChunkKeepsLineOk(l: Line, w: seq<char>)
    requires LineOk(l)
    ensures var r := Chunk(l, w); r.Going? ==> LineOk(r.s) && (Terminated(l) ==> Terminated(r.s))
    decreases |w|
  {
    if |w| > 0 {
      StepKeepsLineOk(l, w[0]);
      var r := LineStep(l, w[0]);
      if r.Going? {
        ChunkKeepsLineOk(r.s, w[1..]);
      }
    }
  }

  /** Where the reads split the bytes does not matter. */
  lemma ChunkAppend(l: Line, a: seq<char>, b: seq<char>)
    ensures Chunk(l, a + b) == if Chunk(l, a).Going? then Chunk(Chunk(l, a).s, b) else Chunk(l, a)
  {
    FoldAppend(LineSteps(), l, a, b);
  }

  /** `check_msg_complete` after a successful command, as written: the
      counters and flags start over, `crlf` and the value buffer stay. */
  function ResetAsWritten(l: Line): (r: Line)
    ensures Fresh(r) && r.crlf == l.crlf && r.val == l.val
  {
    l.(cmd := [], valLen := 0, complete := false, isVal := false, expectLf := false)
  }

  /** The reset with the value buffer emptied as well, so that a command
      without a value reads an empty value. */
  function Reset(l: Line): (r: Line)
    ensures Fresh(r) && r.crlf == l.crlf && Terminated(r) && LineOk(r)
  {
    l.(cmd := [], val := l.val[0 := '\0'], valLen := 0, complete := false, isVal := false, expectLf := false)
  }

  /** The value a command handler sees: the C string in the buffer. */
  function Value(l: Line): seq<char> {
    CStr(l.val)
  }

  lemma TerminatedValue(l: Line)
    requires Terminated(l)
    ensures Value(l) == l.val[..l.valLen]
  {
    assert l.val == l.val[..l.valLen] + ['\0'] + l.val[l.valLen + 1..];
    CStrOfTerminated(l.val[..l.valLen], l.val[l.valLen + 1..]);
  }

  // ---------------------------------------------------------------------
  // Reply lines: `p_send_msg`

  /** The line end of the connection. */
  function Eol(crlf: bool): seq<char> {
    if crlf then "\r\n" else "\n"
  }

  /** `p_send_msg(pd, cmd, data)`: the status, a space and the data when
      there are data, then the line end the peer used last. */
  function Reply(cmd: seq<char>, data: Option<seq<char>>, crlf: bool): (msg: seq<char>)
    ensures |msg| == |cmd| + (if data.Some? then |data.value| + 1 else 0) + (if crlf then 2 else 1)
    ensures msg[..|cmd|] == cmd
    ensures data.Some? ==> msg[|cmd|] == ' ' && msg[|cmd| + 1..|cmd| + 1 + |data.value|] == data.value
    ensures msg[|msg| - |Eol(crlf)|..] == Eol(crlf)
  {
    var body := if data.Some? then [' '] + data.value else [];
    var msg := cmd + body + Eol(crlf);
    assert msg[..|cmd|] == cmd;
    assert msg[|cmd|..|cmd| + |body|] == body;
    assert data.Some? ==> body[1..] == data.value;
    msg
  }

  /** A value a request line can carry: no NUL or line end in it, not
      starting with a blank, at most `VAL_LEN` characters. */
  predicate Sendable(v: seq<char>) {
    && |v| <= VAL_LEN
    && (forall i :: 0 <= i < |v| ==> v[i] != '\0' && v[i] != '\r' && v[i] != '\n')
    && (|v| > 0 ==> v[0] != ' ' && v[0] != '\t')
  }

  /** The bytes of a well-formed line are read as that line: the command,
      whether a value came, the value, and the line end. A line without a
      value leaves the buffer of the previous line in place. */
  lemma LineParses(l: Line, cmd: seq<char>, data: Option<seq<char>>, crlf: bool)
    requires Fresh(l) && IsCommand(cmd) && (data.Some? ==> Sendable(data.value))
    ensures var v := if data.Some? then data.value else [];
      var r := Chunk(l, Reply(cmd, data, crlf));
      && r.Going? && r.s.cmd == cmd && r.s.complete && !r.s.expectLf && r.s.crlf == crlf
      && r.s.isVal == data.Some? && r.s.valLen == |v| && r.s.val[..|v|] == v
      && (|v| > 0 ==> r.s.val[|v|] == '\0')
      && (|v| == 0 ==> r.s.val == l.val)
  {
    var v := if data.Some? then data.value else [];
    var body := if data.Some? then [' '] + v else [];
    assert Reply(cmd, data, crlf) == cmd + body + Eol(crlf);
    LettersRead(l, cmd);
    assert cmd == [] + cmd;
    var l1 := l.(cmd := cmd);
    ChunkAppend(l, cmd, body);
    var l2 := l1.(isVal := data.Some?);
    if data.Some? {
      ChunkAppend(l1, [' '], v);
      assert Chunk(l1, [' ']) == Going(l2) by {
        FoldCons(LineSteps(), l1, ' ', []);
      }
      ValueRead(l2, v);
    } else {
      assert body == [];
      assert Chunk(l1, body) == Going(l1);
    }
    var l3 := Chunk(l1, body).s;
    ChunkAppend(l, cmd + body, Eol(crlf));
    LineEndRead(l3, crlf);
  }

  /** Command letters are taken one by one. */
  lemma {:induction false} LettersRead(l: Line, w: seq<char>)
    requires |l.cmd| + |w| <= CMD_LEN && forall i :: 0 <= i < |w| ==> IsUpper(w[i])
    ensures Chunk(l, w) == Going(l.(cmd := l.cmd + w))
    decreases |w|
  {
    if |w| > 0 {
      var l1 := l.(cmd := l.cmd + [w[0]]);
      assert w == [w[0]] + w[1..];
      FoldGoing(LineSteps(), l, w[0], w[1..], l1);
      LettersRead(l1, w[1..]);
      assert l1.cmd + w[1..] == l.cmd + w;
    } else {
      assert l.cmd + w == l.cmd;
    }
  }

  /** Value characters after the blank are stored one by one, each
      followed by a NUL. */
  lemma {:induction false} ValueRead(l: Line, v: seq<char>)
    requires |l.cmd| == CMD_LEN && !l.complete && !l.expectLf && l.isVal
    requires l.valLen + |v| <= VAL_LEN
    requires forall i :: 0 <= i < |v| ==> v[i] != '\0' && v[i] != '\r' && v[i] != '\n'
    requires l.valLen == 0 && |v| > 0 ==> v[0] != ' ' && v[0] != '\t'
    ensures var r := Chunk(l, v);
      && r.Going? && r.s.cmd == l.cmd && !r.s.complete && !r.s.expectLf && r.s.isVal && r.s.crlf == l.crlf
      && r.s.valLen == l.valLen + |v| && r.s.val[..r.s.valLen] == l.val[..l.valLen] + v
      && (|v| > 0 ==> r.s.val[r.s.valLen] == '\0')
      && (|v| == 0 ==> r.s == l)
    decreases |v|
  {
    if |v| > 0 {
      var c := v[0];
      var l1 := l.(val := l.val[l.valLen := c][l.valLen + 1 := '\0'], valLen := l.valLen + 1);
      assert LineStep(l, c) == Going(l1);
      assert v == [c] + v[1..];
      FoldGoing(LineSteps(), l, c, v[1..], l1);
      ValueRead(l1, v[1..]);
      assert l1.val[..l1.valLen] == l.val[..l.valLen] + [c];
      AppendAssoc(l.val[..l.valLen], [c], v[1..]);
    }
  }

  /** The line end completes the line and sets its mode. */
  lemma LineEndRead(l: Line, crlf: bool)
    requires |l.cmd| == CMD_LEN && !l.complete && !l.expectLf
    ensures Chunk(l, Eol(crlf)) == Going(l.(complete := true, crlf := crlf))
  {
    if crlf {
      var l1 := l.(expectLf := true);
      assert Eol(crlf) == ['\r'] + ['\n'];
      FoldGoing(LineSteps(), l, '\r', ['\n'], l1);
      FoldGoing(LineSteps(), l1, '\n', [], l.(complete := true, crlf := true));
    } else {
      assert Eol(crlf) == ['\n'] + [];
      FoldGoing(LineSteps(), l, '\n', [], l.(complete := true, crlf := false));
    }
  }

  // ---------------------------------------------------------------------
  // Numbers of `WHAT`: `strtol` and `get_2_int`

  /** `isspace` in the C locale. */
  predicate IsCSpace(c: char) {
    c == ' ' || c == '\t' || c == '\n' || c == '\U{b}' || c == '\U{c}' || c == '\r'
  }

  predicate IsDigit(c: char) { '0' <= c <= '9' }

  /** The index of the first character from `i` that is not white space. */
  function SkipSpace(s: seq<char>, i: nat): (j: nat)
    requires i <= |s|
    ensures i <= j <= |s| && (j < |s| ==> !IsCSpace(s[j]))
    decreases |s| - i
  {
    if i < |s| && IsCSpace(s[i]) then SkipSpace(s, i + 1) else i
  }

  /** The end of the run of digits from `i`. */
  function DigitEnd(s: seq<char>, i: nat): (j: nat)
    requires i <= |s|
    ensures i <= j <= |s| && (j < |s| ==> !IsDigit(s[j]))
    ensures forall k :: i <= k < j ==> IsDigit(s[k])
    decreases |s| - i
  {
    if i < |s| && IsDigit(s[i]) then DigitEnd(s, i + 1) else i
  }

  /** What `strtol(s + i, &end, 10)` gives: the value, where it stopped,
      and whether it set `errno` to `ERANGE`. */
  datatype Conversion = Conversion(value: int, end: nat, erange: bool)

  /** `strtol` in base 10: blanks, a sign, digits; with no digits the
      value is 0 and the end is the start, and `errno` is left alone. */
  function Strtol(s: seq<char>, i: nat): (r: Conversion)
    requires i <= |s|
    ensures r.end <= |s|
    ensures r.end == i || (r.end > i && IsDigit(s[r.end - 1]))
    ensures r.end == i ==> r.value == 0 && !r.erange
    ensures !r.erange ==> LONG_MIN <= r.value <= LONG_MAX
  {
    var j := SkipSpace(s, i);
    var k := if j < |s| && (s[j] == '+' || s[j] == '-') then j + 1 else j;
    var e := DigitEnd(s, k);
    if e == k then Conversion(0, i, false)
    else
      var n := DigitsValue(s[k..e]);
      var v := if k > j && s[j] == '-' then -n else n;
      if v > LONG_MAX then Conversion(LONG_MAX, e, true)
      else if v < LONG_MIN then Conversion(LONG_MIN, e, true)
      else Conversion(v, e, false)
  }

  /** One number of `get_2_int`: refused on `ERANGE` or outside
      [0, INT_MAX]. */
  predicate InRange(r: Conversion) {
    !r.erange && 0 <= r.value <= INT_MAX
  }

  /** `get_2_int` as written: a conversion that finds no digits counts as
      the number 0. */
  function Get2IntAsWritten(val: seq<char>): (r: Option<(int, int)>)
    ensures r.Some? ==> 0 <= r.value.0 <= INT_MAX && 0 <= r.value.1 <= INT_MAX
  {
    var a := Strtol(val, 0);
    if !InRange(a) then None
    else
      var b := Strtol(val, a.end);
      if !InRange(b) then None else Some((a.value, b.value))
  }

  /** `get_2_int` with both numbers required, as its error text asks: a
      conversion that finds no digits refuses the value. */
  function Get2Int(val: seq<char>): (r: Option<(int, int)>)
    ensures r.Some? ==> 0 <= r.value.0 <= INT_MAX && 0 <= r.value.1 <= INT_MAX
  {
    var a := Strtol(val, 0);
    if !InRange(a) || a.end == 0 then None
    else
      var b := Strtol(val, a.end);
      if !InRange(b) || b.end == a.end then None else Some((a.value, b.value))
  }

  /** Where both numbers are present the two readings agree. */
  lemma Get2IntAgrees(val: seq<char>)
    ensures Get2Int(val).Some? ==> Get2IntAsWritten(val) == Get2Int(val)
  {
  }

  /** As written, `WHAT` without numbers, or with one, is answered for
      position 0; with both numbers required it is refused. */
  lemma Get2IntAsWrittenTakesMissingAsZero()
    ensures Get2IntAsWritten("") == Some((0, 0)) && Get2Int("") == None
    ensures Get2IntAsWritten("7") == Some((7, 0)) && Get2Int("7") == None
  {
    assert DigitEnd("7", 0) == 1;
    assert "7"[0..1] == "7";
    assert DigitsValue("7") == 7 by {
      assert "7"[..0] == [];
    }
  }

  /** Two numbers written as the client writes them are read back. */
  lemma Get2IntRoundTrip(x: int, y: int)
    requires 0 <= x <= INT_MAX && 0 <= y <= INT_MAX
    ensures Get2Int(Decimal(x) + " " + Decimal(y)) == Some((x, y))
  {
    var dx, dy := Decimal(x), Decimal(y);
    var s := dx + " " + dy;
    DigitsAreDigits(x);
    DigitsAreDigits(y);
    assert s[..|dx|] == dx && s[|dx|] == ' ' && s[|dx| + 1..] == dy;
    assert s[0] == dx[0] && s[|dx| + 1] == dy[0];
    assert SkipSpace(s, 0) == 0;
    StrtolAt(s, 0, 0, x);
    assert SkipSpace(s, |dx| + 1) == |dx| + 1;
    assert SkipSpace(s, |dx|) == |dx| + 1;
    StrtolAt(s, |dx|, |dx| + 1, y);
    Get2IntOf(s, Conversion(x, |dx|, false), Conversion(y, |s|, false));
  }

  lemma Get2IntOf(s: seq<char>, a: Conversion, b: Conversion)
    requires a == Strtol(s, 0) && InRange(a) && a.end != 0
    requires b == Strtol(s, a.end) && InRange(b) && b.end != a.end
    ensures Get2Int(s) == Some((a.value, b.value))
  {
  }

  /** `strtol` from `i` reads the digits of `n` that start after the
      blanks, at `j`, when a non-digit or the end follows them. */
  lemma StrtolAt(s: seq<char>, i: nat, j: nat, n: nat)
    requires i <= j && j + |Digits(n)| <= |s| && SkipSpace(s, i) == j && s[j..j + |Digits(n)|] == Digits(n)
    requires j + |Digits(n)| == |s| || !IsDigit(s[j + |Digits(n)|])
    requires n <= LONG_MAX
    ensures Strtol(s, i) == Conversion(n, j + |Digits(n)|, false)
  {
    var d := Digits(n);
    DigitsAreDigits(n);
    assert s[j] == d[0];
    DigitEndAt(s, j, d);
    DigitsRoundTrip(n);
  }

  lemma DigitsAreDigits(n: nat)
    ensures Decimal(n) == Digits(n) && forall i :: 0 <= i < |Digits(n)| ==> IsDigit(Digits(n)[i])
  {
  }

  /** The run of digits from `i` is `d` when a non-digit or the end follows. */
  lemma {:induction false} DigitEndAt(s: seq<char>, i: nat, d: seq<char>)
    requires i + |d| <= |s| && s[i..i + |d|] == d
    requires forall k :: 0 <= k < |d| ==> IsDigit(d[k])
    requires i + |d| == |s| || !IsDigit(s[i + |d|])
    ensures DigitEnd(s, i) == i + |d|
    decreases |d|
  {
    if |d| > 0 {
      assert s[i] == d[0];
      assert s[i + 1..i + |d|] == d[1..];
      DigitEndAt(s, i + 1, d[1..]);
    }
  }

  /** `get_2_int(pd->val, &x, &y)`, its loop over the two numbers, with
      both numbers required. */
  method TwoInts(val: seq<char>) returns (ok: bool, x: int, y: int)
    ensures ok <==> Get2Int(val).Some?
    ensures ok ==> (x, y) == Get2Int(val).value
  {
    var ptr: nat := 0;
    x, y := 0, 0;
    for i := 0 to 2
      invariant ptr <= |val|
      invariant i == 0 ==> ptr == 0
      invariant i == 1 ==> var a := Strtol(val, 0); InRange(a) && a.end != 0 && ptr == a.end && x == a.value
      invariant i == 2 ==> Get2Int(val) == Some((x, y))
    {
      var r := Strtol(val, ptr);
      if r.erange || r.end == ptr {
        return false, x, y;
      }
      if r.value < 0 || r.value > INT_MAX {
        return false, x, y;
      }
      if i == 0 {
        x := r.value;
      } else {
        y := r.value;
      }
      ptr := r.end;
    }
    return true, x, y;
  }

  // ---------------------------------------------------------------------
  // Level codes: `valid_identifier`

  predicate IsCodeChar(c: char) { 'a' <= c <= 'z' || '0' <= c <= '9' }

  /** `valid_identifier(val)`: every character a lower-case letter or a
      digit (the empty code included). */
  method ValidIdentifier(val: seq<char>) returns (ok: bool)
    ensures ok <==> forall i :: 0 <= i < |val| ==> IsCodeChar(val[i])
  {
    for i := 0 to |val|
      invariant forall k :: 0 <= k < i ==> IsCodeChar(val[k])
    {
      if !(val[i] >= 'a' && val[i] <= 'z') && !(val[i] >= '0' && val[i] <= '9') {
        return false;
      }
    }
    return true;
  }

  // ---------------------------------------------------------------------
  // `DATA` replies: `p_send_data`

  /** The members `p_send_data` reads: `int`s, or bytes read unsigned. */
  datatype Members = Ints(ints: seq<int>) | Bytes(bytes: seq<byte>)

  function Values(m: Members): (vs: seq<int>)
    ensures |vs| == (if m.Ints? then |m.ints| else |m.bytes|)
    ensures forall i :: 0 <= i < |vs| ==> IsInt32(vs[i])  || m.Ints?
  {
    if m.Ints? then m.ints else seq(|m.bytes|, i requires 0 <= i < |m.bytes| => m.bytes[i] as int)
  }

  /** " %d" for every value, in order. */
  function Spaced(vs: seq<int>): (t: seq<char>)
    ensures |vs| > 0 ==> |t| > 0 && t[0] == ' '
    decreases |vs|
  {
    if |vs| == 0 then [] else Spaced(vs[..|vs| - 1]) + " " + Decimal(vs[|vs| - 1])
  }

  /** The text of a `DATA` reply: the values in decimal, one space apart. */
  function DataText(vs: seq<int>): seq<char>
    requires |vs| > 0
  {
    Spaced(vs)[1..]
  }

  /** " %d" of a 32-bit value takes at most 12 characters. */
  lemma {:induction false} SpacedLength(vs: seq<int>)
    requires forall i :: 0 <= i < |vs| ==> IsInt32(vs[i])
    ensures |Spaced(vs)| <= 12 * |vs|
    decreases |vs|
  {
    if |vs| > 0 {
      SpacedLength(vs[..|vs| - 1]);
      DecimalInt32Length(vs[|vs| - 1]);
    }
  }

  /** The loop of `p_send_data`: " %d" per member into a buffer of
      `12 * len + 1` bytes, stopping if the buffer filled; the reply text
      starts after the first space. The buffer never fills. */
  method SendDataText(m: Members) returns (text: seq<char>)
    requires |Values(m)| > 0 && (m.Ints? ==> forall i :: 0 <= i < |m.ints| ==> IsInt32(m.ints[i]))
    ensures text == DataText(Values(m))
  {
    var vs := Values(m);
    var size := |vs| * 12 + 1;
    var msg: seq<char> := [];
    var i := 0;
    while i < |vs|
      invariant i <= |vs| && msg == Spaced(vs[..i])
      invariant |msg| <= 12 * i
    {
      var v := vs[i];
      DecimalInt32Length(v);
      assert vs[..i + 1][..i] == vs[..i];
      msg := msg + " " + Decimal(v);
      i := i + 1;
      if |msg| >= size {
        break;
      }
    }
    assert vs[..|vs|] == vs;
    text := msg[1..];
  }

  /** The words of a text split at every space, as a client splits a
      `DATA` reply. */
  function Words(t: seq<char>): seq<seq<char>>
    decreases |t|
  {
    if ' ' !in t then [t]
    else
      var k := LastSpace(t);
      Words(t[..k]) + [t[k + 1..]]
  }

  function LastSpace(t: seq<char>): (k: nat)
    requires ' ' in t
    ensures k < |t| && t[k] == ' ' && ' ' !in t[k + 1..]
    decreases |t|
  {
    if t[|t| - 1] == ' ' then |t| - 1
    else
      var k := LastSpace(t[..|t| - 1]);
      assert t[k + 1..] == t[..|t| - 1][k + 1..] + [t[|t| - 1]];
      k
  }

  function Decimals(vs: seq<int>): seq<seq<char>>
    decreases |vs|
  {
    if |vs| == 0 then [] else Decimals(vs[..|vs| - 1]) + [Decimal(vs[|vs| - 1])]
  }

  /** A `DATA` reply splits into the decimals of its values, in order. */
  lemma {:induction false} DataTextWords(vs: seq<int>)
    requires |vs| > 0
    ensures Words(DataText(vs)) == Decimals(vs)
    decreases |vs|
  {
    var d := Decimal(vs[|vs| - 1]);
    var front := vs[..|vs| - 1];
    DecimalHasNoSpace(vs[|vs| - 1]);
    if |front| == 0 {
      assert Spaced(vs) == [] + " " + d;
      assert DataText(vs) == d;
    } else {
      DataTextSnoc(vs, front, d);
      WordsSnoc(DataText(front), d);
      DataTextWords(front);
    }
  }

  lemma DataTextSnoc(vs: seq<int>, front: seq<int>, d: seq<char>)
    requires |vs| > 1 && front == vs[..|vs| - 1] && d == Decimal(vs[|vs| - 1])
    ensures DataText(vs) == DataText(front) + " " + d
  {
    var sf := Spaced(front);
    assert Spaced(vs) == sf + " " + d by {
      assert Spaced(vs) == Spaced(vs[..|vs| - 1]) + " " + Decimal(vs[|vs| - 1]);
    }
    assert (sf + " " + d)[1..] == sf[1..] + " " + d;
  }

  /** Splitting after one more word. */
  lemma WordsSnoc(a: seq<char>, d: seq<char>)
    requires ' ' !in d
    ensures Words(a + " " + d) == Words(a) + [d]
  {
    var t := a + " " + d;
    assert t[|a|] == ' ';
    NoSpaceAfter(a, d);
    assert t[..|a|] == a && t[|a| + 1..] == d;
  }

  lemma DecimalHasNoSpace(n: int)
    ensures ' ' !in Decimal(n)
  {
    if n < 0 {
      assert Decimal(n) == ['-'] + Digits(-n);
    }
  }

  lemma NoSpaceAfter(a: seq<char>, d: seq<char>)
    requires ' ' !in d
    ensures LastSpace(a + " " + d) == |a|
  {
    var t := a + " " + d;
    assert t[|a|] == ' ';
    assert t[|a| + 1..] == d;
  }

  // ---------------------------------------------------------------------
  // The value of a command without one

  /** As written, a `WHAT` without a value after `WHAT x y` reads the old
      value from the buffer and is answered for (x, y); with the buffer
      emptied on reset it is refused. */
  lemma StaleValueAsWritten(l0: Line, x: int, y: int)
    requires Fresh(l0) && 0 <= x <= INT_MAX && 0 <= y <= INT_MAX
    ensures var first := Chunk(l0, Reply("WHAT", Some(Decimal(x) + " " + Decimal(y)), false));
      && first.Going?
      && var asWritten := Chunk(ResetAsWritten(first.s), Reply("WHAT", None, false));
      && var fixed := Chunk(Reset(first.s), Reply("WHAT", None, false));
      && asWritten.Going? && Get2IntAsWritten(Value(asWritten.s)) == Some((x, y))
      && fixed.Going? && Get2Int(Value(fixed.s)) == None
  {
    var v := Decimal(x) + " " + Decimal(y);
    DecimalSendable(x, y);
    assert IsCommand("WHAT");
    LineValue(l0, "WHAT", Some(v), false);
    var l1 := Chunk(l0, Reply("WHAT", Some(v), false)).s;
    BufferKeptWithoutValue(ResetAsWritten(l1));
    Get2IntRoundTrip(x, y);
    var r := Reset(l1);
    BufferKeptWithoutValue(r);
    EmptiedValue(Chunk(r, Reply("WHAT", None, false)).s);
    Get2IntAsWrittenTakesMissingAsZero();
  }

  lemma EmptiedValue(l: Line)
    requires l.val[0] == '\0'
    ensures Value(l) == []
  {
  }

  /** A well-formed line hands its value to the command handler: the
      value it carries, or nothing when it carries none (the buffer being
      terminated at 0 before it). */
  lemma LineValue(l: Line, cmd: seq<char>, data: Option<seq<char>>, crlf: bool)
    requires Fresh(l) && IsCommand(cmd) && (data.Some? ==> Sendable(data.value))
    requires data.None? || |data.value| == 0 ==> l.val[0] == '\0'
    ensures var r := Chunk(l, Reply(cmd, data, crlf));
      && r.Going? && r.s.cmd == cmd && r.s.complete && r.s.crlf == crlf
      && r.s.isVal == data.Some? && Value(r.s) == (if data.Some? then data.value else [])
  {
    LineParses(l, cmd, data, crlf);
    var v := if data.Some? then data.value else [];
    var l1 := Chunk(l, Reply(cmd, data, crlf)).s;
    if |v| > 0 {
      assert l1.val == l1.val[..|v|] + [l1.val[|v|]] + l1.val[|v| + 1..];
      CStrOfTerminated(v, l1.val[|v| + 1..]);
    } else {
      EmptiedValue(l1);
    }
  }

  /** A `WHAT` line without a value leaves the buffer as it was. */
  lemma BufferKeptWithoutValue(l: Line)
    requires Fresh(l)
    ensures var r := Chunk(l, Reply("WHAT", None, false)); r.Going? && r.s.val == l.val
  {
    assert IsCommand("WHAT");
    LineParses(l, "WHAT", None, false);
  }

  lemma DecimalSendable(x: int, y: int)
    requires 0 <= x <= INT_MAX && 0 <= y <= INT_MAX
    ensures Sendable(Decimal(x) + " " + Decimal(y))
  {
    DigitsAreDigits(x);
    DigitsAreDigits(y);
    DecimalInt32Length(x);
    DecimalInt32Length(y);
    assert Decimal(x) != [];
  }
}
