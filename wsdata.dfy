/** The receiving side of a WebSocket data connection
    (server/websocket_data.c): the byte-at-a-time frame parser
    `process_chunk`, unmasking, fragment reassembly, the answers to control
    frames, the read loop `ws_read` and the registry of open connections.

    The parser's state is `struct ws_data`. A null `payload` pointer is
    `!inPayload`; `payload_len` is the length of `payload`. A null
    `reassembled` pointer is the empty sequence: the code only stores a
    non-null pointer there together with a non-zero length. */
module WsData {
  import opened CInt
  import opened Prelude
  import opened WsCodec

  /** One byte of the extended length, `payload_size = (payload_size << 8) | c`,
      with `c` read as the unsigned byte it is on the wire. */
  function LengthByte(size: nat, c: byte): (r: nat)
    ensures r / 256 == size && r % 256 == c
  {
    size * 256 + c
  }

  const SIZE_T_MOD: nat := 0x1_0000_0000_0000_0000

  /** The same step as written: `c` is a plain `char` (signed on the
      platforms the server targets), so a byte of 0x80 or more is
      sign-extended to `size_t` and the OR sets every high bit. */
  function LengthByteAsWritten(size: nat, c: byte): (r: nat)
    ensures c < 0x80 && size * 256 < SIZE_T_MOD ==> r == LengthByte(size, c)
    ensures c >= 0x80 ==> r >= SIZE_T_MOD - 128
  {
    if c >= 0x80 then SIZE_T_MOD - 256 + c else (size * 256) % SIZE_T_MOD + c
  }

  /** A 200-byte payload has the 2-byte length 0x00 0xc8. Read as written,
      the second byte swamps the field and the frame is refused as too big;
      read as unsigned bytes it is 200. */
  lemma LengthAsWrittenRefuses200()
    ensures BigEndian(200, 2) == [0x00, 0xc8]
    ensures LengthByteAsWritten(LengthByteAsWritten(0, 0x00), 0xc8) > MAX_PAYLOAD_SIZE
    ensures LengthByte(LengthByte(0, 0x00), 0xc8) == 200
  {
  }


  /** The four bytes of a masking key (`char mask[4]`). */
  type Key = k: seq<byte> | |k| == 4 witness [0, 0, 0, 0]

  /** `struct ws_data` without its socket and list link. */
  datatype WsState = WsState(
    offset: nat,
    inPayload: bool,
    payload: seq<byte>,
    payloadSize: nat,
    mask: Key,
    fin: bool,
    opcode: nat,
    encLen: nat,
    reasmOpcode: nat,
    reassembled: seq<byte>)

  /** The new state, what was asked of the socket and the application, and
      the return code (0 or a negated errno). */
  datatype Out = Out(st: WsState, effects: seq<Effect>, ret: int)

  /** `e` happened before `o`. */
  function Then(e: seq<Effect>, o: Out): (r: Out)
    ensures r.st == o.st && r.ret == o.ret && r.effects == e + o.effects
  {
    Out(o.st, e + o.effects, o.ret)
  }

  lemma ThenThen(d: seq<Effect>, e: seq<Effect>, o: Out)
    ensures Then(d, Then(e, o)) == Then(d + e, o)
  {
    AppendAssoc(d, e, o.effects);
  }

  /** What the parser keeps true between bytes: an allocated payload is
      smaller than its bounded size, the reassembly buffer is bounded and
      empty while no message is open. */
  predicate WsValid(s: WsState) {
    && (s.inPayload ==> 0 < s.payloadSize <= MAX_PAYLOAD_SIZE && |s.payload| < s.payloadSize)
    && (!s.inPayload ==> s.payload == [])
    && |s.reassembled| <= MAX_PAYLOAD_SIZE
    && (s.reasmOpcode == 0 ==> s.reassembled == [])
  }

  /** `reset_message`. */
  function ClearMessage(s: WsState): WsState {
    s.(payload := [], inPayload := false, offset := 0)
  }

  /** `reset_reassembly`. */
  function ClearReassembly(s: WsState): WsState {
    s.(reassembled := [], reasmOpcode := 0)
  }

  /** No message is open, and nothing is held for one. */
  predicate ReasmClosed(s: WsState) {
    s.reasmOpcode == 0 && s.reassembled == []
  }

  /** The open message and the frame's payload fit together: one of them is
      empty or their total is within the bound. */
  predicate Fits(s: WsState) {
    s.payload == [] || s.reassembled == [] || |s.reassembled| + |s.payload| <= MAX_PAYLOAD_SIZE
  }

  /** `reassembly_message`: a first fragment opens the message with its
      payload, a later non-empty one is appended unless the total would pass
      the bound (then the message is dropped), and a final fragment hands a
      non-empty message to the application and closes it. The message so far
      is `reassembled`, the fragment is `payload`. */
  function Reassemble(s: WsState): (r: Out)
    ensures r.ret == 0 && r.st.opcode == s.opcode && r.st.fin == s.fin
    ensures (s.reasmOpcode == 0 ==> s.reassembled == []) && Fits(s) && !s.fin ==>
      && r.effects == []
      && r.st.reassembled == s.reassembled + s.payload
      && r.st.reasmOpcode == (if s.reasmOpcode == 0 then s.opcode else s.reasmOpcode)
    ensures (s.reasmOpcode == 0 ==> s.reassembled == []) && Fits(s) && s.fin ==>
      && r.effects == (if s.reassembled + s.payload == [] then [] else [Delivered(s.reassembled + s.payload)])
      && ReasmClosed(r.st)
    ensures !Fits(s) && s.reasmOpcode != 0 ==> r.effects == [] && ReasmClosed(r.st)
  {
    var p := s.payload;
    if s.reasmOpcode != 0 && |p| > 0 && s.reassembled != [] && |s.reassembled| + |p| > MAX_PAYLOAD_SIZE then
      Out(ClearReassembly(s), [], 0)
    else
      var s1 :=
        if s.reasmOpcode == 0 then s.(reasmOpcode := s.opcode, reassembled := p, payload := [])
        else if |p| == 0 then s
        else if s.reassembled == [] then s.(reassembled := p, payload := [])
        else s.(reassembled := s.reassembled + p);
      assert (s.reasmOpcode == 0 ==> s.reassembled == []) ==> s1.reassembled == s.reassembled + p;
      if !s1.fin then Out(s1, [], 0)
      else Out(ClearReassembly(s1), if |s1.reassembled| > 0 then [Delivered(s1.reassembled)] else [], 0)
  }

  /** `consume_message`: act on a complete frame. `accept` is the socket's
      answer to the pong, if one is written. */
  function Consume(s: WsState, accept: bool): (r: Out)
    ensures r.st.payload == [] && !r.st.inPayload && r.st.offset == 0
    ensures r.ret in {0, -EINVAL, -EOPNOTSUPP, -EPIPE}
    ensures r.ret == -EINVAL <==> s.opcode == OP_CONT && s.reasmOpcode == 0
    ensures r.ret == -EOPNOTSUPP <==> s.opcode == OP_TEXT
    ensures r.ret == -EPIPE <==> s.opcode == OP_CLOSE
    ensures r.ret < 0 ==> r.effects == [] && r.st == ClearMessage(s)
    ensures s.opcode == OP_PING ==> r.effects == WriteEffects(Frame(OP_PONG, s.payload), accept) && r.st == ClearMessage(s)
    ensures s.opcode == OP_PONG ==> r.effects == [] && r.st == ClearMessage(s)
    ensures s.opcode == OP_BINARY ==> r.st.reasmOpcode == (if s.fin then 0 else OP_BINARY)
    ensures s.opcode == OP_BINARY && s.fin ==> r.effects == (if s.payload == [] then [] else [Delivered(s.payload)])
    ensures forall e :: e in r.effects ==> e != FlushedAndDeleted
  {
    if s.opcode == OP_CONT then
      if s.reasmOpcode == 0 then Out(ClearMessage(s), [], -EINVAL)
      else var r := Reassemble(s); Out(ClearMessage(r.st), r.effects, 0)
    else if s.opcode == OP_TEXT then Out(ClearMessage(s), [], -EOPNOTSUPP)
    else if s.opcode == OP_BINARY then
      var r := Reassemble(if s.reasmOpcode != 0 then ClearReassembly(s) else s);
      Out(ClearMessage(r.st), r.effects, 0)
    else if s.opcode == OP_CLOSE then Out(ClearMessage(s), [], -EPIPE)
    else if s.opcode == OP_PING then Out(ClearMessage(s), WriteEffects(Frame(OP_PONG, s.payload), accept), 0)
    else Out(ClearMessage(s), [], 0)
  }

  /** What one byte does to the parser before a completed frame is
      consumed: the new state, an error code, and whether the frame is now
      complete. */
  datatype Scanned = Scanned(st: WsState, ret: int, complete: bool)

  /** The header is complete (`offset == 6 + payload_enc_len`): refuse a
      payload over the bound, complete an empty frame at once, otherwise
      start collecting the payload. */
  function HeaderComplete(s: WsState): Scanned
  {
    if s.payloadSize > MAX_PAYLOAD_SIZE then Scanned(s, -ENOSPC, false)
    else if s.payloadSize == 0 then Scanned(s.(payload := []), 0, true)
    else Scanned(s.(payload := [], inPayload := true), 0, false)
  }

  /** `offset++` at the end of every header byte. */
  function HeaderAdvance(s: WsState): Scanned
  {
    var s1 := s.(offset := s.offset + 1);
    if s1.offset != 6 + s1.encLen then Scanned(s1, 0, false) else HeaderComplete(s1)
  }

  /** One header byte: FIN, reserved bits and opcode; then the mask bit and
      the 7-bit length; then the extended length; then the four mask bytes. */
  function HeaderByte(s: WsState, c: byte): (r: Scanned)
    ensures r.ret in {0, -EINVAL, -ENOSPC}
    ensures r.ret == -ENOSPC ==> r.st.payloadSize > MAX_PAYLOAD_SIZE
    ensures r.complete ==> r.ret == 0 && r.st.payloadSize == 0 && r.st.payload == []
  {
    if s.offset == 0 then
      var s1 := s.(fin := c >= 0x80);
      if (c / 16) % 8 != 0 then Scanned(s1, -EINVAL, false)
      else
        var s2 := s1.(opcode := c % 16);
        if c % 8 > 2 then Scanned(s2, -EINVAL, false)
        else HeaderAdvance(s2)
    else if s.offset == 1 then
      if c < 0x80 then Scanned(s, -EINVAL, false)
      else
        var len := c % 128;
        HeaderAdvance(
          if len <= 125 then s.(encLen := 0, payloadSize := len)
          else if len == 126 then s.(encLen := 2, payloadSize := 0)
          else s.(encLen := 4, payloadSize := 0))
    else if s.offset < 2 + s.encLen then
      HeaderAdvance(s.(payloadSize := LengthByte(s.payloadSize, c)))
    else if s.offset < 6 + s.encLen then
      HeaderAdvance(s.(mask := s.mask[s.offset - 2 - s.encLen := c]))
    else HeaderAdvance(s)
  }

  /** A header byte, or a payload byte stored unmasked. */
  function Scan(s: WsState, c: byte): (r: Scanned)
    ensures s.inPayload ==> r.ret == 0 && |r.st.payload| == |s.payload| + 1
    ensures s.inPayload ==> (r.complete <==> |s.payload| + 1 == s.payloadSize)
  {
    if !s.inPayload then HeaderByte(s, c)
    else
      var p := s.payload + [Xor8(c, s.mask[|s.payload| % 4])];
      Scanned(s.(payload := p), 0, |p| == s.payloadSize)
  }

  /** The body of the loop of `process_chunk` for byte `c`. */
  function Step(s: WsState, c: byte, accept: bool): (o: Out)
    ensures Scan(s, c).ret < 0 ==> o.ret == Scan(s, c).ret && o.effects == []
    ensures !Scan(s, c).complete ==> o.effects == []
  {
    var b := Scan(s, c);
    if b.ret < 0 then Out(b.st, [], b.ret)
    else if b.complete then Consume(b.st, accept)
    else Out(b.st, [], 0)
  }

  /** `process_chunk` over `buf[i..j]`: byte after byte, stopping at the
      first error. `acc[k]` is the socket's answer to a frame written while
      byte `k` is handled. */
  function Run(s: WsState, buf: seq<byte>, acc: seq<bool>, i: nat, j: nat): (o: Out)
    requires i <= j <= |buf| && |acc| == |buf|
    ensures o.ret <= 0
    decreases j - i, 1
  {
    if i == j then Out(s, [], 0) else Advance(Scan(s, buf[i]), buf, acc, i, j)
  }

  /** What follows the scan `b` of byte `i`: stop on an error, consume a
      completed frame, or go on with the next byte. */
  function Advance(b: Scanned, buf: seq<byte>, acc: seq<bool>, i: nat, j: nat): (o: Out)
    requires i < j <= |buf| && |acc| == |buf|
    ensures b.ret <= 0 ==> o.ret <= 0
    decreases j - i, 0
  {
    if b.ret < 0 then Out(b.st, [], b.ret)
    else if b.complete then Resume(Consume(b.st, acc[i]), buf, acc, i + 1, j)
    else Run(b.st, buf, acc, i + 1, j)
  }

  /** Carry on from byte `k` after a frame was consumed with outcome `c`. */
  function Resume(c: Out, buf: seq<byte>, acc: seq<bool>, k: nat, j: nat): (o: Out)
    requires k <= j <= |buf| && |acc| == |buf|
    ensures c.ret <= 0 ==> o.ret <= 0
    decreases j - k, 2
  {
    if c.ret < 0 then c else Then(c.effects, Run(c.st, buf, acc, k, j))
  }

  /** `Run` is the loop of `process_chunk` around `Step`. */
  lemma RunStep(s: WsState, buf: seq<byte>, acc: seq<bool>, i: nat, j: nat)
    requires i < j <= |buf| && |acc| == |buf|
    ensures var o := Step(s, buf[i], acc[i]);
      Run(s, buf, acc, i, j) == if o.ret < 0 then o else Then(o.effects, Run(o.st, buf, acc, i + 1, j))
  {
    var b := Scan(s, buf[i]);
    assert Run(s, buf, acc, i, j) == Advance(b, buf, acc, i, j);
    if b.ret < 0 {
    } else if b.complete {
      assert Advance(b, buf, acc, i, j) == Resume(Consume(b.st, acc[i]), buf, acc, i + 1, j);
    } else {
      assert Run(b.st, buf, acc, i + 1, j) == Then([], Run(b.st, buf, acc, i + 1, j));
    }
  }

  // ---------------------------------------------------------------------
  // Messages made of fragments

  /** The part of a complete frame that `consume_message` acts on. */
  datatype Msg = Msg(fin: bool, opcode: nat, payload: seq<byte>)

  /** The parser holding the complete frame `m`. */
  function Holding(s: WsState, m: Msg): WsState {
    s.(fin := m.fin, opcode := m.opcode, payload := m.payload)
  }

  /** Consume the frames `ms` one after the other, stopping at the first
      error; any pong is accepted by the socket. */
  function Feed(s: WsState, ms: seq<Msg>): Out
    decreases |ms|
  {
    if |ms| == 0 then Out(s, [], 0)
    else
      var o := Consume(Holding(s, ms[0]), true);
      if o.ret < 0 then o else Then(o.effects, Feed(o.st, ms[1..]))
  }

  function Concat(ps: seq<seq<byte>>): seq<byte>
    decreases |ps|
  {
    if |ps| == 0 then [] else ps[0] + Concat(ps[1..])
  }

  /** What the application is handed for a complete message: nothing when
      it is empty. */
  function Deliver(m: seq<byte>): seq<Effect> {
    if m == [] then [] else [Delivered(m)]
  }

  /** Continuation frames with the payloads `rest`, FIN on the last. */
  function Continuations(rest: seq<seq<byte>>): (ms: seq<Msg>)
    ensures |ms| == |rest|
    decreases |rest|
  {
    if |rest| == 0 then [] else [Msg(|rest| == 1, OP_CONT, rest[0])] + Continuations(rest[1..])
  }

  /** A binary message sent in fragments: a binary frame, then continuation
      frames, FIN on the last frame only. */
  function Fragments(first: seq<byte>, rest: seq<seq<byte>>): (ms: seq<Msg>)
    ensures |ms| == 1 + |rest| && ms[0].opcode == OP_BINARY
  {
    [Msg(rest == [], OP_BINARY, first)] + Continuations(rest)
  }

  /** Continuation frames append to the open message in arrival order, and
      the last one hands over the whole message once. */
  lemma {:induction false} ContinuationsDeliver(s: WsState, rest: seq<seq<byte>>)
    requires s.reasmOpcode == OP_BINARY && |rest| > 0
    requires |s.reassembled| + |Concat(rest)| <= MAX_PAYLOAD_SIZE
    ensures var o := Feed(s, Continuations(rest));
      o.ret == 0 && o.effects == Deliver(s.reassembled + Concat(rest)) && ReasmClosed(o.st)
    decreases |rest|
  {
    var t := Holding(s, Msg(|rest| == 1, OP_CONT, rest[0]));
    assert Fits(t);
    var o := Consume(t, true);
    var ms := Continuations(rest);
    assert ms[1..] == Continuations(rest[1..]);
    if |rest| == 1 {
      assert Concat(rest) == rest[0] + [] == rest[0];
      assert ms[1..] == [];
      assert o.effects == Deliver(s.reassembled + rest[0]) && ReasmClosed(o.st);
      assert Feed(s, ms) == Then(o.effects, Out(o.st, [], 0));
    } else {
      assert o.effects == [] && o.st.reassembled == s.reassembled + rest[0] && o.st.reasmOpcode == OP_BINARY;
      ContinuationsDeliver(o.st, rest[1..]);
      AppendAssoc(s.reassembled, rest[0], Concat(rest[1..]));
    }
  }

  /** A message sent in fragments whose total is within the bound reaches
      the application whole, once, when its last fragment arrives; any
      message that was open before is discarded. */
  lemma FragmentsDeliver(s: WsState, first: seq<byte>, rest: seq<seq<byte>>)
    requires |first| + |Concat(rest)| <= MAX_PAYLOAD_SIZE
    ensures var o := Feed(s, Fragments(first, rest));
      o.ret == 0 && o.effects == Deliver(first + Concat(rest)) && ReasmClosed(o.st)
  {
    var ms := Fragments(first, rest);
    var o := Consume(Holding(s, ms[0]), true);
    assert ms[1..] == Continuations(rest);
    if rest == [] {
      assert first + Concat(rest) == first;
    } else {
      assert o.ret == 0 && o.effects == [] && o.st.reassembled == first && o.st.reasmOpcode == OP_BINARY;
      ContinuationsDeliver(o.st, rest);
    }
  }

  /** What `consume_message` needs to keep the parser valid: a payload
      within the bound, and a bounded reassembly buffer that is empty while
      no message is open. */
  predicate Consumable(s: WsState) {
    && |s.payload| <= MAX_PAYLOAD_SIZE
    && |s.reassembled| <= MAX_PAYLOAD_SIZE
    && (s.reasmOpcode == 0 ==> s.reassembled == [])
  }

  /** A byte leaves a valid parser valid, or completes a frame that can be
      consumed. */
  lemma ScanKeepsValid(s: WsState, c: byte)
    requires WsValid(s)
    ensures var b := Scan(s, c); if b.complete then Consumable(b.st) else WsValid(b.st)
  {
  }

  /** Consuming a frame leaves the parser valid: the reassembled message
      never grows past the bound. */
  lemma ConsumeKeepsValid(s: WsState, accept: bool)
    requires Consumable(s)
    ensures WsValid(Consume(s, accept).st)
  {
    if s.opcode == OP_CONT && s.reasmOpcode != 0 {
      var r := Reassemble(s);
      assert |r.st.reassembled| <= MAX_PAYLOAD_SIZE;
    }
  }

  lemma StepKeepsValid(s: WsState, c: byte, accept: bool)
    requires WsValid(s)
    ensures WsValid(Step(s, c, accept).st)
  {
    ScanKeepsValid(s, c);
    var b := Scan(s, c);
    if b.ret >= 0 && b.complete {
      ConsumeKeepsValid(b.st, accept);
    }
  }

  /** `process_chunk` leaves a valid parser valid, whatever it reads. */
  lemma {:induction false} RunKeepsValid(s: WsState, buf: seq<byte>, acc: seq<bool>, i: nat, j: nat)
    requires i <= j <= |buf| && |acc| == |buf| && WsValid(s)
    ensures WsValid(Run(s, buf, acc, i, j).st)
    decreases j - i
  {
    if i < j {
      RunStep(s, buf, acc, i, j);
      StepKeepsValid(s, buf[i], acc[i]);
      var o := Step(s, buf[i], acc[i]);
      if o.ret >= 0 {
        RunKeepsValid(o.st, buf, acc, i + 1, j);
      }
    }
  }

  /** A byte fails only with a bad header (`-EINVAL`) or a payload size
      over the bound (`-ENOSPC`). */
  lemma ScanOutcome(s: WsState, c: byte)
    ensures Scan(s, c).ret in {0, -EINVAL, -ENOSPC}
  {
  }

  /** `process_chunk` returns 0 or one of the errors `ws_read` maps to a
      close code, and never closes the socket itself. */
  lemma {:induction false} RunOutcome(s: WsState, buf: seq<byte>, acc: seq<bool>, i: nat, j: nat)
    requires i <= j <= |buf| && |acc| == |buf|
    ensures var o := Run(s, buf, acc, i, j);
      o.ret in {0, -EINVAL, -ENOSPC, -EOPNOTSUPP, -EPIPE} && FlushedAndDeleted !in o.effects
    decreases j - i
  {
    if i < j {
      RunStep(s, buf, acc, i, j);
      ScanOutcome(s, buf[i]);
      var o := Step(s, buf[i], acc[i]);
      if o.ret >= 0 {
        RunOutcome(o.st, buf, acc, i + 1, j);
      }
    }
  }

  /** The loop of `ws_read` over the chunks `socket_read` returns before it
      returns 0: each is parsed by `process_chunk` until one fails.
      `accs[k]` are the socket's answers while chunk `k` is parsed. */
  function ReadChunks(s: WsState, chunks: seq<seq<byte>>, accs: seq<seq<bool>>): (r: Out)
    requires |accs| == |chunks| && forall k :: 0 <= k < |chunks| ==> |accs[k]| == |chunks[k]|
    ensures r.ret in {0, -EINVAL, -ENOSPC, -EOPNOTSUPP, -EPIPE} && FlushedAndDeleted !in r.effects
    decreases |chunks|
  {
    if |chunks| == 0 then Out(s, [], 0)
    else
      var o := Run(s, chunks[0], accs[0], 0, |chunks[0]|);
      RunOutcome(s, chunks[0], accs[0], 0, |chunks[0]|);
      if o.ret < 0 then o else Then(o.effects, ReadChunks(o.st, chunks[1..], accs[1..]))
  }

  /** Unfolding `ReadChunks` at chunk `k`. */
  lemma ReadChunksFront(s: WsState, chunks: seq<seq<byte>>, accs: seq<seq<bool>>, k: nat)
    requires |accs| == |chunks| && forall k :: 0 <= k < |chunks| ==> |accs[k]| == |chunks[k]|
    requires k < |chunks|
    ensures var o := Run(s, chunks[k], accs[k], 0, |chunks[k]|);
      ReadChunks(s, chunks[k..], accs[k..])
        == if o.ret < 0 then o else Then(o.effects, ReadChunks(o.st, chunks[k + 1..], accs[k + 1..]))
  {
    assert chunks[k..][0] == chunks[k] && accs[k..][0] == accs[k];
    assert chunks[k..][1..] == chunks[k + 1..] && accs[k..][1..] == accs[k + 1..];
  }

  /** `ws_read`: the first error is answered with a close frame carrying
      its code, then flush-and-delete; `closeAccept` is the socket's answer
      to the close frame. */
  function ReadOut(s: WsState, chunks: seq<seq<byte>>, accs: seq<seq<bool>>, closeAccept: bool): (r: Out)
    requires |accs| == |chunks| && forall k :: 0 <= k < |chunks| ==> |accs[k]| == |chunks[k]|
    ensures r.ret in {0, -EINVAL, -ENOSPC, -EOPNOTSUPP, -EPIPE}
    ensures r.ret == 0 <==> FlushedAndDeleted !in r.effects
    ensures r.ret < 0 ==>
      var e := ErrorEffects(CloseCode(r.ret), closeAccept);
      |e| <= |r.effects| && r.effects[|r.effects| - |e|..] == e
  {
    var o := ReadChunks(s, chunks, accs);
    if o.ret < 0 then
      var e := ErrorEffects(CloseCode(o.ret), closeAccept);
      assert (o.effects + e)[|o.effects + e| - |e|..] == e;
      Out(o.st, o.effects + e, o.ret)
    else o
  }

  // ---------------------------------------------------------------------
  // Single bytes

  /** The first header byte is refused exactly when a reserved bit is set or
      its low three bits name no known opcode; the opcodes it lets through
      are those of continuation, text, binary, close, ping and pong. */
  lemma FirstByte(s: WsState, c: byte)
    requires !s.inPayload && s.offset == 0
    ensures Scan(s, c).ret == -EINVAL <==> (c / 16) % 8 != 0 || c % 8 > 2
    ensures Scan(s, c).ret == 0 ==>
      && c % 16 in {OP_CONT, OP_TEXT, OP_BINARY, OP_CLOSE, OP_PING, OP_PONG}
      && Scan(s, c) == Scanned(s.(fin := c >= 0x80, opcode := c % 16, offset := 1), 0, false)
  {
  }

  /** The second byte must carry the mask bit; its low 7 bits choose the
      length form. */
  lemma SecondByte(s: WsState, c: byte)
    requires !s.inPayload && s.offset == 1
    ensures Scan(s, c).ret == -EINVAL <==> c < 0x80
    ensures c >= 0x80 ==>
      var len := c - 0x80;
      Scan(s, c) == Scanned(
        if len <= 125 then s.(encLen := 0, payloadSize := len, offset := 2)
        else if len == 126 then s.(encLen := 2, payloadSize := 0, offset := 2)
        else s.(encLen := 4, payloadSize := 0, offset := 2), 0, false)
  {
  }

  /** An extended length byte shifts into the size. */
  lemma ExtByte(s: WsState, c: byte)
    requires !s.inPayload && 2 <= s.offset < 2 + s.encLen
    ensures Scan(s, c) == Scanned(s.(payloadSize := LengthByte(s.payloadSize, c), offset := s.offset + 1), 0, false)
  {
  }

  /** A mask byte other than the last is stored at its place. */
  lemma MaskByte(s: WsState, c: byte)
    requires !s.inPayload && 2 + s.encLen <= s.offset < 5 + s.encLen
    ensures Scan(s, c) == Scanned(s.(mask := s.mask[s.offset - 2 - s.encLen := c], offset := s.offset + 1), 0, false)
  {
  }

  /** The last mask byte completes the header: a size over the bound is
      refused with `-ENOSPC`, an empty frame is complete, otherwise the
      payload starts. */
  lemma LastMaskByte(s: WsState, c: byte)
    requires !s.inPayload && s.offset == 5 + s.encLen
    ensures var h := s.(mask := s.mask[3 := c], offset := 6 + s.encLen);
      Scan(s, c) == HeaderComplete(h)
    ensures s.payloadSize > MAX_PAYLOAD_SIZE <==> Scan(s, c).ret == -ENOSPC
  {
    var s1 := s.(mask := s.mask[3 := c]);
    assert HeaderByte(s, c) == HeaderAdvance(s1);
    assert s1.(offset := s1.offset + 1) == s.(mask := s.mask[3 := c], offset := 6 + s.encLen);
  }

  /** A payload byte is stored XOR the mask byte of its position; the frame
      is complete when the announced size is reached. */
  lemma PayloadByte(s: WsState, c: byte)
    requires s.inPayload
    ensures var p := s.payload + [Xor8(c, s.mask[|s.payload| % 4])];
      Scan(s, c) == Scanned(s.(payload := p), 0, |p| == s.payloadSize)
  {
  }

  lemma RunQuiet(s: WsState, buf: seq<byte>, acc: seq<bool>, i: nat, j: nat, s1: WsState)
    requires i < j <= |buf| && |acc| == |buf|
    requires Scan(s, buf[i]) == Scanned(s1, 0, false)
    ensures Run(s, buf, acc, i, j) == Run(s1, buf, acc, i + 1, j)
  {
  }

  lemma RunComplete(s: WsState, buf: seq<byte>, acc: seq<bool>, i: nat, k: nat, j: nat, s1: WsState)
    requires i < j <= |buf| && |acc| == |buf| && k == i + 1
    requires Scan(s, buf[i]) == Scanned(s1, 0, true)
    ensures Run(s, buf, acc, i, j) == Resume(Consume(s1, acc[i]), buf, acc, k, j)
  {
  }

  // ---------------------------------------------------------------------
  // Runs of quiet header and payload bytes

  /** One byte that neither fails nor completes a frame, and the state it
      leaves. */
  function Quiet(s: WsState, c: byte): Option<WsState>
  {
    var r := Scan(s, c);
    if r.ret == 0 && !r.complete then Some(r.st) else None
  }

  /** Scanning the bytes `w` is quiet throughout and ends in the state
      returned. */
  function Scans(s: WsState, w: seq<byte>): Option<WsState>
  {
    Steps(Quiet, s, w)
  }

  /** The extended length bytes accumulate big-endian. */
  lemma {:induction false} ExtScans(s: WsState, w: seq<byte>)
    requires !s.inPayload && s.offset == 2 && s.payloadSize == 0 && |w| <= s.encLen
    ensures Scans(s, w) == Some(s.(offset := 2 + |w|, payloadSize := BEValue(w)))
    decreases |w|
  {
    if |w| > 0 {
      var v := w[..|w| - 1];
      ExtScans(s, v);
      var t := s.(offset := 2 + |v|, payloadSize := BEValue(v));
      ExtByte(t, w[|w| - 1]);
    }
  }

  /** The first mask bytes are stored in order. */
  lemma {:induction false} MaskScans(s: WsState, w: seq<byte>)
    requires !s.inPayload && s.offset == 2 + s.encLen && |w| <= 3
    ensures Scans(s, w) == Some(s.(mask := w + s.mask[|w|..], offset := 2 + s.encLen + |w|))
    decreases |w|
  {
    if |w| > 0 {
      var v := w[..|w| - 1];
      MaskScans(s, v);
      var t := s.(mask := v + s.mask[|v|..], offset := 2 + s.encLen + |v|);
      var c := w[|w| - 1];
      MaskByte(t, c);
      assert t.mask[|v| := c] == w + s.mask[|w|..];
      assert Quiet(t, c) == Some(s.(mask := w + s.mask[|w|..], offset := 2 + s.encLen + |w|));
    } else {
      assert w + s.mask[|w|..] == s.mask;
    }
  }

  /** Unmasking: each payload byte is the received byte XOR the mask byte of
      its position, and every byte before the last is quiet. */
  lemma {:induction false} BodyScans(s: WsState, q: seq<byte>, key: Key)
    requires s.inPayload && s.payload == [] && s.mask == key && |q| < s.payloadSize
    ensures Scans(s, Masked(q, key)) == Some(s.(payload := q))
    decreases |q|
  {
    if |q| > 0 {
      var v := q[..|q| - 1];
      var m := Masked(q, key);
      assert m[..|m| - 1] == Masked(v, key);
      BodyScans(s, v, key);
      Xor8Twice(q[|q| - 1], key[|v| % 4]);
      assert v + [q[|q| - 1]] == q;
      PayloadByte(s.(payload := v), m[|m| - 1]);
    }
  }

  /** The last payload byte completes the frame. */
  lemma PayloadLast(s: WsState, p: seq<byte>, key: Key)
    requires s.inPayload && s.payloadSize == |p| > 0 && s.payload == p[..|p| - 1] && s.mask == key
    ensures Scan(s, Masked(p, key)[|p| - 1]) == Scanned(s.(payload := p), 0, true)
  {
    var c := Masked(p, key)[|p| - 1];
    Xor8Twice(p[|p| - 1], key[(|p| - 1) % 4]);
    assert s.payload + [Xor8(c, s.mask[|s.payload| % 4])] == p;
    PayloadByte(s, c);
  }

  // ---------------------------------------------------------------------
  // Whole frames

  /** A client's `payload` masked with `key` (section 5.3 of RFC 6455). */
  function Masked(p: seq<byte>, key: Key): (m: seq<byte>)
    ensures |m| == |p|
  {
    if |p| == 0 then [] else Masked(p[..|p| - 1], key) + [Xor8(p[|p| - 1], key[(|p| - 1) % 4])]
  }

  /** Masking twice with the same key gives the payload back. */
  lemma {:induction false} MaskedTwice(p: seq<byte>, key: Key)
    ensures Masked(Masked(p, key), key) == p
  {
    if |p| > 0 {
      var m := Masked(p, key);
      assert m[..|m| - 1] == Masked(p[..|p| - 1], key);
      MaskedTwice(p[..|p| - 1], key);
      Xor8Twice(p[|p| - 1], key[(|p| - 1) % 4]);
      assert p == p[..|p| - 1] + [p[|p| - 1]];
    }
  }

  /** The first two header bytes of a client frame. */
  function HeaderStart(fin: bool, opcode: nat, n: nat): (hd: seq<byte>)
    requires opcode < 16
    ensures |hd| == 2 && (hd[0] >= 0x80 <==> fin) && hd[0] % 16 == opcode && hd[1] >= 0x80 && hd[1] % 128 == LenCode(n)
  {
    [(if fin then 0x80 else 0) + opcode, 0x80 + LenCode(n)]
  }

  /** A frame as a client sends it: FIN and opcode, the mask bit with the
      length in the shortest of the three forms, the masking key and the
      masked payload. */
  function ClientFrame(fin: bool, opcode: nat, key: Key, p: seq<byte>): (f: seq<byte>)
    requires opcode < 16
    ensures |f| == 6 + ExtLen(|p|) + |p|
  {
    HeaderStart(fin, opcode, |p|) + BigEndian(|p|, ExtLen(|p|)) + key + Masked(p, key)
  }

  /** The state in which the parser consumes that frame. */
  function Loaded(s: WsState, fin: bool, opcode: nat, key: Key, p: seq<byte>): WsState
  {
    s.(offset := 6 + ExtLen(|p|), fin := fin, opcode := opcode, encLen := ExtLen(|p|),
       payloadSize := |p|, mask := key, payload := p, inPayload := |p| > 0)
  }

  /** The parser is at a frame boundary. */
  predicate AtBoundary(s: WsState)
  {
    !s.inPayload && s.offset == 0
  }

  /** A header the parser accepts: no reserved bit, a known opcode, and a
      payload within the bound. */
  predicate Acceptable(opcode: nat, p: seq<byte>)
  {
    opcode < 16 && opcode % 8 <= 2 && |p| <= MAX_PAYLOAD_SIZE
  }

  /** The bits of a first header byte with no reserved bit set. */
  lemma FirstByteBits(fin: bool, opcode: nat)
    requires opcode < 16
    ensures var c := (if fin then 0x80 else 0) + opcode;
      (c / 16) % 8 == 0 && c % 16 == opcode && c % 8 == opcode % 8 && (c >= 0x80 <==> fin)
  {
  }

  /** The first two bytes of a client frame's header. */
  lemma StartScans(s: WsState, fin: bool, opcode: nat, n: nat)
    requires AtBoundary(s) && opcode < 16 && opcode % 8 <= 2
    ensures Scans(s, HeaderStart(fin, opcode, n)) ==
      Some(s.(fin := fin, opcode := opcode, encLen := ExtLen(n), payloadSize := if n <= 125 then n else 0, offset := 2))
  {
    var hd := HeaderStart(fin, opcode, n);
    FirstByteBits(fin, opcode);
    FirstByte(s, hd[0]);
    var s1 := s.(fin := fin, opcode := opcode, offset := 1);
    assert Quiet(s, hd[0]) == Some(s1);
    StepsFront(Quiet, s, hd[0], [hd[1]]);
    SecondByte(s1, hd[1]);
    StepsFront(Quiet, s1, hd[1], []);
    assert hd == [hd[0]] + [hd[1]];
  }

  /** The extended length of a client frame, if it has one, sets the
      payload size. */
  lemma LengthScans(s: WsState, n: nat)
    requires !s.inPayload && s.offset == 2 && s.encLen == ExtLen(n) && s.payloadSize == (if n <= 125 then n else 0)
    requires n <= MAX_PAYLOAD_SIZE
    ensures Scans(s, BigEndian(n, ExtLen(n))) == Some(s.(offset := 2 + ExtLen(n), payloadSize := n))
  {
    var e := ExtLen(n);
    if e > 0 {
      ExtScans(s, BigEndian(n, e));
      BEValueOfBigEndian(n, e);
      assert Pow256(2) == 0x1_0000 && Pow256(4) == 0x1_0000_0000;
    }
  }

  /** The header of a client frame up to its last byte. */
  lemma HeaderScans(s: WsState, fin: bool, opcode: nat, key: Key, n: nat)
    requires AtBoundary(s) && opcode < 16 && opcode % 8 <= 2 && n <= MAX_PAYLOAD_SIZE
    ensures var e := ExtLen(n);
      Scans(s, HeaderStart(fin, opcode, n) + BigEndian(n, e) + key[..3]) ==
      Some(s.(fin := fin, opcode := opcode, encLen := e, payloadSize := n, offset := 5 + e, mask := key[..3] + s.mask[3..]))
  {
    var e := ExtLen(n);
    var hd, ext := HeaderStart(fin, opcode, n), BigEndian(n, e);
    StartScans(s, fin, opcode, n);
    var s2 := s.(fin := fin, opcode := opcode, encLen := e, payloadSize := if n <= 125 then n else 0, offset := 2);
    LengthScans(s2, n);
    var s3 := s2.(offset := 2 + e, payloadSize := n);
    StepsAppend(Quiet, s, hd, ext);
    assert Steps(Quiet, s, hd + ext) == Some(s3);
    MaskScans(s3, key[..3]);
    StepsAppend(Quiet, s, hd + ext, key[..3]);
  }

  /** Scanning `f` is quiet up to its last byte, which completes a frame
      in state `h`. */
  predicate Completes(s: WsState, f: seq<byte>, h: WsState)
  {
    && |f| > 0
    && Scans(s, f[..|f| - 1]).Some?
    && Scan(Scans(s, f[..|f| - 1]).value, f[|f| - 1]) == Scanned(h, 0, true)
  }

  /** A quiet stretch followed by the bytes of a frame. */
  lemma CompletesAfter(s: WsState, head: seq<byte>, tail: seq<byte>, t: WsState, h: WsState)
    requires Scans(s, head) == Some(t) && Completes(t, tail, h)
    ensures Completes(s, head + tail, h)
  {
    StepsBeforeLast(Quiet, s, head, tail, t);
  }

  /** After the header, the key's last byte and a non-empty payload: quiet
      up to the payload's last byte, which completes the frame. */
  lemma BodyTail(s4: WsState, key: Key, p: seq<byte>, h: WsState)
    requires !s4.inPayload && s4.offset == 5 + s4.encLen && s4.payloadSize == |p| && 0 < |p| <= MAX_PAYLOAD_SIZE
    requires s4.mask[..3] == key[..3]
    requires h == s4.(mask := key, offset := 6 + s4.encLen, payload := p, inPayload := true)
    ensures Completes(s4, [key[3]] + Masked(p, key), h)
  {
    var v := p[..|p| - 1];
    var tail := [key[3]] + Masked(p, key);
    assert Masked(p, key)[..|p| - 1] == Masked(v, key);
    assert tail[..|tail| - 1] == [key[3]] + Masked(v, key);
    LastMaskByte(s4, key[3]);
    assert s4.mask[3 := key[3]] == key;
    var s5 := h.(payload := []);
    assert Quiet(s4, key[3]) == Some(s5);
    StepsFront(Quiet, s4, key[3], Masked(v, key));
    BodyScans(s5, v, key);
    assert s5.(payload := v) == h.(payload := v);
    PayloadLast(h.(payload := v), p, key);
  }

  /** With an empty payload the key's last byte completes the frame. */
  lemma EmptyTail(s4: WsState, key: Key, h: WsState)
    requires !s4.inPayload && s4.offset == 5 + s4.encLen && s4.payloadSize == 0 && s4.mask[..3] == key[..3]
    requires h == s4.(mask := key, offset := 6 + s4.encLen, payload := [], inPayload := false)
    ensures Completes(s4, [key[3]], h)
  {
    LastMaskByte(s4, key[3]);
    assert s4.mask[3 := key[3]] == key;
    assert [key[3]][..0] == [];
  }

  /** A client frame split after the third key byte. */
  lemma FrameParts(fin: bool, opcode: nat, key: Key, p: seq<byte>)
    requires opcode < 16
    ensures ClientFrame(fin, opcode, key, p) ==
      (HeaderStart(fin, opcode, |p|) + BigEndian(|p|, ExtLen(|p|)) + key[..3]) + ([key[3]] + Masked(p, key))
    ensures |p| == 0 ==> [key[3]] + Masked(p, key) == [key[3]]
  {
    assert key == key[..3] + [key[3]];
  }

  /** A well-formed client frame scans quietly up to its last byte, which
      completes it in the loaded state. */
  lemma FrameScans(s: WsState, fin: bool, opcode: nat, key: Key, p: seq<byte>)
    requires AtBoundary(s) && Acceptable(opcode, p)
    ensures Completes(s, ClientFrame(fin, opcode, key, p), Loaded(s, fin, opcode, key, p))
  {
    var n, e := |p|, ExtLen(|p|);
    var head := HeaderStart(fin, opcode, n) + BigEndian(n, e) + key[..3];
    HeaderScans(s, fin, opcode, key, n);
    var s4 := s.(fin := fin, opcode := opcode, encLen := e, payloadSize := n, offset := 5 + e, mask := key[..3] + s.mask[3..]);
    var h := Loaded(s, fin, opcode, key, p);
    assert s4.mask[..3] == key[..3];
    var tail := [key[3]] + Masked(p, key);
    FrameParts(fin, opcode, key, p);
    if n == 0 {
      EmptyTail(s4, key, h);
    } else {
      BodyTail(s4, key, p, h);
    }
    CompletesAfter(s, head, tail, s4, h);
  }

  /** Parsing a well-formed client frame from a frame boundary reads exactly
      its bytes and consumes it with the unmasked payload, then goes on with
      the bytes after it: header decoding and unmasking invert the client's
      encoding. */
  lemma ParseFrame(s: WsState, buf: seq<byte>, acc: seq<bool>, i: nat, j: nat,
                   fin: bool, opcode: nat, key: Key, p: seq<byte>)
    requires AtBoundary(s) && Acceptable(opcode, p)
    requires i + |ClientFrame(fin, opcode, key, p)| <= j <= |buf| && |acc| == |buf|
    requires buf[i..i + |ClientFrame(fin, opcode, key, p)|] == ClientFrame(fin, opcode, key, p)
    ensures var k := i + |ClientFrame(fin, opcode, key, p)|;
      Run(s, buf, acc, i, j) == Resume(Consume(Loaded(s, fin, opcode, key, p), acc[k - 1]), buf, acc, k, j)
  {
    var f, h := ClientFrame(fin, opcode, key, p), Loaded(s, fin, opcode, key, p);
    FrameScans(s, fin, opcode, key, p);
    RunCompletes(s, buf, acc, i, i + |f|, j, f, h);
  }

  /** The first byte of a frame that takes more than one byte is quiet. */
  lemma CompletesFront(s: WsState, f: seq<byte>, h: WsState)
    requires |f| > 1 && Completes(s, f, h)
    ensures Quiet(s, f[0]).Some? && Completes(Quiet(s, f[0]).value, f[1..], h)
  {
    SplitFront(f);
    StepsFront(Quiet, s, f[0], f[1..][..|f| - 2]);
  }

  /** Bytes that complete a frame are consumed at their last byte, `k - 1`,
      and parsing goes on from `k`. */
  lemma {:induction false} RunCompletes(s: WsState, buf: seq<byte>, acc: seq<bool>, i: nat, k: nat, j: nat, f: seq<byte>, h: WsState)
    requires k == i + |f| && k <= j <= |buf| && |acc| == |buf| && buf[i..k] == f && Completes(s, f, h)
    ensures Run(s, buf, acc, i, j) == Resume(Consume(h, acc[k - 1]), buf, acc, k, j)
    decreases |f|
  {
    if |f| == 1 {
      assert f[..0] == [] && buf[i] == f[0];
      RunComplete(s, buf, acc, i, k, j, h);
    } else {
      CompletesFront(s, f, h);
      var s1 := Quiet(s, f[0]).value;
      SplitFront(f);
      SliceFront(buf, i, k, f);
      RunQuiet(s, buf, acc, i, j, s1);
      RunCompletes(s1, buf, acc, i + 1, k, j, f[1..], h);
    }
  }
}
