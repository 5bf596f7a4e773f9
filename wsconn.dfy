/** A WebSocket data connection as the object `struct ws_data` that the
    functions of server/websocket_data.c update in place, and the global
    list of open connections with its counter.

    Each method is proved against the function of the same step in
    `WsData`; the socket and the application are the effect log. */
module WsConnection {
  import opened CInt
  import opened Prelude
  import opened WsCodec
  import opened WsData

  class WsConn {
    var offset: nat
    var inPayload: bool
    var payload: seq<byte>
    var payloadSize: nat
    var mask: Key
    var fin: bool
    var opcode: nat
    var encLen: nat
    var reasmOpcode: nat
    var reassembled: seq<byte>
    /** Frames written, sockets deleted and messages delivered, in order. */
    var log: seq<Effect>

    function State(): WsState
      reads this
    {
      WsState(offset, inPayload, payload, payloadSize, mask, fin, opcode, encLen, reasmOpcode, reassembled)
    }

    predicate Valid()
      reads this
    {
      WsValid(State())
    }

    /** `szalloc` in `websocket_add`: every field zero. */
    constructor ()
      ensures State() == WsState(0, false, [], 0, [0, 0, 0, 0], false, 0, 0, 0, [])
      ensures log == [] && Valid()
    {
      offset, inPayload, payload, payloadSize := 0, false, [], 0;
      mask, fin, opcode, encLen := [0, 0, 0, 0], false, 0, 0;
      reasmOpcode, reassembled := 0, [];
      log := [];
    }

    /** `reset_message`. */
    method ResetMessage()
      modifies this
      ensures State() == ClearMessage(old(State())) && log == old(log)
    {
      payload := [];
      inPayload := false;
      offset := 0;
    }

    /** `reset_reassembly`. */
    method ResetReassembly()
      modifies this
      ensures State() == ClearReassembly(old(State())) && log == old(log)
    {
      reassembled := [];
      reasmOpcode := 0;
    }

    /** `reassembly_message`. */
    method ReassemblyMessage()
      modifies this
      ensures var r := Reassemble(old(State())); State() == r.st && log == old(log) + r.effects
    {
      if reasmOpcode == 0 {
        reasmOpcode := opcode;
        reassembled := payload;
        payload := [];
      } else if |payload| > 0 {
        if reassembled == [] {
          reassembled := payload;
          payload := [];
        } else {
          if |reassembled| + |payload| > MAX_PAYLOAD_SIZE {
            ResetReassembly();
            return;
          }
          reassembled := reassembled + payload;
        }
      }
      if !fin {
        return;
      }
      if |reassembled| > 0 {
        log := log + [Delivered(reassembled)];
      }
      ResetReassembly();
    }

    /** `consume_message`; `accept` is the socket's answer to a pong. */
    method ConsumeMessage(accept: bool) returns (ret: int)
      modifies this
      ensures var r := Consume(old(State()), accept);
        State() == r.st && log == old(log) + r.effects && ret == r.ret
    {
      ret := 0;
      if opcode == OP_CONT {
        if reasmOpcode == 0 {
          ret := -EINVAL;
        } else {
          ReassemblyMessage();
        }
      } else if opcode == OP_TEXT {
        ret := -EOPNOTSUPP;
      } else if opcode == OP_BINARY {
        if reasmOpcode != 0 {
          ResetReassembly();
        }
        ReassemblyMessage();
      } else if opcode == OP_CLOSE {
        ret := -EPIPE;
      } else if opcode == OP_PING {
        var e := WsWrite(OP_PONG, payload, accept);
        log := log + e;
        payload := [];
      }
      ResetMessage();
    }

    /** `offset++` after a header byte, and what happens once the header
        is complete. */
    method AdvanceHeader() returns (ret: int, complete: bool)
      modifies this
      ensures var b := HeaderAdvance(old(State()));
        State() == b.st && ret == b.ret && complete == b.complete && log == old(log)
    {
      ret, complete := 0, false;
      offset := offset + 1;
      if offset == 6 + encLen {
        if payloadSize > MAX_PAYLOAD_SIZE {
          return -ENOSPC, false;
        }
        payload := [];
        if payloadSize == 0 {
          complete := true;
        } else {
          inPayload := true;
        }
      }
    }

    /** The header and payload handling of one byte in the loop of
        `process_chunk`, up to the point where a complete frame is
        consumed. */
    method ScanByte(c: byte) returns (ret: int, complete: bool)
      modifies this
      ensures var b := Scan(old(State()), c);
        State() == b.st && ret == b.ret && complete == b.complete && log == old(log)
    {
      ret, complete := 0, false;
      if !inPayload {
        if offset == 0 {
          fin := c >= 0x80;
          if (c / 16) % 8 != 0 {
            return -EINVAL, false;
          }
          opcode := c % 16;
          if c % 8 > 2 {
            return -EINVAL, false;
          }
        } else if offset == 1 {
          if c < 0x80 {
            return -EINVAL, false;
          }
          var len := c % 128;
          if len <= 125 {
            encLen, payloadSize := 0, len;
          } else if len == 126 {
            encLen, payloadSize := 2, 0;
          } else {
            encLen, payloadSize := 4, 0;
          }
        } else if offset < 2 + encLen {
          payloadSize := LengthByte(payloadSize, c);
        } else if offset < 6 + encLen {
          mask := mask[offset - 2 - encLen := c];
        }
        ret, complete := AdvanceHeader();
      } else {
        payload := payload + [Xor8(c, mask[|payload| % 4])];
        complete := |payload| == payloadSize;
      }
    }

    /** The body of the loop of `process_chunk` for byte `c`: scan it and,
        when it completes a frame, consume the frame. */
    method StepByte(c: byte, accept: bool) returns (ret: int)
      modifies this
      ensures var o := Step(old(State()), c, accept);
        State() == o.st && log == old(log) + o.effects && ret == o.ret
    {
      var complete;
      ret, complete := ScanByte(c);
      if ret >= 0 && complete {
        ret := ConsumeMessage(accept);
      }
    }

    /** `process_chunk(wsd, buf, len)`; `acc[i]` is the socket's answer to a
        frame written while byte `i` is handled. */
    method ProcessChunk(buf: seq<byte>, acc: seq<bool>) returns (ret: int)
      requires |acc| == |buf|
      modifies this
      ensures var o := Run(old(State()), buf, acc, 0, |buf|);
        State() == o.st && log == old(log) + o.effects && ret == o.ret
    {
      ghost var s0 := State();
      ghost var done: seq<Effect> := [];
      var i := 0;
      while i < |buf|
        invariant i <= |buf|
        invariant log == old(log) + done
        invariant Run(s0, buf, acc, 0, |buf|) == Then(done, Run(State(), buf, acc, i, |buf|))
      {
        RunStep(State(), buf, acc, i, |buf|);
        ghost var before := log;
        ret := StepByte(buf[i], acc[i]);
        if ret < 0 {
          return;
        }
        ghost var step := log[|before|..];
        assert log == before + step;
        AppendAssoc(old(log), done, step);
        ThenThen(done, step, Run(State(), buf, acc, i + 1, |buf|));
        done := done + step;
        i := i + 1;
      }
      ret := 0;
    }

    /** `ws_read`: `chunks` are what `socket_read` returns before it
        returns 0, `accs[k]` the socket's answers while chunk `k` is parsed,
        `closeAccept` its answer to the close frame. */
    method Read(chunks: seq<seq<byte>>, accs: seq<seq<bool>>, closeAccept: bool)
      requires |accs| == |chunks| && forall k :: 0 <= k < |chunks| ==> |accs[k]| == |chunks[k]|
      modifies this
      ensures var o := ReadOut(old(State()), chunks, accs, closeAccept);
        State() == o.st && log == old(log) + o.effects
    {
      ghost var s0 := State();
      ghost var done: seq<Effect> := [];
      var k := 0;
      while k < |chunks|
        invariant k <= |chunks|
        invariant log == old(log) + done
        invariant ReadChunks(s0, chunks, accs) == Then(done, ReadChunks(State(), chunks[k..], accs[k..]))
      {
        ReadChunksFront(State(), chunks, accs, k);
        ghost var before := log;
        var ret := ProcessChunk(chunks[k], accs[k]);
        ghost var step := log[|before|..];
        assert log == before + step;
        AppendAssoc(old(log), done, step);
        ThenThen(done, step, ReadChunks(State(), chunks[k + 1..], accs[k + 1..]));
        done := done + step;
        if ret < 0 {
          var e := WsError(CloseCode(ret), closeAccept);
          AppendAssoc(old(log), done, e);
          log := log + e;
          return;
        }
        k := k + 1;
      }
      assert chunks[k..] == [] && accs[k..] == [];
    }
  }

  /** What the registry asks of the sockets and of the application. */
  datatype Event = On(id: nat, effect: Effect) | CloseCallback

  /** The writes of `websocket_broadcast` to the sockets `ids`, in list
      order; `accepts[k]` is the answer of socket `ids[k]`. */
  function BroadcastEvents(ids: seq<nat>, frame: seq<byte>, accepts: seq<bool>): (r: seq<Event>)
    requires |accepts| == |ids|
    ensures |ids| <= |r| <= 2 * |ids|
    decreases |ids|
  {
    if |ids| == 0 then []
    else Tag(ids[0], WriteEffects(frame, accepts[0])) + BroadcastEvents(ids[1..], frame, accepts[1..])
  }

  /** The effects on socket `id`. */
  function Tag(id: nat, es: seq<Effect>): (r: seq<Event>)
    ensures |r| == |es| && forall k :: 0 <= k < |r| ==> r[k] == On(id, es[k])
    decreases |es|
  {
    if |es| == 0 then [] else [On(id, es[0])] + Tag(id, es[1..])
  }

  /** The list `websockets` of open data connections, each named by its
      socket, most recent first, with the counter `ws_count` and whether a
      close callback is installed. */
  class Registry {
    var ids: seq<nat>
    var count: int
    var hasCloseCb: bool
    var events: seq<Event>

    /** The counter counts the list. */
    predicate Valid()
      reads this
    {
      count == |ids|
    }

    /** `websocket_init`. */
    constructor (closeCb: bool)
      ensures ids == [] && count == 0 && hasCloseCb == closeCb && events == [] && Valid()
    {
      ids, count, hasCloseCb, events := [], 0, closeCb, [];
    }

    /** `websocket_add`; `added` is whether `socket_add` took the file
        descriptor. A refused descriptor leaves the list alone. */
    method Add(id: nat, added: bool) returns (ret: int)
      modifies this
      ensures !added ==> ret == -ENOTSOCK && ids == old(ids) && count == old(count)
      ensures added ==> ret == 0 && ids == [id] + old(ids) && count == old(count) + 1
      ensures hasCloseCb == old(hasCloseCb) && events == old(events)
      ensures old(Valid()) ==> Valid()
    {
      if !added {
        return -ENOTSOCK;
      }
      ids := [id] + ids;
      count := count + 1;
      ret := 0;
    }

    /** `ws_free`: unlink the first entry for `id`, count down, and run the
        close callback when the count reaches zero. */
    method Free(id: nat)
      modifies this
      ensures ids == RemoveFirst(old(ids), id) && count == old(count) - 1
      ensures events == old(events) + (if count == 0 && hasCloseCb then [CloseCallback] else [])
      ensures hasCloseCb == old(hasCloseCb)
      ensures old(Valid()) && id in old(ids) ==> Valid()
    {
      var list := ids;
      var k := 0;
      while k < |list| && list[k] != id
        invariant k <= |list| && id !in list[..k]
      {
        assert list[..k + 1] == list[..k] + [list[k]];
        k := k + 1;
      }
      RemoveFirstAt(list, id, k);
      if k < |list| {
        ids := list[..k] + list[k + 1..];
      }
      count := count - 1;
      if count == 0 && hasCloseCb {
        events := events + [CloseCallback];
      }
    }

    /** `websocket_broadcast`: a binary frame to every open connection. */
    method Broadcast(buf: seq<byte>, accepts: seq<bool>)
      requires |accepts| == |ids|
      modifies this
      ensures ids == old(ids) && count == old(count) && hasCloseCb == old(hasCloseCb)
      ensures events == old(events) + BroadcastEvents(ids, Frame(OP_BINARY, buf), accepts)
    {
      var list, frame := ids, Frame(OP_BINARY, buf);
      var k := 0;
      while k < |list|
        invariant k <= |list| && list == ids == old(ids) && count == old(count) && hasCloseCb == old(hasCloseCb)
        invariant events + BroadcastEvents(list[k..], frame, accepts[k..]) == old(events) + BroadcastEvents(list, frame, accepts)
      {
        assert list[k..][1..] == list[k + 1..] && accepts[k..][1..] == accepts[k + 1..];
        var e := WsWrite(OP_BINARY, buf, accepts[k]);
        AppendAssoc(events, Tag(list[k], e), BroadcastEvents(list[k + 1..], frame, accepts[k + 1..]));
        events := events + Tag(list[k], e);
        k := k + 1;
      }
    }

    /** `websocket_connected`. */
    function Connected(): (b: bool)
      reads this
      ensures Valid() ==> (b <==> ids != [])
    {
      count > 0
    }
  }
}
