/** The managed socket of server/socket.c: a bounded FIFO of outgoing
    messages with a resume cursor for partial writes, ancillary data and a
    descriptor released with the first bytes sent, a one-shot drained
    callback, reference counting and "dead" sockets.

    The system calls (`sendmsg`, `recvmsg`, `close`) and the event layer
    (server/event.c) are outside the model: their results are parameters,
    and what the socket asks of them is recorded, in order, in `log`. */
module Sockets {
  import opened CInt
  import opened Prelude

  const WQUEUE_MAX_LEN: int := 20

  /** A queued message (`struct msg`): `buf[start .. start + size]` is
      still to be sent; `fdToClose == 0` means none. */
  datatype Msg = Msg(buf: seq<byte>, start: nat, size: nat, ancil: Option<seq<byte>>, fdToClose: int)

  predicate MsgValid(m: Msg) {
    m.start + m.size <= |m.buf|
  }

  /** The bytes of a message not yet sent. */
  function Pending(m: Msg): (r: seq<byte>)
    requires MsgValid(m)
    ensures |r| == m.size
  {
    m.buf[m.start..m.start + m.size]
  }

  /** The outcome of one `sendmsg` call: EAGAIN or EINTR, another error, or
      a count of bytes written. The kernel never reports more bytes than
      were offered; the model caps `n` at the message size accordingly. */
  datatype SendResult = Again | Failed | Wrote(n: nat)

  /** The outcome of one `recvmsg` call. */
  datatype RecvResult = RecvFailed | Received(data: seq<byte>, ancil: seq<byte>)

  /** What the socket asks of the world, in order. */
  datatype Effect =
    | Sent(data: seq<byte>, ancil: Option<seq<byte>>)   // a `sendmsg` that wrote `data`
    | FreedAncil(buffer: seq<byte>)                     // `sfree` of an ancillary buffer
    | ClosedFd(fd: int)                                 // `close(fd_to_close)`
    | WriteInterest(on: bool)                           // `event_change_fd_add`/`_remove(EV_WRITE)`
    | ReadInterestOff                                   // `event_change_fd_remove(EV_READ)`
    | PauseRequest(pause: bool)                         // `event_pause_fd`
    | ReadCallback                                      // `cb_read(s, cb_data)`
    | WriteDoneCallback(tag: nat)                       // an application's drained callback
    | DestructorCallback                                // `cb_destructor(cb_data)`
    | ClosedSocket(fd: int)                             // `close(s->fd)`

  /** The one-shot drained callback: none, one the application installed,
      or the `socket_del_cb` that `socket_flush_and_del` installs. */
  datatype WriteDone = NoCallback | AppCallback(tag: nat) | DeleteCallback

  /** Releasing a message's ancillary buffer and descriptor, in that order. */
  function Released(m: Msg): (r: seq<Effect>)
    ensures |r| == Held(m)
  {
    (if m.ancil.Some? then [FreedAncil(m.ancil.value)] else [])
      + (if m.fdToClose != 0 then [ClosedFd(m.fdToClose)] else [])
  }

  /** How many resources (ancillary buffer, descriptor) a message holds. */
  function Held(m: Msg): nat {
    (if m.ancil.Some? then 1 else 0) + (if m.fdToClose != 0 then 1 else 0)
  }

  predicate IsRelease(e: Effect) {
    e.FreedAncil? || e.ClosedFd?
  }

  /** The result of handing the head message to `sendmsg` once. */
  datatype StepOut = StepOut(effects: seq<Effect>, head: Option<Msg>, stop: bool)

  /** One iteration of `socket_process_wqueue`: would-block keeps the
      message and stops; any bytes written (or a hard error) release the
      ancillary data and descriptor; a complete send or a hard error pops
      the message; a partial send advances the cursor and stops. */
  function SendStep(m: Msg, r: SendResult): (o: StepOut)
    requires MsgValid(m)
    ensures o.stop <==> o.head.Some?
    ensures o.head.Some? ==> MsgValid(o.head.value) && o.head.value.buf == m.buf
    ensures r.Again? ==> o == StepOut([], Some(m), true)
    ensures r.Failed? ==> o == StepOut(Released(m), None, false)
    ensures r.Wrote? && 0 < r.n < m.size ==>
      && o.effects == [Sent(Pending(m)[..r.n], m.ancil)] + Released(m)
      && o.head == Some(Msg(m.buf, m.start + r.n, m.size - r.n, None, 0))
    ensures r.Wrote? && r.n >= m.size > 0 ==> o == StepOut([Sent(Pending(m), m.ancil)] + Released(m), None, false)
    ensures r.Wrote? && r.n == 0 ==> o.effects == [] && (o.head.Some? <==> m.size > 0) && (o.head.Some? ==> o.head.value == m)
  {
    match r
    case Again => StepOut([], Some(m), true)
    case Failed => StepOut(Released(m), None, false)
    case Wrote(k) =>
      var n := if k < m.size then k else m.size;
      var effects := if n != 0 then [Sent(Pending(m)[..n], m.ancil)] + Released(m) else [];
      var kept := if n != 0 then m.(ancil := None, fdToClose := 0) else m;
      if n == m.size then
        assert Pending(m)[..n] == Pending(m);
        StepOut(effects, None, false)
      else StepOut(effects, Some(kept.(start := m.start + n, size := m.size - n)), true)
  }

  /** The result `sendmsg` gives on attempt `i`; once the oracle is
      exhausted the socket would block. */
  function ResultAt(rs: seq<SendResult>, i: nat): SendResult {
    if i < |rs| then rs[i] else Again
  }

  predicate AllValid(q: seq<Msg>) {
    forall j :: 0 <= j < |q| ==> MsgValid(q[j])
  }

  /** The effects of draining `q[i..]`, the queue left behind, and whether
      it emptied. Attempt `i` goes to message `i`, because every attempt
      that does not stop the loop pops a message. */
  datatype DrainOut = DrainOut(effects: seq<Effect>, rest: seq<Msg>, drained: bool)

  function DrainFrom(q: seq<Msg>, rs: seq<SendResult>, i: nat): (o: DrainOut)
    requires i <= |q| && AllValid(q)
    ensures o.drained <==> o.rest == []
    ensures AllValid(o.rest) && |o.rest| <= |q| - i
    decreases |q| - i
  {
    if i == |q| then DrainOut([], [], true)
    else
      var st := SendStep(q[i], ResultAt(rs, i));
      if st.stop then DrainOut(st.effects, [st.head.value] + q[i + 1..], false)
      else
        var o := DrainFrom(q, rs, i + 1);
        DrainOut(st.effects + o.effects, o.rest, o.drained)
  }

  /** The bytes still queued in `q[i..]`, in queue order. */
  function QueuedBytes(q: seq<Msg>, i: nat): seq<byte>
    requires i <= |q| && AllValid(q)
    decreases |q| - i
  {
    if i == |q| then [] else Pending(q[i]) + QueuedBytes(q, i + 1)
  }

  /** The bytes that `sendmsg` wrote, in order. */
  function SentBytes(e: seq<Effect>): seq<byte> {
    if |e| == 0 then [] else (if e[0].Sent? then e[0].data else []) + SentBytes(e[1..])
  }

  function ReleaseCount(e: seq<Effect>): nat {
    if |e| == 0 then 0 else (if IsRelease(e[0]) then 1 else 0) + ReleaseCount(e[1..])
  }

  /** The resources held by `q[i..]`. */
  function HeldFrom(q: seq<Msg>, i: nat): nat
    requires i <= |q|
    decreases |q| - i
  {
    if i == |q| then 0 else Held(q[i]) + HeldFrom(q, i + 1)
  }

  predicate NoFailure(rs: seq<SendResult>, i: nat, n: nat) {
    forall j :: i <= j < n ==> !ResultAt(rs, j).Failed?
  }

  lemma {:induction false} SentBytesAppend(a: seq<Effect>, b: seq<Effect>)
    ensures SentBytes(a + b) == SentBytes(a) + SentBytes(b)
    decreases |a|
  {
    if |a| > 0 {
      assert (a + b)[1..] == a[1..] + b;
      SentBytesAppend(a[1..], b);
      AppendAssoc(if a[0].Sent? then a[0].data else [], SentBytes(a[1..]), SentBytes(b));
    } else {
      assert a + b == b;
    }
  }

  lemma {:induction false} ReleaseCountAppend(a: seq<Effect>, b: seq<Effect>)
    ensures ReleaseCount(a + b) == ReleaseCount(a) + ReleaseCount(b)
    decreases |a|
  {
    if |a| > 0 {
      assert (a + b)[1..] == a[1..] + b;
      ReleaseCountAppend(a[1..], b);
    } else {
      assert a + b == b;
    }
  }

  lemma ReleasedCount(m: Msg)
    ensures ReleaseCount(Released(m)) == Held(m)
    ensures SentBytes(Released(m)) == []
  {
    var a := if m.ancil.Some? then [FreedAncil(m.ancil.value)] else [];
    var f := if m.fdToClose != 0 then [ClosedFd(m.fdToClose)] else [];
    ReleaseCountAppend(a, f);
    SentBytesAppend(a, f);
  }

  /** One step keeps every byte: what it sends followed by what the head
      still holds is what the head held, unless the send failed. */
  lemma SendStepBytes(m: Msg, r: SendResult)
    requires MsgValid(m) && !r.Failed?
    ensures var o := SendStep(m, r);
      SentBytes(o.effects) + (if o.head.Some? then Pending(o.head.value) else []) == Pending(m)
  {
    var o := SendStep(m, r);
    ReleasedCount(m);
    if r.Wrote? && r.n > 0 {
      var n := if r.n < m.size then r.n else m.size;
      var sent := [Sent(Pending(m)[..n], m.ancil)];
      SentBytesAppend(sent, Released(m));
      assert SentBytes(sent) == Pending(m)[..n] by {
        assert sent[1..] == [];
      }
      if n < m.size {
        assert Pending(o.head.value) == Pending(m)[n..];
      }
    }
  }

  /** One step never releases more than the head held, and whatever it
      released the kept head no longer holds. */
  lemma SendStepReleases(m: Msg, r: SendResult)
    requires MsgValid(m)
    ensures var o := SendStep(m, r);
      ReleaseCount(o.effects) + (if o.head.Some? then Held(o.head.value) else 0) <= Held(m)
  {
    var o := SendStep(m, r);
    ReleasedCount(m);
    if r.Wrote? && r.n > 0 {
      var n := if r.n < m.size then r.n else m.size;
      var sent := [Sent(Pending(m)[..n], m.ancil)];
      ReleaseCountAppend(sent, Released(m));
      assert ReleaseCount(sent) == 0 by {
        assert sent[1..] == [];
      }
    }
  }

  lemma QueuedBytesCons(h: Msg, q: seq<Msg>, i: nat)
    requires i < |q| && AllValid(q) && MsgValid(h)
    ensures QueuedBytes([h] + q[i + 1..], 0) == Pending(h) + QueuedBytes(q, i + 1)
  {
    QueuedBytesShift([h] + q[i + 1..], q, 1, i + 1);
  }

  lemma {:induction false} QueuedBytesShift(a: seq<Msg>, q: seq<Msg>, j: nat, i: nat)
    requires AllValid(a) && AllValid(q) && j <= |a| && i <= |q|
    requires a[j..] == q[i..]
    ensures QueuedBytes(a, j) == QueuedBytes(q, i)
    decreases |a| - j
  {
    if j < |a| {
      assert a[j] == a[j..][0] == q[i..][0] == q[i];
      assert a[j + 1..] == a[j..][1..] == q[i..][1..] == q[i + 1..];
      QueuedBytesShift(a, q, j + 1, i + 1);
    }
  }

  lemma HeldCons(h: Msg, q: seq<Msg>, i: nat)
    requires i < |q|
    ensures HeldFrom([h] + q[i + 1..], 0) == Held(h) + HeldFrom(q, i + 1)
  {
    HeldShift([h] + q[i + 1..], q, 1, i + 1);
  }

  lemma {:induction false} HeldShift(a: seq<Msg>, q: seq<Msg>, j: nat, i: nat)
    requires j <= |a| && i <= |q|
    requires a[j..] == q[i..]
    ensures HeldFrom(a, j) == HeldFrom(q, i)
    decreases |a| - j
  {
    if j < |a| {
      assert a[j] == a[j..][0] == q[i..][0] == q[i];
      assert a[j + 1..] == a[j..][1..] == q[i..][1..] == q[i + 1..];
      HeldShift(a, q, j + 1, i + 1);
    }
  }

  /** Draining is FIFO and loses nothing when no send fails: the bytes
      written, followed by the bytes still queued, are exactly the bytes
      that were queued. So no byte leaves twice or out of order. */
  lemma {:induction false} DrainKeepsOrder(q: seq<Msg>, rs: seq<SendResult>, i: nat)
    requires i <= |q| && AllValid(q) && NoFailure(rs, i, |q|)
    ensures var o := DrainFrom(q, rs, i);
      SentBytes(o.effects) + QueuedBytes(o.rest, 0) == QueuedBytes(q, i)
    decreases |q| - i
  {
    if i < |q| {
      var st := SendStep(q[i], ResultAt(rs, i));
      SendStepBytes(q[i], ResultAt(rs, i));
      if st.stop {
        QueuedBytesCons(st.head.value, q, i);
        AppendAssoc(SentBytes(st.effects), Pending(st.head.value), QueuedBytes(q, i + 1));
      } else {
        var o := DrainFrom(q, rs, i + 1);
        DrainKeepsOrder(q, rs, i + 1);
        SentBytesAppend(st.effects, o.effects);
        AppendAssoc(SentBytes(st.effects), SentBytes(o.effects), QueuedBytes(o.rest, 0));
      }
    }
  }

  /** Ancillary buffers and descriptors are released at most once:
      what a drain releases plus what the queue still holds never exceeds
      what it held before. */
  lemma {:induction false} DrainReleasesOnce(q: seq<Msg>, rs: seq<SendResult>, i: nat)
    requires i <= |q| && AllValid(q)
    ensures var o := DrainFrom(q, rs, i);
      ReleaseCount(o.effects) + HeldFrom(o.rest, 0) <= HeldFrom(q, i)
    decreases |q| - i
  {
    if i < |q| {
      var st := SendStep(q[i], ResultAt(rs, i));
      SendStepReleases(q[i], ResultAt(rs, i));
      if st.stop {
        HeldCons(st.head.value, q, i);
      } else {
        var o := DrainFrom(q, rs, i + 1);
        DrainReleasesOnce(q, rs, i + 1);
        ReleaseCountAppend(st.effects, o.effects);
      }
    }
  }

  /** The release effects of the first `k` messages of `q`, in order. */
  function ReleaseUpTo(q: seq<Msg>, k: nat): seq<Effect>
    requires k <= |q|
  {
    if k == 0 then [] else ReleaseUpTo(q, k - 1) + Released(q[k - 1])
  }

  /** Tearing the queue down releases every held resource exactly once. */
  lemma {:induction false} ReleaseUpToCount(q: seq<Msg>, k: nat)
    requires k <= |q|
    ensures ReleaseCount(ReleaseUpTo(q, k)) + HeldFrom(q, k) == HeldFrom(q, 0)
    ensures SentBytes(ReleaseUpTo(q, k)) == []
    decreases k
  {
    if k > 0 {
      ReleaseUpToCount(q, k - 1);
      ReleaseCountAppend(ReleaseUpTo(q, k - 1), Released(q[k - 1]));
      SentBytesAppend(ReleaseUpTo(q, k - 1), Released(q[k - 1]));
      ReleasedCount(q[k - 1]);
    }
  }

  class Socket {
    var refs: int
    const fd: int
    var dead: bool
    var shouldClose: bool
    var writeDone: WriteDone
    const hasDestructor: bool
    var queue: seq<Msg>
    var wqueueLen: int
    /** The socket is on the event layer's table (`event_del_fd` not yet called). */
    var registered: bool
    /** `event_del_fd` moved it to the deleted list; the event loop runs
        `socket_kill` on it before the next wait. */
    var pendingKill: bool
    /** `sfree(s)` has run. */
    var freed: bool
    var log: seq<Effect>

    ghost predicate Valid()
      reads this
    {
      && wqueueLen == |queue| <= WQUEUE_MAX_LEN
      && AllValid(queue)
      && (freed <==> refs == 0) && refs >= 0
    }

    /** `socket_add`: the result of `event_add_fd` decides whether a socket
        is made at all. */
    static method Add(fd: int, hasDestructor: bool, addResult: int) returns (s: Socket?)
      ensures addResult < 0 <==> s == null
      ensures s != null ==> fresh(s) && s.Valid() && s.fd == fd && s.hasDestructor == hasDestructor
      ensures s != null ==>
        && s.refs == 1 && !s.dead && s.shouldClose && s.writeDone == NoCallback
        && s.queue == [] && s.wqueueLen == 0
        && s.registered && !s.pendingKill && !s.freed && s.log == []
    {
      if addResult < 0 {
        return null;
      }
      s := new Socket(fd, hasDestructor);
    }

    constructor (fd: int, hasDestructor: bool)
      ensures Valid() && this.fd == fd && this.hasDestructor == hasDestructor
      ensures refs == 1 && !dead && shouldClose && writeDone == NoCallback
      ensures queue == [] && wqueueLen == 0
      ensures registered && !pendingKill && !freed && log == []
    {
      this.fd := fd;
      this.hasDestructor := hasDestructor;
      refs := 1;
      dead := false;
      shouldClose := true;
      writeDone := NoCallback;
      queue := [];
      wqueueLen := 0;
      registered := true;
      pendingKill := false;
      freed := false;
      log := [];
    }

    /** `socket_set_write_done_cb`. */
    method SetWriteDone(cb: WriteDone)
      modifies this`writeDone
      ensures writeDone == cb
    {
      writeDone := cb;
    }

    /** `socket_set_unmanaged`: the descriptor is no longer closed at free time. */
    method SetUnmanaged() returns (r: int)
      modifies this`shouldClose
      ensures !shouldClose && r == fd
    {
      shouldClose := false;
      r := fd;
    }

    /** `socket_stop_reading`: a dead socket does nothing and reports success. */
    method StopReading(removeResult: int) returns (r: int)
      modifies this`log
      ensures dead ==> r == 0 && log == old(log)
      ensures !dead ==> r == removeResult && log == old(log) + [ReadInterestOff]
    {
      if dead {
        return 0;
      }
      log := log + [ReadInterestOff];
      r := removeResult;
    }

    /** `socket_pause`. */
    method Pause(pause: bool, pauseResult: int) returns (r: int)
      modifies this`log
      ensures dead ==> r == 0 && log == old(log)
      ensures !dead ==> r == pauseResult && log == old(log) + [PauseRequest(pause)]
    {
      if dead {
        return 0;
      }
      log := log + [PauseRequest(pause)];
      r := pauseResult;
    }

    /** `socket_del` (through `event_del_fd`): the first call moves the
        socket to the deleted list; later calls find nothing to move. */
    method Del()
      modifies this`registered, this`pendingKill
      ensures !registered
      ensures pendingKill == (old(pendingKill) || old(registered))
    {
      if registered {
        registered := false;
        pendingKill := true;
      }
    }

    /** `socket_flush_and_del`: deletes at once when nothing is queued,
        otherwise once the queue drains. */
    method FlushAndDel()
      modifies this`registered, this`pendingKill, this`writeDone
      ensures old(queue) == [] ==> !registered && pendingKill == (old(pendingKill) || old(registered)) && writeDone == old(writeDone)
      ensures old(queue) != [] ==> writeDone == DeleteCallback && registered == old(registered) && pendingKill == old(pendingKill)
    {
      if queue == [] {
        Del();
      } else {
        SetWriteDone(DeleteCallback);
      }
    }

    /** `socket_ref`. */
    method Ref()
      requires Valid() && !freed
      modifies this`refs
      ensures Valid() && refs == old(refs) + 1
    {
      refs := refs + 1;
    }

    /** `socket_del_wqueue`: every queued message releases its ancillary
        buffer and descriptor, in queue order; the length is reset. */
    method DelWqueue()
      modifies this`queue, this`wqueueLen, this`log
      ensures queue == [] && wqueueLen == 0
      ensures log == old(log) + ReleaseUpTo(old(queue), |old(queue)|)
    {
      ghost var q0 := queue;
      var k := 0;
      while queue != []
        invariant 0 <= k <= |q0| && queue == q0[k..]
        invariant log == old(log) + ReleaseUpTo(q0, k)
        decreases |queue|
      {
        var m := queue[0];
        queue := queue[1..];
        AppendAssoc(old(log), ReleaseUpTo(q0, k), Released(m));
        log := log + Released(m);
        k := k + 1;
      }
      wqueueLen := 0;
    }

    /** `socket_unref`: the last reference tears the socket down: the queue
        is released, the destructor runs, and the descriptor is closed
        unless the socket was made unmanaged. */
    method Unref()
      requires Valid() && !freed
      modifies this`refs, this`queue, this`wqueueLen, this`log, this`freed
      ensures Valid() && refs == old(refs) - 1
      ensures refs > 0 ==> queue == old(queue) && log == old(log)
      ensures refs == 0 ==>
        && queue == []
        && log == old(log) + ReleaseUpTo(old(queue), |old(queue)|)
                  + (if hasDestructor then [DestructorCallback] else [])
                  + (if shouldClose then [ClosedSocket(fd)] else [])
    {
      refs := refs - 1;
      if refs == 0 {
        DelWqueue();
        ghost var l1 := log;
        if hasDestructor {
          log := log + [DestructorCallback];
        }
        ghost var l2 := log;
        if shouldClose {
          log := log + [ClosedSocket(fd)];
        }
        freed := true;
      }
    }

    /** `socket_kill`, the destructor the event layer runs after deletion. */
    method Kill()
      requires Valid() && !freed
      modifies this`dead, this`refs, this`queue, this`wqueueLen, this`log, this`freed
      ensures Valid() && dead && refs == old(refs) - 1
      ensures refs > 0 ==> queue == old(queue) && log == old(log)
      ensures refs == 0 ==>
        && queue == []
        && log == old(log) + ReleaseUpTo(old(queue), |old(queue)|)
                  + (if hasDestructor then [DestructorCallback] else [])
                  + (if shouldClose then [ClosedSocket(fd)] else [])
    {
      dead := true;
      Unref();
    }

    /** The event loop's `release_deleted` for this socket. */
    method ReleaseDeleted()
      requires Valid() && !freed
      modifies this`pendingKill, this`dead, this`refs, this`queue, this`wqueueLen, this`log, this`freed
      ensures Valid() && !pendingKill
      ensures !old(pendingKill) ==> refs == old(refs) && dead == old(dead) && log == old(log)
      ensures old(pendingKill) ==> dead && refs == old(refs) - 1
    {
      if pendingKill {
        pendingKill := false;
        Kill();
      }
    }

    /** `socket_read_ancil`: a dead socket reads nothing; a failed read
        counts as zero bytes and no ancillary data. */
    method ReadAncil(recv: RecvResult) returns (data: seq<byte>, ancilSize: nat)
      ensures dead || recv.RecvFailed? ==> data == [] && ancilSize == 0
      ensures !dead && recv.Received? ==> data == recv.data && ancilSize == |recv.ancil|
    {
      if dead {
        return [], 0;
      }
      match recv
      case RecvFailed =>
        data, ancilSize := [], 0;
      case Received(d, a) =>
        data, ancilSize := d, |a|;
    }

    /** `socket_queue_data`: appends at the tail of the list. */
    method QueueData(m: Msg)
      requires Valid() && MsgValid(m) && wqueueLen < WQUEUE_MAX_LEN
      modifies this`queue, this`wqueueLen
      ensures Valid() && queue == old(queue) + [m] && wqueueLen == old(wqueueLen) + 1
    {
      queue := queue + [m];
      wqueueLen := wqueueLen + 1;
    }

    /** `socket_write_ancil`. A dead socket queues nothing, frees a stolen
        ancillary buffer and reports success; a full queue gives -ENOBUFS;
        a failure to ask for write readiness is passed on. Otherwise the
        whole buffer is queued at the tail. Copying and stealing give the
        same bytes, so `steal` only matters for memory, which the model does not track. */
    method WriteAncil(buf: seq<byte>, ancil: Option<seq<byte>>, ancilSteal: bool, fdToClose: int, addResult: int)
      returns (r: int)
      requires Valid()
      modifies this`queue, this`wqueueLen, this`log
      ensures Valid()
      ensures dead ==>
        && r == 0 && queue == old(queue)
        && log == old(log) + (if ancilSteal && ancil.Some? then [FreedAncil(ancil.value)] else [])
      ensures !dead && old(wqueueLen) >= WQUEUE_MAX_LEN ==> r == -ENOBUFS && queue == old(queue) && log == old(log)
      ensures !dead && old(wqueueLen) < WQUEUE_MAX_LEN && addResult < 0 ==>
        r == addResult && queue == old(queue) && log == old(log)
      ensures !dead && old(wqueueLen) < WQUEUE_MAX_LEN && addResult >= 0 ==>
        && r == 0 && log == old(log) + [WriteInterest(true)]
        && queue == old(queue) + [Msg(buf, 0, |buf|, ancil, fdToClose)]
        && wqueueLen == old(wqueueLen) + 1
    {
      if dead {
        if ancilSteal && ancil.Some? {
          log := log + [FreedAncil(ancil.value)];
        }
        return 0;
      }
      if wqueueLen >= WQUEUE_MAX_LEN {
        return -ENOBUFS;
      }
      if addResult < 0 {
        return addResult;
      }
      log := log + [WriteInterest(true)];
      QueueData(Msg(buf, 0, |buf|, ancil, fdToClose));
      r := 0;
    }

    /** `socket_write`. */
    method Write(buf: seq<byte>, addResult: int) returns (r: int)
      requires Valid()
      modifies this`queue, this`wqueueLen, this`log
      ensures Valid()
      ensures dead ==> r == 0 && queue == old(queue) && log == old(log)
      ensures !dead && old(wqueueLen) >= WQUEUE_MAX_LEN ==> r == -ENOBUFS && queue == old(queue) && log == old(log)
      ensures !dead && old(wqueueLen) < WQUEUE_MAX_LEN ==>
        if addResult < 0 then r == addResult && queue == old(queue) && log == old(log)
        else
          && r == 0 && log == old(log) + [WriteInterest(true)]
          && queue == old(queue) + [Msg(buf, 0, |buf|, None, 0)]
          && wqueueLen == old(wqueueLen) + 1
    {
      r := WriteAncil(buf, None, false, 0, addResult);
    }

    /** What running the drained callback does. */
    method RunWriteDone()
      modifies this`writeDone, this`log, this`registered, this`pendingKill
      ensures writeDone == NoCallback
      ensures old(writeDone).AppCallback? ==> log == old(log) + [WriteDoneCallback(old(writeDone).tag)]
      ensures !old(writeDone).AppCallback? ==> log == old(log)
      ensures old(writeDone).DeleteCallback? ==>
        !registered && pendingKill == (old(pendingKill) || old(registered))
      ensures !old(writeDone).DeleteCallback? ==>
        registered == old(registered) && pendingKill == old(pendingKill)
    {
      match writeDone {
        case NoCallback =>
        case AppCallback(tag) =>
          log := log + [WriteDoneCallback(tag)];
        case DeleteCallback =>
          Del();
      }
      writeDone := NoCallback;
    }

    /** The `while (s->wqueue)` loop of `socket_process_wqueue`. */
    method SendLoop(rs: seq<SendResult>) returns (drained: bool)
      requires Valid()
      modifies this`queue, this`wqueueLen, this`log
      ensures Valid()
      ensures var o := DrainFrom(old(queue), rs, 0);
        queue == o.rest && log == old(log) + o.effects && drained == o.drained
    {
      ghost var q0 := queue;
      ghost var done: seq<Effect> := [];
      var i := 0;
      while queue != []
        invariant 0 <= i <= |q0| && queue == q0[i..] && wqueueLen == |queue|
        invariant AllValid(q0) && AllValid(queue)
        invariant log == old(log) + done
        invariant DrainFrom(q0, rs, 0) == Prepend(done, DrainFrom(q0, rs, i))
        decreases |queue|
      {
        var m := queue[0];
        assert m == q0[i];
        var st := SendStep(m, ResultAt(rs, i));
        DrainUnfold(q0, rs, i);
        AppendAssoc(old(log), done, st.effects);
        log := log + st.effects;
        if st.stop {
          queue := [st.head.value] + queue[1..];
          PrependAssoc(done, st.effects, DrainOut([], queue, false));
          return false;
        }
        PrependAssoc(done, st.effects, DrainFrom(q0, rs, i + 1));
        done := done + st.effects;
        queue := queue[1..];
        wqueueLen := wqueueLen - 1;
        i := i + 1;
      }
      drained := true;
    }

    /** `socket_process_wqueue`: sends from the head of the queue until it
        would block, a write is partial, or the queue is empty; on empty it
        drops write interest and runs the drained callback once. */
    method ProcessWqueue(rs: seq<SendResult>)
      requires Valid()
      modifies this`queue, this`wqueueLen, this`log, this`writeDone, this`registered, this`pendingKill
      ensures Valid()
      ensures var o := DrainFrom(old(queue), rs, 0);
        && queue == o.rest
        && (!o.drained ==>
              && log == old(log) + o.effects && writeDone == old(writeDone)
              && registered == old(registered) && pendingKill == old(pendingKill))
        && (o.drained ==>
              && writeDone == NoCallback
              && log == old(log) + o.effects + [WriteInterest(false)]
                 + (if old(writeDone).AppCallback? then [WriteDoneCallback(old(writeDone).tag)] else [])
              && (old(writeDone).DeleteCallback? ==> !registered && pendingKill == (old(pendingKill) || old(registered))))
    {
      var drained := SendLoop(rs);
      if !drained {
        return;
      }
      log := log + [WriteInterest(false)];
      RunWriteDone();
    }

    /** `socket_cb`: the read callback runs first; an error deletes the
        socket and skips the write side; write readiness drains the queue. */
    method Dispatch(readable: bool, error: bool, writable: bool, rs: seq<SendResult>)
      requires Valid()
      modifies this`queue, this`wqueueLen, this`log, this`writeDone, this`registered, this`pendingKill
      ensures Valid()
      ensures var pre := old(log) + (if readable then [ReadCallback] else []);
        |log| >= |pre| && log[..|pre|] == pre
      ensures error ==>
        && !registered && queue == old(queue)
        && log == old(log) + (if readable then [ReadCallback] else [])
      ensures !error && !writable ==>
        && queue == old(queue)
        && log == old(log) + (if readable then [ReadCallback] else [])
      ensures !error && writable ==> queue == DrainFrom(old(queue), rs, 0).rest
    {
      if readable {
        log := log + [ReadCallback];
      }
      if error {
        Del();
        return;
      }
      if writable {
        ghost var l := log;
        ProcessWqueue(rs);
        assert log[..|l|] == l;
      }
    }
  }

  function Prepend(e: seq<Effect>, o: DrainOut): DrainOut {
    DrainOut(e + o.effects, o.rest, o.drained)
  }

  /** One step of `DrainFrom`, spelled out. */
  lemma DrainUnfold(q: seq<Msg>, rs: seq<SendResult>, i: nat)
    requires i < |q| && AllValid(q)
    ensures var st := SendStep(q[i], ResultAt(rs, i));
      DrainFrom(q, rs, i) ==
        if st.stop then DrainOut(st.effects, [st.head.value] + q[i + 1..], false)
        else Prepend(st.effects, DrainFrom(q, rs, i + 1))
  {
  }

  lemma PrependAssoc(a: seq<Effect>, b: seq<Effect>, o: DrainOut)
    ensures Prepend(a, Prepend(b, o)) == Prepend(a + b, o)
  {
    AppendAssoc(a, b, o.effects);
  }
}
