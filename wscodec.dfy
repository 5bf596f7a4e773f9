/** The frame layer of the WebSocket data connection
    (server/websocket_data.c): the frame encoder `ws_write`, the
    big-endian length field, the server-sent close frames and their codes. */
module WsCodec {
  import opened CInt
  import opened Prelude

  /** The largest frame payload and the largest reassembled message. */
  const MAX_PAYLOAD_SIZE: nat := 4096

  const OP_CONT: nat := 0x00
  const OP_TEXT: nat := 0x01
  const OP_BINARY: nat := 0x02
  const OP_CLOSE: nat := 0x08
  const OP_PING: nat := 0x09
  const OP_PONG: nat := 0x0a

  /** What the frame layer asks of the socket layer and of the application. */
  datatype Effect =
    | Wrote(frame: seq<byte>)       // `socket_write` of a complete frame
    | Deleted                       // `socket_del`
    | FlushedAndDeleted             // `socket_flush_and_del`
    | Delivered(message: seq<byte>) // `ws_cb` with a complete message

  function Pow256(k: nat): (p: nat)
    ensures p >= 1
  {
    if k == 0 then 1 else 256 * Pow256(k - 1)
  }

  /** The `k` low-order bytes of `v`, most significant first. */
  function BigEndian(v: nat, k: nat): (r: seq<byte>)
    ensures |r| == k
  {
    if k == 0 then [] else BigEndian(v / 256, k - 1) + [v % 256]
  }

  /** The number a big-endian byte string denotes. */
  function BEValue(s: seq<byte>): nat
  {
    if |s| == 0 then 0 else BEValue(s[..|s| - 1]) * 256 + s[|s| - 1]
  }

  lemma DivDiv(v: nat, a: nat, b: nat)
    requires a > 0 && b > 0
    ensures v / a / b == v / (a * b)
  {
    var q, r := v / a, v % a;
    var q2, r2 := q / b, q % b;
    assert a * q == a * (b * q2) + a * r2;
    assert a * r2 <= a * (b - 1);
    assert v == (a * b) * q2 + (a * r2 + r);
    DivModOfDecomposition(v, a * b, q2, a * r2 + r);
  }

  lemma ModSplit(v: nat, p: nat)
    requires p >= 1
    ensures (v / 256) % p * 256 + v % 256 == v % (256 * p)
  {
    var q, r := v / 256, v % 256;
    var a, b := q / p, q % p;
    assert 256 * q == 256 * (p * a) + 256 * b;
    assert 256 * b <= 256 * (p - 1);
    assert v == (256 * p) * a + (256 * b + r);
    DivModOfDecomposition(v, 256 * p, a, 256 * b + r);
  }

  /** Reading back `k` big-endian bytes gives the value modulo 256^k. */
  lemma {:induction false} BEValueOfBigEndian(v: nat, k: nat)
    ensures BEValue(BigEndian(v, k)) == v % Pow256(k)
  {
    if k > 0 {
      var r := BigEndian(v, k);
      assert r[..k - 1] == BigEndian(v / 256, k - 1);
      BEValueOfBigEndian(v / 256, k - 1);
      ModSplit(v, Pow256(k - 1));
    }
  }

  /** The most significant of `m + 1` bytes comes first. */
  lemma {:induction false} BigEndianFront(v: nat, m: nat)
    ensures BigEndian(v, m + 1) == [(v / Pow256(m)) % 256] + BigEndian(v, m)
  {
    if m > 0 {
      BigEndianFront(v / 256, m - 1);
      DivDiv(v, 256, Pow256(m - 1));
    }
  }

  /** One step of filling the extended length from its last byte: the
      byte in front of the `m` low-order bytes, and what is left to write. */
  lemma NextByte(v: nat, m: nat, tmp: nat)
    requires tmp == v / Pow256(m)
    ensures BigEndian(v, m + 1) == [tmp % 256] + BigEndian(v, m)
    ensures tmp / 256 == v / Pow256(m + 1)
  {
    BigEndianFront(v, m);
    DivDiv(v, Pow256(m), 256);
  }

  /** The 7-bit length code of the second header byte. */
  function LenCode(n: nat): (c: byte)
    ensures c <= 127
    ensures c <= 125 <==> n <= 125
    ensures n <= 125 ==> c == n
  {
    if n <= 125 then n else if n <= 0xffff then 126 else 127
  }

  /** How many extended length bytes follow the second header byte. */
  function ExtLen(n: nat): (e: nat)
    ensures e in {0, 2, 4}
  {
    if n <= 125 then 0 else if n <= 0xffff then 2 else 4
  }

  /** The frame `ws_write(s, opcode, buf, size)` builds: FIN and the opcode,
      the unmasked length in 7 bits, 7+16 bits or 7+32 bits, then the
      payload. Lengths above 0xffff take 4 extended bytes, not the 8 of
      section 5.2 of RFC 6455 (`FrameRfc`). */
  function Frame(opcode: nat, data: seq<byte>): (f: seq<byte>)
    ensures |f| == 2 + ExtLen(|data|) + |data|
    ensures f[2 + ExtLen(|data|)..] == data
  {
    [opcode % 128 + 0x80, LenCode(|data|)] + BigEndian(|data|, ExtLen(|data|)) + data
  }

  /** How many extended length bytes section 5.2 of RFC 6455 prescribes:
      none, 2 for a 16-bit length, 8 for a 64-bit length. */
  function ExtLenRfc(n: nat): (e: nat)
    ensures e in {0, 2, 8}
    ensures n <= 0xffff ==> e == ExtLen(n)
  {
    if n <= 125 then 0 else if n <= 0xffff then 2 else 8
  }

  /** The frame with the extended length RFC 6455 prescribes. */
  function FrameRfc(opcode: nat, data: seq<byte>): (f: seq<byte>)
    ensures |f| == 2 + ExtLenRfc(|data|) + |data|
    ensures f[2 + ExtLenRfc(|data|)..] == data
  {
    [opcode % 128 + 0x80, LenCode(|data|)] + BigEndian(|data|, ExtLenRfc(|data|)) + data
  }

  /** A decoded server frame. */
  datatype Decoded = Decoded(opcode: nat, fin: bool, data: seq<byte>)

  /** Reference reader for unmasked frames, following section 5.2 of
      RFC 6455: a length code of 126 is followed by a 16-bit length, 127
      by a 64-bit length, both in network byte order. */
  function DecodeServerFrame(f: seq<byte>): (r: Option<Decoded>)
    ensures r.Some? ==> |r.value.data| < |f| && r.value.opcode < 128
  {
    if |f| < 2 || f[1] >= 0x80 then None
    else
      var e := if f[1] <= 125 then 0 else if f[1] == 126 then 2 else 8;
      if |f| < 2 + e then None
      else
        var n := if e == 0 then f[1] else BEValue(f[2..2 + e]);
        if |f| != 2 + e + n then None
        else Some(Decoded(f[0] % 128, f[0] >= 0x80, f[2 + e..]))
  }

  /** Up to 0xffff bytes, the frame `ws_write` builds is the frame of
      RFC 6455. */
  lemma FramesAgree(opcode: nat, data: seq<byte>)
    requires |data| <= 0xffff
    ensures Frame(opcode, data) == FrameRfc(opcode, data)
  {
  }

  /** Every frame the server writes with a payload of at most 0xffff
      bytes, which is every frame it writes, is a final frame that a
      client reads back as the opcode and payload it was built from. */
  lemma FrameRoundTrip(opcode: nat, data: seq<byte>)
    requires opcode < 128 && |data| <= 0xffff
    ensures DecodeServerFrame(Frame(opcode, data)) == Some(Decoded(opcode, true, data))
  {
    FramesAgree(opcode, data);
    FrameRfcRoundTrip(opcode, data);
  }

  /** A frame with the RFC's extended length reads back, for every
      payload length the 64-bit field (whose top bit must be 0) holds. */
  lemma FrameRfcRoundTrip(opcode: nat, data: seq<byte>)
    requires opcode < 128 && |data| < 0x8000_0000_0000_0000
    ensures DecodeServerFrame(FrameRfc(opcode, data)) == Some(Decoded(opcode, true, data))
  {
    var f := FrameRfc(opcode, data);
    var n, e := |data|, ExtLenRfc(|data|);
    assert f[0] == opcode + 0x80 && f[1] == LenCode(n);
    assert (if f[1] <= 125 then 0 else if f[1] == 126 then 2 else 8) == e;
    assert f[2..2 + e] == BigEndian(n, e);
    if e > 0 {
      ExtendedLength(n);
    }
    assert (if e == 0 then f[1] as nat else BEValue(f[2..2 + e])) == n;
  }

  /** The extended length field reads back as the length. */
  lemma ExtendedLength(n: nat)
    requires 125 < n < 0x8000_0000_0000_0000
    ensures BEValue(BigEndian(n, ExtLenRfc(n))) == n
  {
    BEValueOfBigEndian(n, ExtLenRfc(n));
    assert Pow256(1) == 0x100;
    assert Pow256(2) == 0x1_0000;
    assert Pow256(4) == 0x1_0000_0000 by {
      assert Pow256(3) == 0x100_0000;
    }
    assert Pow256(8) == 0x1_0000_0000_0000_0000 by {
      assert Pow256(6) == 0x1_0000_0000_0000 by {
        assert Pow256(5) == 0x100_0000_0000;
      }
      assert Pow256(7) == 0x100_0000_0000_0000;
    }
  }

  /** As written, a payload of 0x10000 bytes gets the length code 127 and
      a 4-byte length; a reader following RFC 6455 takes 8 bytes, four of
      them payload, and refuses the frame. The RFC frame reads back. */
  lemma LongFrameMisread()
    ensures var data := seq(0x1_0000, _ => 0);
      && Frame(OP_BINARY, data)[1] == 127
      && DecodeServerFrame(Frame(OP_BINARY, data)) == None
      && DecodeServerFrame(FrameRfc(OP_BINARY, data)) == Some(Decoded(OP_BINARY, true, data))
  {
    var data: seq<byte> := seq(0x1_0000, _ => 0);
    var f := Frame(OP_BINARY, data);
    assert f[2..6] == BigEndian(0x1_0000, 4) == [0, 1, 0, 0];
    assert f[6..10] == [0, 0, 0, 0];
    var ext := f[2..10];
    assert ext == [0, 1, 0, 0, 0, 0, 0, 0];
    assert BEValue(ext) == 0x1_0000_0000_0000 by {
      assert BEValue(ext[..1]) == 0 by { assert ext[..1][..0] == []; }
      assert BEValue(ext[..2]) == 1 by { assert ext[..2][..1] == ext[..1]; }
      assert BEValue(ext[..3]) == 0x100 by { assert ext[..3][..2] == ext[..2]; }
      assert BEValue(ext[..4]) == 0x1_0000 by { assert ext[..4][..3] == ext[..3]; }
      assert BEValue(ext[..5]) == 0x100_0000 by { assert ext[..5][..4] == ext[..4]; }
      assert BEValue(ext[..6]) == 0x1_0000_0000 by { assert ext[..6][..5] == ext[..5]; }
      assert BEValue(ext[..7]) == 0x100_0000_0000 by { assert ext[..7][..6] == ext[..6]; }
      assert ext[..8] == ext;
      assert ext[..8][..7] == ext[..7];
    }
    FrameRfcRoundTrip(OP_BINARY, data);
  }

  /** What one `ws_write` does: hand the frame to the socket and, when the
      socket refuses it, delete the socket. */
  function WriteEffects(frame: seq<byte>, accept: bool): (r: seq<Effect>)
    ensures 1 <= |r| <= 2 && r[0] == Wrote(frame)
    ensures |r| == 1 <==> accept
    ensures !accept ==> r[1] == Deleted
  {
    if accept then [Wrote(frame)] else [Wrote(frame), Deleted]
  }

  /** `ws_write`. The header is filled into a 6-byte array, the extended
      length from its last byte backwards; `accept` is whether
      `socket_write` queues the frame. */
  method WsWrite(opcode: nat, buf: seq<byte>, accept: bool) returns (effects: seq<Effect>)
    ensures effects == WriteEffects(Frame(opcode, buf), accept)
  {
    var hdr := new byte[6];
    hdr[0] := opcode % 128 + 0x80;
    var size := |buf|;
    var encLen: nat;
    if size <= 125 {
      hdr[1] := size;
      encLen := 0;
    } else if size <= 0xffff {
      hdr[1] := 126;
      encLen := 2;
    } else {
      hdr[1] := 127;
      encLen := 4;
    }
    assert encLen == ExtLen(size);
    FillLength(hdr, size, encLen);
    var msg := hdr[..2 + encLen] + buf;
    HeaderThenPayload(hdr[..2 + encLen], opcode, buf);
    effects := [Wrote(msg)];
    if !accept {
      effects := effects + [Deleted];
    }
  }

  /** The loop of `ws_write` that stores the extended length: `encLen`
      bytes after the second, filled from the last byte backwards. */
  method FillLength(hdr: array<byte>, size: nat, encLen: nat)
    requires hdr.Length == 6 && encLen <= 4
    modifies hdr
    ensures hdr[2..2 + encLen] == BigEndian(size, encLen)
    ensures hdr[0] == old(hdr[0]) && hdr[1] == old(hdr[1])
  {
    var tmp: nat := size;
    var i: int := encLen - 1;
    while i >= 0
      invariant -1 <= i < encLen
      invariant hdr[0] == old(hdr[0]) && hdr[1] == old(hdr[1])
      invariant hdr[3 + i..2 + encLen] == BigEndian(size, encLen - 1 - i)
      invariant tmp == size / Pow256(encLen - 1 - i)
    {
      NextByte(size, encLen - 1 - i, tmp);
      ghost var tail := hdr[3 + i..2 + encLen];
      hdr[2 + i] := tmp % 256;
      assert hdr[2 + i..2 + encLen] == [tmp % 256] + tail;
      tmp := tmp / 256;
      i := i - 1;
    }
  }

  /** A header with the first byte, the length code and the extended
      length, followed by the payload, is the frame. */
  lemma HeaderThenPayload(h: seq<byte>, opcode: nat, buf: seq<byte>)
    requires |h| == 2 + ExtLen(|buf|) && h[0] == opcode % 128 + 0x80 && h[1] == LenCode(|buf|)
    requires h[2..] == BigEndian(|buf|, ExtLen(|buf|))
    ensures h + buf == Frame(opcode, buf)
  {
    assert h == [h[0], h[1]] + h[2..];
  }

  /** The close codes of section 7.4.1 of RFC 6455 the server sends. */
  predicate IsCloseCode(code: nat) {
    code in {1000, 1002, 1003, 1008, 1009}
  }

  /** The close code `ws_read` means to send for an error of
      `process_chunk`: protocol error, unsupported data, normal closure,
      message too big, and policy violation for anything else. */
  function CloseCode(ret: int): (code: nat)
    ensures IsCloseCode(code)
    ensures ret == -EINVAL <==> code == 1002
    ensures ret == -EOPNOTSUPP <==> code == 1003
    ensures ret == -EPIPE <==> code == 1000
    ensures ret == -ENOSPC <==> code == 1009
  {
    if ret == -EINVAL then 1002
    else if ret == -EOPNOTSUPP then 1003
    else if ret == -EPIPE then 1000
    else if ret == -ENOSPC then 1009
    else 1008
  }

  /** The `switch` in `ws_read` as written: its cases are the positive errno
      values but `ret` is negative there. */
  function CloseCodeAsWritten(ret: int): (code: nat)
    ensures code in {1000, 1002, 1003, 1008, 1009}
    ensures ret <= 0 ==> code == 1008
  {
    if ret == EINVAL then 1002
    else if ret == EOPNOTSUPP then 1003
    else if ret == EPIPE then 1000
    else if ret == ENOSPC then 1009
    else 1008
  }

  /** As written, every error closes with 1008, so a protocol error is not
      reported as 1002 nor a too-big message as 1009. */
  lemma CloseCodeAsWrittenIsConstant(ret: int)
    requires ret < 0
    ensures CloseCodeAsWritten(ret) == 1008
  {
  }

  lemma CloseCodeAsWrittenDiffers()
    ensures CloseCodeAsWritten(-EINVAL) == 1008 && CloseCode(-EINVAL) == 1002
    ensures CloseCodeAsWritten(-ENOSPC) == 1008 && CloseCode(-ENOSPC) == 1009
  {
  }

  /** The payload of a close frame: the code in network byte order. */
  function ClosePayload(code: nat): (p: seq<byte>)
    requires code < 0x1_0000
    ensures |p| == 2 && BEValue(p) == code
  {
    assert BEValue([code / 256, code % 256][..1]) == code / 256;
    [code / 256, code % 256]
  }

  /** What `ws_error(s, code)` does: a close frame carrying the code, then
      flush-and-delete. */
  function ErrorEffects(code: nat, accept: bool): (r: seq<Effect>)
    requires code < 0x1_0000
    ensures 2 <= |r| <= 3 && r[0] == Wrote(Frame(OP_CLOSE, ClosePayload(code)))
    ensures r[|r| - 1] == FlushedAndDeleted
  {
    WriteEffects(Frame(OP_CLOSE, ClosePayload(code)), accept) + [FlushedAndDeleted]
  }

  /** `ws_error(s, code)`. */
  method WsError(code: nat, accept: bool) returns (effects: seq<Effect>)
    requires code < 0x1_0000
    ensures effects == ErrorEffects(code, accept)
  {
    var payload := [code / 256, code % 256];
    effects := WsWrite(OP_CLOSE, payload, accept);
    effects := effects + [FlushedAndDeleted];
  }
}
