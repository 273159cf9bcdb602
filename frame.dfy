/** The wire format of src/Sustainable.h. A frame is
      u16 big-endian event-name length, u16 big-endian payload length,
      event-name bytes, payload bytes
    (the event length comes first, as `emitSend` writes it, although the
    block comment at the top of the header lists the content size first).
    `SockData` is the payload type, bounded to 65535 bytes. `recvData` is
    modelled on the bytes queued on the socket: it issues one `recv` per
    field into a zero-filled buffer and never loops to complete a field. */
module Frame {
  import opened Wrappers
  import opened Socket

  newtype uint8 = x: int | 0 <= x < 256

  type Bytes = seq<uint8>

  /** maximum_sock_val: std::numeric_limits<uint16_t>::max(). */
  const MaxSockVal: nat := 65535

  /** A SockData holds at most 65535 bytes; `getRaw()` is the value itself. */
  type SockData = s: Bytes | |s| <= MaxSockVal

  /** `SockData(const std::string&)` via `initializeByString`: a string
      longer than 65535 bytes throws TOO_BIG, any other is kept as is. */
  function NewSockData(s: Bytes): (r: Result<SockData, Error>)
    ensures r.Success? <==> |s| <= MaxSockVal
    ensures r.Success? ==> r.value == s
    ensures r.Failure? ==> r.error == TooBig(|s|)
  {
    if |s| > MaxSockVal then Failure(TooBig(|s|)) else Success(s)
  }

  // ------------------------------------------------------- 16-bit lengths

  /** `castback`: memcpy of two bytes and ntohs, i.e. a big-endian read. */
  function FromU16(b: Bytes): (n: nat)
    requires |b| == 2
    ensures n <= MaxSockVal
  {
    b[0] as nat * 256 + b[1] as nat
  }

  /** htons of a length followed by a reinterpretation as two chars:
      the big-endian bytes of the value. */
  function U16(n: nat): (b: Bytes)
    requires n <= MaxSockVal
    ensures |b| == 2 && FromU16(b) == n
  {
    [(n / 256) as uint8, (n % 256) as uint8]
  }

  /** Passing a size_t to htons keeps its low 16 bits. */
  function Narrow16(n: nat): (m: nat)
    ensures m <= MaxSockVal
    ensures n <= MaxSockVal ==> m == n
  {
    n % 65536
  }

  // ------------------------------------------------------------- encoding

  /** `emitSend` AS WRITTEN: the string handed to `send`. The event-name
      length is not checked, only narrowed to 16 bits. */
  function FrameAsWritten(event: Bytes, data: SockData): (f: Bytes)
    ensures |f| == 4 + |event| + |data|
    ensures FromU16(f[0..2]) == |event| % 65536
    ensures FromU16(f[2..4]) == |data|
    ensures f[4..4 + |event|] == event && f[4 + |event|..] == data
  {
    var f := U16(Narrow16(|event|)) + U16(|data|) + event + data;
    assert f[0..2] == U16(Narrow16(|event|));
    assert f[2..4] == U16(|data|);
    f
  }

  /** `emitSend` with the event name held to the same 65535-byte bound that
      SockData puts on the payload: a longer name throws TOO_BIG before any
      byte is sent, a name within the bound is framed as written. */
  function EncodeFrame(event: Bytes, data: SockData): (r: Result<Bytes, Error>)
    ensures r.Failure? <==> |event| > MaxSockVal
    ensures r.Failure? ==> r.error == TooBig(|event|)
    ensures r.Success? ==> r.value == FrameAsWritten(event, data)
  {
    if |event| > MaxSockVal then Failure(TooBig(|event|))
    else Success(FrameAsWritten(event, data))
  }

  // ------------------------------------------------------------- decoding

  function Zeros(n: nat): (z: Bytes)
    ensures |z| == n
    ensures forall i :: 0 <= i < n ==> z[i] == 0
  {
    seq(n, _ => 0)
  }

  /** What one `recv` leaves in an n-byte field, and what stays queued. */
  datatype Chunk = Chunk(field: Bytes, rest: Bytes)

  /** One non-blocking `recv(sock, buf, n)` into a zero-filled buffer of n
      bytes, on a connected socket whose queued bytes are `pending`: it
      takes what is there, up to n bytes; when nothing is queued it would
      block, `recv` returns 0 and the buffer stays zero. The callers never
      ask for 0 bytes (a 0-byte `recv` reads as a closed socket). */
  function RecvInto(pending: Bytes, n: nat): (c: Chunk)
    requires n > 0
    ensures |c.field| == n
    ensures |pending| >= n ==> c.field == pending[..n] && c.rest == pending[n..]
    ensures |pending| < n ==> c.field == pending + Zeros(n - |pending|) && c.rest == []
  {
    if |pending| >= n then Chunk(pending[..n], pending[n..])
    else Chunk(pending + Zeros(n - |pending|), [])
  }

  /** A decoded frame and the bytes left queued behind it. */
  datatype Received = Received(event: Bytes, data: SockData, rest: Bytes)

  /** `recvData`'s reads, in its order: event length, payload length, then
      the event bytes and the payload bytes, each only when its length is
      positive. None when the first `recv` would block (nothing queued):
      recvData then returns before dispatching anything. */
  function RecvFrame(pending: Bytes): (r: Option<Received>)
    ensures r.None? <==> pending == []
    ensures r.Some? ==> |r.value.event| <= MaxSockVal
    ensures r.Some? ==> |r.value.rest| < |pending|
  {
    if pending == [] then None
    else
      var eventLen := RecvInto(pending, 2);
      var dataLen := RecvInto(eventLen.rest, 2);
      var en := FromU16(eventLen.field);
      var ev := if en > 0 then RecvInto(dataLen.rest, en) else Chunk([], dataLen.rest);
      var dn := FromU16(dataLen.field);
      var d := if dn > 0 then RecvInto(ev.rest, dn) else Chunk([], ev.rest);
      Some(Received(ev.field, d.field, d.rest))
  }

  /** Decoding, in recvData's order, a queue that starts with a frame as
      emitSend writes it yields that frame's event name and payload and
      consumes exactly its 4 + |event| + |data| bytes; empty fields read
      no bytes and come back empty. */
  lemma RecvFrameRoundTrip(event: Bytes, data: SockData, rest: Bytes)
    requires |event| <= MaxSockVal
    ensures RecvFrame(FrameAsWritten(event, data) + rest) == Some(Received(event, data, rest))
  {
    var f := FrameAsWritten(event, data);
    var p := f + rest;
    assert p[..2] == f[0..2];
    var eventLen := RecvInto(p, 2);
    assert eventLen.rest == p[2..];
    var dataLen := RecvInto(eventLen.rest, 2);
    assert dataLen.field == f[2..4];
    assert dataLen.rest == f[4..] + rest;
    var ev := if |event| > 0 then RecvInto(dataLen.rest, |event|) else Chunk([], dataLen.rest);
    assert ev.field == event;
    assert ev.rest == data + rest by {
      assert f[4..] == event + data;
    }
    var d := if |data| > 0 then RecvInto(ev.rest, |data|) else Chunk([], ev.rest);
    assert d.field == data && d.rest == rest;
  }

  /** The round trip of the corrected encoder: it succeeds exactly for event
      names within the bound, and what it succeeds with decodes back. */
  lemma FrameRoundTrip(event: Bytes, data: SockData, rest: Bytes)
    ensures EncodeFrame(event, data).Success? <==> |event| <= MaxSockVal
    ensures EncodeFrame(event, data).Success? ==>
              RecvFrame(EncodeFrame(event, data).value + rest) == Some(Received(event, data, rest))
  {
    if |event| <= MaxSockVal {
      RecvFrameRoundTrip(event, data, rest);
    }
  }

  /** As written, an event name of 65536 bytes or more is framed with its
      length modulo 65536, so the receiver reads a different, shorter name
      (a 65536-byte name is announced as empty). */
  lemma LongEventNameMisframed(event: Bytes, data: SockData, rest: Bytes)
    requires |event| > MaxSockVal
    ensures RecvFrame(FrameAsWritten(event, data) + rest).Some?
    ensures |RecvFrame(FrameAsWritten(event, data) + rest).value.event| == |event| % 65536
    ensures RecvFrame(FrameAsWritten(event, data) + rest).value.event != event
  {
    var f := FrameAsWritten(event, data);
    var p := f + rest;
    assert p[..2] == f[0..2];
    var eventLen := RecvInto(p, 2);
    assert FromU16(eventLen.field) == |event| % 65536;
  }

  /** recvData does not reassemble: if only the 4 header bytes of a frame
      are queued, the event and payload fields are dispatched zero-filled
      and the frame's remaining bytes, once they arrive, are read as the
      start of a new frame. */
  lemma HeaderOnlyReadsZeros(event: Bytes, data: SockData)
    requires 0 < |event| <= MaxSockVal
    ensures RecvFrame(FrameAsWritten(event, data)[..4]) ==
            Some(Received(Zeros(|event|), Zeros(|data|), []))
  {
    var f := FrameAsWritten(event, data);
    var p := f[..4];
    assert p[..2] == f[0..2];
    assert p[2..][..2] == f[2..4];
    var eventLen := RecvInto(p, 2);
    var dataLen := RecvInto(eventLen.rest, 2);
    assert dataLen.rest == [];
    assert RecvInto([], |event|).field == Zeros(|event|);
    if |data| > 0 {
      assert RecvInto([], |data|).field == Zeros(|data|);
    }
  }
}
