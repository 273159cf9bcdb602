/** One connection: ClientSocket<T> of src/Sustainable.h. It owns the
    transport, a table of payload handlers (`_functions`), a table of signal
    handlers (`_nofunctions`) and the one-way `_destroy_flag`.

    Handlers are application code: the model names each registered handler
    by a HandlerId and records every invocation, in order, in `fired`.
    The bytes handed to `send` are recorded in `sent`. The poll and the
    socket are an abstract input to `update` (PollResult). */
module Connection {
  import opened Wrappers
  import opened Socket
  import opened Frame

  /** A registered std::function, known by an identifier. */
  type HandlerId = nat

  /** One call of a registered handler. */
  datatype Invocation =
    | PayloadCall(handler: HandlerId, event: Bytes, data: SockData)
    | SignalCall(handler: HandlerId, event: Bytes)

  /** The event name "disconnect". */
  const Disconnect: Bytes := [100, 105, 115, 99, 111, 110, 110, 101, 99, 116]

  /** What one `update` finds on the transport:
      NotReady    poll(...) reports nothing within the timeout;
      Readable    poll reports input and `pending` is what is queued on the
                  still-connected socket (empty: the first recv would block);
      Raised      poll or one of recvData's recv calls throws a
                  NylonSock::Error (a failed recv, or the zero-byte read of
                  a closed peer). */
  datatype PollResult = NotReady | Readable(pending: Bytes) | Raised(error: Error)

  /** The fields of a ClientSocket, as a value. `attached` is
      `_client != nullptr`. */
  datatype ConnState = ConnState(
    attached: bool,
    functions: map<Bytes, HandlerId>,
    nofunctions: map<Bytes, HandlerId>,
    destroyed: bool,
    fired: seq<Invocation>,
    sent: Bytes)

  /** `ClientSocket(Socket&&)`: a transport, empty tables, not destroyed. */
  function Initial(): ConnState
  {
    ConnState(true, map[], map[], false, [], [])
  }

  /** `eventCall(eventstr, data, tclass)`: the payload handler registered
      under the name, if any, is called; an unknown event is dropped. */
  function PayloadCalls(functions: map<Bytes, HandlerId>, event: Bytes, data: SockData): (calls: seq<Invocation>)
    ensures event in functions ==> calls == [PayloadCall(functions[event], event, data)]
    ensures event !in functions ==> calls == []
  {
    if event in functions then [PayloadCall(functions[event], event, data)] else []
  }

  /** `eventCall(eventstr, tclass)`: the same for the signal-handler table. */
  function SignalCalls(nofunctions: map<Bytes, HandlerId>, event: Bytes): (calls: seq<Invocation>)
    ensures event in nofunctions ==> calls == [SignalCall(nofunctions[event], event)]
    ensures event !in nofunctions ==> calls == []
  {
    if event in nofunctions then [SignalCall(nofunctions[event], event)] else []
  }

  /** The calls `recvData` makes for the queued bytes: decode one frame and
      dispatch it to the payload table. */
  function Dispatch(functions: map<Bytes, HandlerId>, pending: Bytes): (calls: seq<Invocation>)
    ensures pending == [] ==> calls == []
    ensures |calls| <= 1
    ensures calls != [] ==> calls[0].PayloadCall? && calls[0].event in functions &&
                            calls[0].handler == functions[calls[0].event]
    ensures RecvFrame(pending).Some? ==> (calls != [] <==> RecvFrame(pending).value.event in functions)
    ensures calls != [] ==> RecvFrame(pending).Some? &&
                            calls[0].event == RecvFrame(pending).value.event &&
                            calls[0].data == RecvFrame(pending).value.data
  {
    match RecvFrame(pending)
    case None => []
    case Some(f) => PayloadCalls(functions, f.event, f.data)
  }

  /** The tail of `update` once an error was caught: set the flag, fire
      "disconnect", drop the transport, clear `_functions` (only). */
  function Destroy(s: ConnState): (t: ConnState)
    ensures t.destroyed && !t.attached && t.functions == map[]
    ensures t.nofunctions == s.nofunctions && t.sent == s.sent
    ensures |t.fired| == |s.fired| + (if Disconnect in s.nofunctions then 1 else 0)
    ensures t.fired[..|s.fired|] == s.fired
    ensures |t.fired| > |s.fired| ==> t.fired[|s.fired|] == SignalCall(s.nofunctions[Disconnect], Disconnect)
  {
    s.(destroyed := true,
       fired := s.fired + SignalCalls(s.nofunctions, Disconnect),
       attached := false,
       functions := map[])
  }

  /** `update(timeout)` on a live connection. */
  function Step(s: ConnState, p: PollResult): (t: ConnState)
    requires !s.destroyed
    ensures t.destroyed <==> p.Raised?
    ensures p.NotReady? || p == Readable([]) ==> t == s
    ensures t.nofunctions == s.nofunctions && t.sent == s.sent
    ensures t.destroyed ==> !t.attached && t.functions == map[] &&
                            t.fired == s.fired + SignalCalls(s.nofunctions, Disconnect)
    ensures !t.destroyed ==> t.attached == s.attached && t.functions == s.functions &&
                             |s.fired| <= |t.fired| <= |s.fired| + 1 &&
                             t.fired[..|s.fired|] == s.fired &&
                             forall i :: |s.fired| <= i < |t.fired| ==> t.fired[i].PayloadCall?
  {
    match p
    case NotReady => s
    case Readable(pending) => s.(fired := s.fired + Dispatch(s.functions, pending))
    case Raised(_) => Destroy(s)
  }

  /** Repeated `update`, as the Server pass and the Client loop drive it:
      they check getDestroy() first and never update a destroyed
      connection. */
  function Drive(s: ConnState, ps: seq<PollResult>): ConnState
    decreases |ps|
  {
    if ps == [] || s.destroyed then s else Drive(Step(s, ps[0]), ps[1..])
  }

  /** The number of signal-handler calls in a log (only "disconnect" is
      ever signalled). */
  function Disconnects(fired: seq<Invocation>): nat
  {
    if fired == [] then 0
    else (if fired[0].SignalCall? then 1 else 0) + Disconnects(fired[1..])
  }

  lemma {:induction false} DisconnectsAppend(a: seq<Invocation>, b: seq<Invocation>)
    ensures Disconnects(a + b) == Disconnects(a) + Disconnects(b)
  {
    if a != [] {
      assert (a + b)[1..] == a[1..] + b;
      DisconnectsAppend(a[1..], b);
    } else {
      assert a + b == b;
    }
  }

  /** The connection invariant: the transport is held exactly while the
      connection is live, and "disconnect" has fired at most once, and
      only on a destroyed connection. */
  ghost predicate Coherent(s: ConnState)
  {
    s.attached == !s.destroyed &&
    Disconnects(s.fired) <= (if s.destroyed then 1 else 0)
  }

  lemma InitialCoherent()
    ensures Coherent(Initial())
  {
  }

  /** `update` keeps the invariant. */
  lemma StepPreservesCoherent(s: ConnState, p: PollResult)
    requires !s.destroyed && Coherent(s)
    ensures Coherent(Step(s, p))
  {
    var t := Step(s, p);
    var added := t.fired[|s.fired|..];
    assert t.fired == s.fired + added;
    DisconnectsAppend(s.fired, added);
    if !t.destroyed {
      if added != [] {
        assert added == [added[0]] && added[0].PayloadCall?;
        assert Disconnects(added) == 0 by { assert added[1..] == []; }
      }
    } else {
      var calls := SignalCalls(s.nofunctions, Disconnect);
      if calls != [] {
        assert calls[1..] == [];
      }
    }
  }

  /** A frame as emitSend writes it, queued first on the socket, reaches the
      payload handler registered under its event name with its payload, and
      nothing else changes; with no handler registered the frame is
      dropped and the connection is exactly as before. */
  lemma StepDelivers(s: ConnState, event: Bytes, data: SockData, rest: Bytes)
    requires !s.destroyed && |event| <= MaxSockVal
    ensures Step(s, Readable(FrameAsWritten(event, data) + rest)) ==
            s.(fired := s.fired + PayloadCalls(s.functions, event, data))
    ensures event !in s.functions ==>
            Step(s, Readable(FrameAsWritten(event, data) + rest)) == s
  {
    RecvFrameRoundTrip(event, data, rest);
    assert s.fired + [] == s.fired;
  }

  /** Registration is last-write-wins: after `on(name, f)` and then
      `on(name, g)`, a frame for `name` calls g and only g. */
  lemma LastRegistrationWins(s: ConnState, name: Bytes, f: HandlerId, g: HandlerId, data: SockData, rest: Bytes)
    requires !s.destroyed && |name| <= MaxSockVal
    ensures var s' := s.(functions := s.functions[name := f][name := g]);
            Step(s', Readable(FrameAsWritten(name, data) + rest)).fired ==
            s.fired + [PayloadCall(g, name, data)]
  {
    var s' := s.(functions := s.functions[name := f][name := g]);
    StepDelivers(s', name, data, rest);
  }

  /** The two tables are separate: a signal handler registered under an
      event name is never called for a frame of that name, and registering
      it leaves the payload dispatch as it was. */
  lemma SignalTableIgnoresFrames(s: ConnState, name: Bytes, h: HandlerId, data: SockData, rest: Bytes)
    requires !s.destroyed && |name| <= MaxSockVal
    ensures var s' := s.(nofunctions := s.nofunctions[name := h]);
            Step(s', Readable(FrameAsWritten(name, data) + rest)).fired ==
            s.fired + PayloadCalls(s.functions, name, data)
  {
    var s' := s.(nofunctions := s.nofunctions[name := h]);
    StepDelivers(s', name, data, rest);
  }

  /** Driving never resurrects a destroyed connection, and keeps the
      invariant: "disconnect" fires at most once over any run. */
  lemma {:induction false} DriveKeepsCoherent(s: ConnState, ps: seq<PollResult>)
    requires Coherent(s)
    ensures Coherent(Drive(s, ps))
    ensures s.destroyed ==> Drive(s, ps) == s
    ensures Disconnects(Drive(s, ps).fired) <= 1
    decreases |ps|
  {
    if ps != [] && !s.destroyed {
      StepPreservesCoherent(s, ps[0]);
      DriveKeepsCoherent(Step(s, ps[0]), ps[1..]);
    }
  }

  /** A live connection driven through a run of poll results is destroyed
      by the first error and by nothing before it; "disconnect" then fires
      exactly once when a signal handler is registered under that name
      (never otherwise), and the later poll results are never looked at. */
  lemma {:induction false} DriveEndsAtFirstRaise(s: ConnState, ps: seq<PollResult>, k: nat)
    requires !s.destroyed
    requires k < |ps| && ps[k].Raised?
    requires forall j :: 0 <= j < k ==> !ps[j].Raised?
    ensures Drive(s, ps) == Drive(s, ps[..k + 1])
    ensures Drive(s, ps).destroyed
    ensures Drive(s, ps).nofunctions == s.nofunctions
    ensures Disconnects(Drive(s, ps).fired) ==
            Disconnects(s.fired) + (if Disconnect in s.nofunctions then 1 else 0)
    decreases k
  {
    var t := Step(s, ps[0]);
    if k == 0 {
      assert Drive(t, ps[1..]) == t;
      assert Drive(t, ps[..1][1..]) == t;
      var calls := SignalCalls(s.nofunctions, Disconnect);
      DisconnectsAppend(s.fired, calls);
      if calls != [] {
        assert calls[1..] == [];
      }
    } else {
      assert !t.destroyed;
      assert ps[1..][..k] == ps[..k + 1][1..];
      DriveEndsAtFirstRaise(t, ps[1..], k - 1);
      var added := t.fired[|s.fired|..];
      assert t.fired == s.fired + added;
      DisconnectsAppend(s.fired, added);
      if added != [] {
        assert added[1..] == [];
      }
    }
  }

  class ClientSocket {
    var attached: bool
    var functions: map<Bytes, HandlerId>
    var nofunctions: map<Bytes, HandlerId>
    var destroyed: bool
    var fired: seq<Invocation>
    var sent: Bytes

    function State(): ConnState
      reads this
    {
      ConnState(attached, functions, nofunctions, destroyed, fired, sent)
    }

    ghost predicate Valid()
      reads this
    {
      Coherent(State())
    }

    /** `getDestroy()`. */
    predicate GetDestroy()
      reads this
    {
      destroyed
    }

    constructor ()
      ensures Valid() && State() == Initial()
    {
      attached := true;
      functions := map[];
      nofunctions := map[];
      destroyed := false;
      fired := [];
      sent := [];
    }

    /** `on(name, SockFunc)`: overwrite the payload handler for `event`. */
    method On(event: Bytes, handler: HandlerId)
      modifies this`functions
      ensures functions == old(functions)[event := handler]
    {
      functions := functions[event := handler];
    }

    /** `on(name, NoFunc)`: overwrite the signal handler for `event`. */
    method OnSignal(event: Bytes, handler: HandlerId)
      modifies this`nofunctions
      ensures nofunctions == old(nofunctions)[event := handler]
    {
      nofunctions := nofunctions[event := handler];
    }

    /** `emit` / `emitSend`: frame the event and payload and hand the whole
        string to `send` (its return value is ignored, so the frame counts
        as sent). An event name over 65535 bytes is refused with TOO_BIG
        before anything is sent. The transport must be present: after
        destruction `_client` is null. */
    method Emit(event: Bytes, data: SockData) returns (r: Outcome<Error>)
      requires attached
      modifies this`sent
      ensures r.Fail? <==> |event| > MaxSockVal
      ensures r.Fail? ==> r.error == TooBig(|event|) && sent == old(sent)
      ensures r.Pass? ==> sent == old(sent) + FrameAsWritten(event, data)
    {
      var frame := EncodeFrame(event, data);
      if frame.Failure? {
        return Fail(frame.error);
      }
      sent := sent + frame.value;
      return Pass;
    }

    /** `eventCall(eventstr, data, tclass)`. */
    method EventCall(event: Bytes, data: SockData)
      modifies this`fired
      ensures fired == old(fired) + PayloadCalls(functions, event, data)
    {
      if event in functions {
        fired := fired + [PayloadCall(functions[event], event, data)];
      }
    }

    /** `eventCall(eventstr, tclass)`. */
    method SignalEventCall(event: Bytes)
      modifies this`fired
      ensures fired == old(fired) + SignalCalls(nofunctions, event)
    {
      if event in nofunctions {
        fired := fired + [SignalCall(nofunctions[event], event)];
      }
    }

    /** `recvData`: read one frame from the queued bytes and dispatch it.
        When the first recv would block it returns before dispatching;
        otherwise it dispatches. Either way it returns SUCCESS (0). */
    method RecvData(pending: Bytes)
      modifies this`fired
      ensures fired == old(fired) + Dispatch(functions, pending)
    {
      var frame := RecvFrame(pending);
      if frame.None? {
        return;
      }
      EventCall(frame.value.event, frame.value.data);
    }

    /** `update(timeout)`: nothing ready, or a frame read, leaves the
        connection live; any NylonSock::Error destroys it. */
    method Update(p: PollResult)
      requires Valid() && !destroyed
      modifies this
      ensures Valid()
      ensures State() == Step(old(State()), p)
    {
      StepPreservesCoherent(State(), p);
      match p {
        case NotReady =>
          return;
        case Readable(pending) =>
          RecvData(pending);
          return;
        case Raised(_) =>
      }
      destroyed := true;
      SignalEventCall(Disconnect);
      attached := false;
      functions := map[];
    }
  }
}
