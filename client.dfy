/** Client<T> of src/Sustainable.h: one connection to a server, wrapped with
    the `_stop_thread` flag. `on` and `emit` only reach the connection while
    the client runs; `start` launches one thread that runs `update`, which
    polls the connection until the flag is set or the connection is
    destroyed, and sets the flag on the way out. The thread is modelled by
    running its loop in sequence: the poll results it sees are a parameter,
    and the point at which another thread calls `stop` is the end of that
    sequence. */
module Client {
  import opened Wrappers
  import opened Socket
  import opened Frame
  import opened Connection

  /** Without an error among the poll results, a live connection stays
      live and keeps both handler tables: nothing but an error ends it. */
  lemma {:induction false} DriveLiveWithoutRaise(s: ConnState, ps: seq<PollResult>)
    requires !s.destroyed
    requires forall j :: 0 <= j < |ps| ==> !ps[j].Raised?
    ensures !Drive(s, ps).destroyed
    ensures Drive(s, ps).functions == s.functions
    ensures Drive(s, ps).nofunctions == s.nofunctions
    decreases |ps|
  {
    if ps != [] {
      DriveLiveWithoutRaise(Step(s, ps[0]), ps[1..]);
    }
  }

  /** The position of the first error in a run that holds one. */
  function FirstRaise(ps: seq<PollResult>): (k: nat)
    requires exists j :: 0 <= j < |ps| && ps[j].Raised?
    ensures k < |ps| && ps[k].Raised?
    ensures forall j :: 0 <= j < k ==> !ps[j].Raised?
    decreases |ps|
  {
    if ps[0].Raised? then 0
    else
      assert exists j :: 0 <= j < |ps[1..]| && ps[1..][j].Raised? by {
        var j :| 0 <= j < |ps| && ps[j].Raised?;
        assert ps[1..][j - 1] == ps[j];
      }
      1 + FirstRaise(ps[1..])
  }

  /** Both directions together: a live connection driven through a run of
      poll results ends destroyed exactly when the run holds an error. */
  lemma DriveDestroyedIffRaised(s: ConnState, ps: seq<PollResult>)
    requires !s.destroyed
    ensures Drive(s, ps).destroyed <==> exists j :: 0 <= j < |ps| && ps[j].Raised?
  {
    if exists j :: 0 <= j < |ps| && ps[j].Raised? {
      var k := FirstRaise(ps);
      DriveEndsAtFirstRaise(s, ps, k);
    } else {
      DriveLiveWithoutRaise(s, ps);
    }
  }

  class Client {
    /** `_inter`: the connection, owned for the client's whole life. */
    const inner: ClientSocket
    var stopThread: bool
    /** How many threads `start` has launched. */
    var launches: nat

    ghost predicate Valid()
      reads this, inner
    {
      inner.Valid()
    }

    /** `Client(ip, port)`: the connected socket is set up (not modelled)
        and `_stop_thread` starts true, so the client is not running. */
    constructor ()
      ensures Valid() && fresh(inner)
      ensures stopThread && launches == 0
      ensures inner.State() == Initial()
    {
      inner := new ClientSocket();
      stopThread := true;
      launches := 0;
    }

    /** `on(name, SockFunc)`: registers only while running. */
    method On(event: Bytes, handler: HandlerId)
      modifies inner`functions
      ensures !stopThread ==> inner.functions == old(inner.functions)[event := handler]
      ensures stopThread ==> inner.functions == old(inner.functions)
    {
      if !stopThread {
        inner.On(event, handler);
      }
    }

    /** `on(name, NoFunc)`: registers only while running. */
    method OnSignal(event: Bytes, handler: HandlerId)
      modifies inner`nofunctions
      ensures !stopThread ==> inner.nofunctions == old(inner.nofunctions)[event := handler]
      ensures stopThread ==> inner.nofunctions == old(inner.nofunctions)
    {
      if !stopThread {
        inner.OnSignal(event, handler);
      }
    }

    /** `emit(name, data)`: sends only while running; a stopped client
        sends nothing. A running client whose connection has been destroyed
        would dereference the null `_client`, hence the precondition. */
    method Emit(event: Bytes, data: SockData) returns (r: Outcome<Error>)
      requires Valid() && (!stopThread ==> !inner.destroyed)
      modifies inner`sent
      ensures stopThread ==> r == Pass && inner.sent == old(inner.sent)
      ensures !stopThread ==> (r.Fail? <==> |event| > MaxSockVal)
      ensures !stopThread && r.Fail? ==> r.error == TooBig(|event|) && inner.sent == old(inner.sent)
      ensures !stopThread && r.Pass? ==> inner.sent == old(inner.sent) + FrameAsWritten(event, data)
    {
      if stopThread {
        return Pass;
      }
      r := inner.Emit(event, data);
    }

    /** `start()`: a no-op while running; otherwise clear the flag and
        launch one update thread. The thread of an earlier start is never
        joined, so from the second launch on, assigning the new thread over
        it destroys a joinable std::thread and the program ends in
        std::terminate (`aborted`). */
    method Start() returns (aborted: bool)
      modifies this`stopThread, this`launches
      ensures !stopThread
      ensures launches == old(launches) + (if old(stopThread) then 1 else 0)
      ensures aborted <==> old(stopThread) && old(launches) > 0
    {
      aborted := false;
      if !stopThread {
        return;
      }
      stopThread := false;
      aborted := launches > 0;
      launches := launches + 1;
    }

    /** `stop()`. */
    method Stop()
      modifies this`stopThread
      ensures stopThread
    {
      stopThread := true;
    }

    /** `status()`: running exactly when `_stop_thread` is false. */
    method Status() returns (running: bool)
      ensures running == !stopThread
    {
      running := !stopThread;
    }

    /** `get()`: the wrapped connection itself, not a copy. */
    method Get() returns (c: ClientSocket)
      ensures c == inner
    {
      c := inner;
    }

    /** The thread body `update()`: while the flag is clear and the
        connection is live, `update(250)` it with the next poll result;
        `polls` are the results seen before another thread's `stop` is
        observed. The RAII guard sets the flag when the loop ends, however
        it ends. */
    method Run(polls: seq<PollResult>)
      requires Valid()
      modifies this`stopThread, inner
      ensures Valid() && stopThread
      ensures old(stopThread) ==> inner.State() == old(inner.State())
      ensures !old(stopThread) ==> inner.State() == Drive(old(inner.State()), polls)
    {
      ghost var s0 := inner.State();
      var i := 0;
      while !stopThread && !inner.GetDestroy() && i < |polls|
        invariant i <= |polls|
        invariant inner.Valid()
        invariant stopThread == old(stopThread)
        invariant stopThread ==> inner.State() == s0
        invariant !stopThread ==> Drive(inner.State(), polls[i..]) == Drive(s0, polls)
        decreases |polls| - i
      {
        assert polls[i..][1..] == polls[i + 1..];
        inner.Update(polls[i]);
        i := i + 1;
      }
      stopThread := true;
    }
  }

  /** What a run leaves behind, from a running client whose connection is
      live: the connection is destroyed exactly when an error was polled,
      "disconnect" then fired once if a handler is registered for it, and
      otherwise both handler tables are intact. */
  lemma RunOutcome(s: ConnState, ps: seq<PollResult>)
    requires Coherent(s) && !s.destroyed
    ensures Coherent(Drive(s, ps))
    ensures Drive(s, ps).destroyed <==> exists j :: 0 <= j < |ps| && ps[j].Raised?
    ensures Drive(s, ps).destroyed ==>
              Disconnects(Drive(s, ps).fired) ==
              Disconnects(s.fired) + (if Disconnect in s.nofunctions then 1 else 0)
    ensures !Drive(s, ps).destroyed ==>
              Drive(s, ps).functions == s.functions && Drive(s, ps).nofunctions == s.nofunctions
  {
    DriveKeepsCoherent(s, ps);
    DriveDestroyedIffRaised(s, ps);
    if exists j :: 0 <= j < |ps| && ps[j].Raised? {
      DriveEndsAtFirstRaise(s, ps, FirstRaise(ps));
    } else {
      DriveLiveWithoutRaise(s, ps);
    }
  }
}
