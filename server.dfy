/** Server<UsrSock> of src/Sustainable.h: a listening socket, the registry
    `_clients` (a vector of connections), the onConnect callback and the
    `_stop_thread` flag. One call of `update` accepts at most one client and
    then walks the registry: a destroyed client is erased, a live one gets
    `update(0)`. The mutex only makes each step atomic with respect to other
    threads; the model runs one pass as one sequential step. */
module Server {
  import opened Wrappers
  import opened Socket
  import opened Frame
  import opened Connection

  // ------------------------------------------------- the onConnect callback

  /** A handler registration the onConnect callback makes on the new
      connection. */
  datatype Registration =
    | OnPayload(event: Bytes, handler: HandlerId)
    | OnSignal(event: Bytes, handler: HandlerId)

  function Register(s: ConnState, r: Registration): ConnState
  {
    match r
    case OnPayload(e, h) => s.(functions := s.functions[e := h])
    case OnSignal(e, h) => s.(nofunctions := s.nofunctions[e := h])
  }

  /** The connection after the callback's registrations, in order. */
  function Configure(s: ConnState, regs: seq<Registration>): (t: ConnState)
    ensures t == s.(functions := t.functions, nofunctions := t.nofunctions)
    decreases |regs|
  {
    if regs == [] then s
    else Register(Configure(s, regs[..|regs| - 1]), regs[|regs| - 1])
  }

  /** The listener as one `update` sees it: the 100 ms poll found nothing,
      or found a connection, and `ret`/`errno` are what ::accept gave. */
  datatype Incoming = Quiet | Pending(ret: int, errno: int)

  /** What escapes `update`: a NylonSock::Error from `accept`, or the
      std::bad_function_call of calling an onConnect that was never set. */
  datatype Fault = Threw(error: Error) | BadFunctionCall

  predicate Accepts(incoming: Incoming)
  {
    incoming.Pending? && incoming.ret >= -1 && Accept(incoming.ret, incoming.errno).Success?
  }

  // --------------------------------------------------- the pass, as values

  /** The number of clients among the first n that are live at the check. */
  function Count(start: seq<ConnState>, n: nat): nat
    requires n <= |start|
  {
    if n == 0 then 0
    else Count(start, n - 1) + (if start[n - 1].destroyed then 0 else 1)
  }

  /** The vector after the erase loop has walked the first n entries:
      those whose connection was live at the check, in their original
      order (`xs` is the registry, or the connections as values). */
  function Reap<T>(xs: seq<T>, start: seq<ConnState>, n: nat): (r: seq<T>)
    requires n <= |xs| == |start|
  {
    if n == 0 then []
    else Reap(xs, start, n - 1) + (if start[n - 1].destroyed then [] else [xs[n - 1]])
  }

  lemma {:induction false} ReapLength<T>(xs: seq<T>, start: seq<ConnState>, n: nat)
    requires n <= |xs| == |start|
    ensures |Reap(xs, start, n)| == Count(start, n)
  {
    if n > 0 {
      ReapLength(xs, start, n - 1);
    }
  }

  /** A live entry survives, at the position given by the number of live
      entries before it. */
  lemma {:induction false} ReapAt<T>(xs: seq<T>, start: seq<ConnState>, n: nat, i: nat)
    requires n <= |xs| == |start| && i < n && !start[i].destroyed
    ensures Count(start, i) < |Reap(xs, start, n)|
    ensures Reap(xs, start, n)[Count(start, i)] == xs[i]
  {
    ReapLength(xs, start, n - 1);
    if i < n - 1 {
      ReapAt(xs, start, n - 1, i);
    }
  }

  /** Every survivor is a live entry of the input. */
  lemma {:induction false} ReapFrom<T>(xs: seq<T>, start: seq<ConnState>, n: nat, k: nat)
    requires n <= |xs| == |start| && k < |Reap(xs, start, n)|
    ensures exists i :: 0 <= i < n && !start[i].destroyed && Count(start, i) == k && Reap(xs, start, n)[k] == xs[i]
  {
    ReapLength(xs, start, n - 1);
    if k < |Reap(xs, start, n - 1)| {
      ReapFrom(xs, start, n - 1, k);
    } else {
      assert Reap(xs, start, n)[k] == xs[n - 1];
    }
  }

  /** Survivors keep their relative order: the positions of two live
      entries compare as the entries did. */
  lemma {:induction false} CountMonotone(start: seq<ConnState>, i: nat, j: nat)
    requires i < j <= |start| && !start[i].destroyed
    ensures Count(start, i) < Count(start, j)
    decreases j
  {
    if j - 1 > i {
      CountMonotone(start, i, j - 1);
    }
  }

  lemma {:induction false} ReapDistinct<T>(xs: seq<T>, start: seq<ConnState>, n: nat)
    requires n <= |xs| == |start|
    requires forall a, b :: 0 <= a < b < |xs| ==> xs[a] != xs[b]
    ensures forall a, b :: 0 <= a < b < |Reap(xs, start, n)| ==> Reap(xs, start, n)[a] != Reap(xs, start, n)[b]
    ensures forall x :: x in Reap(xs, start, n) ==> x in xs[..n]
  {
    if n > 0 {
      var p := Reap(xs, start, n - 1);
      ReapDistinct(xs, start, n - 1);
      assert xs[n - 1] !in xs[..n - 1];
      assert forall a :: 0 <= a < |p| ==> p[a] in xs[..n - 1];
      assert xs[..n] == xs[..n - 1] + [xs[n - 1]];
      var r := Reap(xs, start, n);
      var tail := if start[n - 1].destroyed then [] else [xs[n - 1]];
      assert r == p + tail;
      forall a, b | 0 <= a < b < |r|
        ensures r[a] != r[b]
      {
        if b >= |p| {
          assert r[b] == xs[n - 1] && r[a] == p[a] && p[a] in p;
          assert p[a] in xs[..n - 1];
        } else {
          assert r[a] == p[a] && r[b] == p[b];
          assert p[a] != p[b];
        }
      }
    }
  }

  /** A client's turn in the loop: a live one is updated with its poll
      result, a destroyed one is left as it is. */
  function Visit(s: ConnState, p: PollResult): ConnState
  {
    if s.destroyed then s else Step(s, p)
  }

  /** Each client after its turn. */
  function Advance(start: seq<ConnState>, polls: seq<PollResult>): (r: seq<ConnState>)
    requires |start| == |polls|
    ensures |r| == |start|
  {
    if start == [] then []
    else [Visit(start[0], polls[0])] + Advance(start[1..], polls[1..])
  }

  lemma {:induction false} AdvanceAt(start: seq<ConnState>, polls: seq<PollResult>, k: nat)
    requires |start| == |polls| && k < |start|
    ensures Advance(start, polls)[k] == Visit(start[k], polls[k])
  {
    if k > 0 {
      AdvanceAt(start[1..], polls[1..], k - 1);
    }
  }

  /** The registry, as values, after one pass. */
  function Sweep(start: seq<ConnState>, polls: seq<PollResult>): seq<ConnState>
    requires |start| == |polls|
  {
    Reap(Advance(start, polls), start, |start|)
  }

  /** Each client live at the check is updated exactly once, with its own
      poll result, and stays in the registry at its place among the
      survivors (even when this very update destroyed it: it is erased on
      the next pass). */
  lemma SweepUpdatesLive(start: seq<ConnState>, polls: seq<PollResult>, i: nat)
    requires |start| == |polls| && i < |start| && !start[i].destroyed
    ensures Count(start, i) < |Sweep(start, polls)|
    ensures Sweep(start, polls)[Count(start, i)] == Step(start[i], polls[i])
  {
    ReapAt(Advance(start, polls), start, |start|, i);
    AdvanceAt(start, polls, i);
  }

  /** Nothing else is in the registry after the pass: every entry is the
      update of a client that was live at the check; clients already
      destroyed are gone and were never updated. */
  lemma SweepOnlyLive(start: seq<ConnState>, polls: seq<PollResult>, k: nat)
    requires |start| == |polls| && k < |Sweep(start, polls)|
    ensures exists i :: 0 <= i < |start| && !start[i].destroyed && Count(start, i) == k &&
                        Sweep(start, polls)[k] == Step(start[i], polls[i])
  {
    ReapFrom(Advance(start, polls), start, |start|, k);
    var i :| 0 <= i < |start| && !start[i].destroyed && Count(start, i) == k &&
             Reap(Advance(start, polls), start, |start|)[k] == Advance(start, polls)[i];
    AdvanceAt(start, polls, i);
  }

  /** The pass keeps every connection's invariant: on the server path
      "disconnect" fires at most once per client. */
  lemma SweepKeepsCoherent(start: seq<ConnState>, polls: seq<PollResult>)
    requires |start| == |polls|
    requires forall k :: 0 <= k < |start| ==> Coherent(start[k])
    ensures forall k :: 0 <= k < |Sweep(start, polls)| ==> Coherent(Sweep(start, polls)[k])
  {
    forall k | 0 <= k < |Sweep(start, polls)|
      ensures Coherent(Sweep(start, polls)[k])
    {
      SweepOnlyLive(start, polls, k);
      var i :| 0 <= i < |start| && !start[i].destroyed && Sweep(start, polls)[k] == Step(start[i], polls[i]);
      StepPreservesCoherent(start[i], polls[i]);
    }
  }

  // ------------------------------------------------- the pass, on objects

  function StatesOf(cs: seq<ClientSocket>): (r: seq<ConnState>)
    reads set c | c in cs
    ensures |r| == |cs| && forall k :: 0 <= k < |cs| ==> r[k] == cs[k].State()
  {
    seq(|cs|, k requires 0 <= k < |cs| reads set c | c in cs => cs[k].State())
  }

  lemma {:induction false} StatesOfReap(cs: seq<ClientSocket>, start: seq<ConnState>, n: nat)
    requires n <= |cs| == |start|
    ensures StatesOf(Reap(cs, start, n)) == Reap(StatesOf(cs), start, n)
  {
    if n > 0 {
      StatesOfReap(cs, start, n - 1);
      var p := Reap(cs, start, n - 1);
      var tail := if start[n - 1].destroyed then [] else [cs[n - 1]];
      assert StatesOf(p + tail) == StatesOf(p) + StatesOf(tail);
    }
  }

  /** `_func(*_clients.back())`: run the onConnect callback's registrations
      on the new connection. */
  method CallOnConnect(c: ClientSocket, regs: seq<Registration>)
    requires c.Valid()
    modifies c
    ensures c.Valid()
    ensures c.State() == Configure(old(c.State()), regs)
  {
    var i := 0;
    while i < |regs|
      invariant 0 <= i <= |regs|
      invariant c.State() == Configure(old(c.State()), regs[..i])
    {
      match regs[i] {
        case OnPayload(e, h) => c.On(e, h);
        case OnSignal(e, h) => c.OnSignal(e, h);
      }
      assert regs[..i + 1][..i] == regs[..i];
      i := i + 1;
    }
    assert regs[..|regs|] == regs;
  }

  /** A connection after Server::emit's turn: a live one sends the frame. */
  function Delivered(s: ConnState, frame: Bytes): ConnState
  {
    if s.destroyed then s else s.(sent := s.sent + frame)
  }

  // ----------------------------------------------- the erase loop, a step

  /** The loop's bookkeeping of `_clients` when it reaches entry j of the
      registry: entry j sits at position i, the survivors of the first j
      entries before it. */
  lemma EraseStep<T>(cs: seq<T>, registry: seq<T>, start: seq<ConnState>, i: nat, j: nat)
    requires j < |registry| == |start|
    requires i == |Reap(registry, start, j)| && cs == Reap(registry, start, j) + registry[j..]
    ensures i < |cs| && cs[i] == registry[j]
    ensures start[j].destroyed ==>
              i == |Reap(registry, start, j + 1)| &&
              cs[..i] + cs[i + 1..] == Reap(registry, start, j + 1) + registry[j + 1..]
    ensures !start[j].destroyed ==>
              i + 1 == |Reap(registry, start, j + 1)| &&
              cs == Reap(registry, start, j + 1) + registry[j + 1..]
  {
    assert cs[i..] == registry[j..];
    assert registry[j..] == [registry[j]] + registry[j + 1..];
  }

  /** `update(0)` on entry j of a registry without duplicates changes that
      entry's state only. */
  method UpdateOne(c: ClientSocket, p: PollResult, ghost registry: seq<ClientSocket>, ghost j: nat)
    requires j < |registry| && registry[j] == c
    requires forall a, b :: 0 <= a < b < |registry| ==> registry[a] != registry[b]
    requires c.Valid() && !c.destroyed
    modifies c
    ensures c.Valid()
    ensures StatesOf(registry) == old(StatesOf(registry))[j := Step(old(c.State()), p)]
  {
    c.Update(p);
    assert forall k :: 0 <= k < |registry| && k != j ==> registry[k] != c;
  }

  /** The loop after j entries: `cs` is `_clients` with i survivors in
      front of the untouched tail, the first j connections have had their
      turn and the others are as they were. */
  ghost predicate Swept(cs: seq<ClientSocket>, i: nat, registry: seq<ClientSocket>, start: seq<ConnState>,
                        after: seq<ConnState>, j: nat, now: seq<ConnState>)
  {
    j <= |registry| == |start| == |after| &&
    i == |Reap(registry, start, j)| && cs == Reap(registry, start, j) + registry[j..] &&
    now == after[..j] + start[j..]
  }

  /** Once every entry has had its turn, `cs` is the survivors and every
      connection is in its state after the pass. */
  lemma SweptDone(cs: seq<ClientSocket>, i: nat, registry: seq<ClientSocket>, start: seq<ConnState>,
                  after: seq<ConnState>, now: seq<ConnState>)
    requires Swept(cs, i, registry, start, after, |registry|, now)
    ensures cs == Reap(registry, start, |registry|) && now == after
  {
    assert registry[|registry|..] == [] && start[|registry|..] == [];
    assert after[..|registry|] == after;
  }

  /** Giving entry j its turn moves the boundary between the entries that
      have had their turn and those that have not by one. */
  lemma TurnStep(start: seq<ConnState>, after: seq<ConnState>, j: nat)
    requires j < |start| == |after|
    ensures after[..j + 1] + start[j + 1..] == (after[..j] + start[j..])[j := after[j]]
    ensures after[j] == start[j] ==> after[..j + 1] + start[j + 1..] == after[..j] + start[j..]
  {
  }

  /** One iteration: erase the client at position i if it is destroyed,
      otherwise update it and move on. */
  method SweepOne(cs: seq<ClientSocket>, i: nat, polls: seq<PollResult>, ghost registry: seq<ClientSocket>,
                  ghost start: seq<ConnState>, ghost after: seq<ConnState>, j: nat)
    returns (cs': seq<ClientSocket>, i': nat, ghost now: seq<ConnState>)
    requires |polls| == |start| && after == Advance(start, polls)
    requires forall a, b :: 0 <= a < b < |registry| ==> registry[a] != registry[b]
    requires forall k :: 0 <= k < |start| ==> Coherent(start[k])
    requires j < |registry| && Swept(cs, i, registry, start, after, j, StatesOf(registry))
    modifies registry
    ensures now == StatesOf(registry) && Swept(cs', i', registry, start, after, j + 1, now)
  {
    EraseStep(cs, registry, start, i, j);
    TurnStep(start, after, j);
    AdvanceAt(start, polls, j);
    var c := cs[i];
    assert StatesOf(registry)[j] == start[j];
    if !c.GetDestroy() {
      UpdateOne(c, polls[j], registry, j);
      cs', i' := cs, i + 1;
    } else {
      cs', i' := cs[..i] + cs[i + 1..], i;
    }
    now := StatesOf(registry);
  }

  /** The erase loop of `update()` over the registry: returns the new
      `_clients`. */
  method SweepClients(registry: seq<ClientSocket>, polls: seq<PollResult>, ghost start: seq<ConnState>)
    returns (cs: seq<ClientSocket>)
    requires |registry| == |polls| == |start| && start == StatesOf(registry)
    requires forall a, b :: 0 <= a < b < |registry| ==> registry[a] != registry[b]
    requires forall k :: 0 <= k < |start| ==> Coherent(start[k])
    modifies registry
    ensures cs == Reap(registry, start, |registry|) && StatesOf(registry) == Advance(start, polls)
  {
    ghost var after := Advance(start, polls);
    cs := registry;
    var total := |cs|;
    var i := 0;
    var j := 0;
    ghost var now := StatesOf(registry);
    assert registry[0..] == registry;
    while j < total
      invariant total == |registry| && j <= total
      invariant now == StatesOf(registry) && Swept(cs, i, registry, start, after, j, now)
    {
      cs, i, now := SweepOne(cs, i, polls, registry, start, after, j);
      j := j + 1;
    }
    assert j == |registry|;
    SweptDone(cs, i, registry, start, after, now);
  }

  /** What the erase loop leaves behind: a registry without duplicates,
      holding the survivors in their states after the pass, each of them
      valid. */
  lemma SweptRegistry(registry: seq<ClientSocket>, cs: seq<ClientSocket>, start: seq<ConnState>,
                      polls: seq<PollResult>)
    requires |registry| == |polls| == |start|
    requires forall a, b :: 0 <= a < b < |registry| ==> registry[a] != registry[b]
    requires forall k :: 0 <= k < |start| ==> Coherent(start[k])
    requires cs == Reap(registry, start, |registry|) && StatesOf(registry) == Advance(start, polls)
    ensures forall a, b :: 0 <= a < b < |cs| ==> cs[a] != cs[b]
    ensures cs == Reap(registry, start, |start|) && StatesOf(cs) == Sweep(start, polls)
    ensures forall c :: c in cs ==> c.Valid()
  {
    ReapDistinct(registry, start, |registry|);
    StatesOfReap(registry, start, |registry|);
    SweepKeepsCoherent(start, polls);
    forall c | c in cs
      ensures c.Valid()
    {
      var k :| 0 <= k < |cs| && cs[k] == c;
      assert StatesOf(cs)[k] == c.State();
      assert c.State() == Sweep(start, polls)[k];
      assert Coherent(Sweep(start, polls)[k]);
    }
  }

  class Server {
    var stopThread: bool
    /** How many threads `start` has launched. */
    var launches: nat
    var clients: seq<ClientSocket>
    var callback: Option<seq<Registration>>

    ghost predicate Valid()
      reads this, set c | c in clients
    {
      (forall a, b :: 0 <= a < b < |clients| ==> clients[a] != clients[b]) &&
      (forall c :: c in clients ==> c.Valid())
    }

    /** `Server(port)`: the listening socket is set up (not modelled) and
        `_stop_thread` starts true, so the server is not running. */
    constructor ()
      ensures Valid()
      ensures stopThread && launches == 0 && clients == [] && callback == None
    {
      stopThread := true;
      launches := 0;
      clients := [];
      callback := None;
    }

    /** `onConnect(func)`: replace the callback. */
    method OnConnect(regs: seq<Registration>)
      modifies this`callback
      ensures callback == Some(regs)
    {
      callback := Some(regs);
    }

    /** `count()`: the registry size. */
    method Count() returns (n: nat)
      ensures n == |clients|
    {
      n := |clients|;
    }

    /** `start()`: a no-op while running; otherwise clear the flag and
        launch one update thread. The thread of an earlier start is never
        joined, so from the second launch on, assigning the new thread over
        it destroys a joinable std::thread and the program ends in
        std::terminate (`aborted`). */
    method Start() returns (aborted: bool)
      modifies this`stopThread, this`launches
      ensures !stopThread
      ensures launches == old(launches) + (if old(stopThread) then 1 else 0)
      ensures aborted <==> old(stopThread) && old(launches) > 0
    {
      aborted := false;
      if !stopThread {
        return;
      }
      stopThread := false;
      aborted := launches > 0;
      launches := launches + 1;
    }

    /** `stop()`. */
    method Stop()
      modifies this`stopThread
      ensures stopThread
    {
      stopThread := true;
    }

    /** `status()`: running exactly when `_stop_thread` is false. */
    method Status() returns (running: bool)
      ensures running == !stopThread
    {
      running := !stopThread;
    }

    /** `emit(event, data)`: send to every client that is not destroyed,
        in registry order. An over-long event name makes the first live
        client's emit throw TOO_BIG, which ends the loop before anything
        is sent. */
    method Emit(event: Bytes, data: SockData) returns (r: Outcome<Error>)
      requires Valid()
      modifies set c | c in clients
      ensures Valid()
      ensures r.Fail? <==> |event| > MaxSockVal && exists k :: 0 <= k < |clients| && !old(clients[k].destroyed)
      ensures r.Fail? ==> r.error == TooBig(|event|) &&
                          forall k :: 0 <= k < |clients| ==> clients[k].State() == old(clients[k].State())
      ensures r.Pass? ==> forall k :: 0 <= k < |clients| ==>
                            clients[k].State() == Delivered(old(clients[k].State()), FrameAsWritten(event, data))
    {
      var k := 0;
      while k < |clients|
        invariant 0 <= k <= |clients|
        invariant Valid()
        invariant |event| > MaxSockVal ==> forall m :: 0 <= m < k ==> old(clients[m].destroyed)
        invariant forall m :: 0 <= m < k ==>
                    clients[m].State() == Delivered(old(clients[m].State()), FrameAsWritten(event, data))
        invariant forall m :: k <= m < |clients| ==> clients[m].State() == old(clients[m].State())
      {
        var c := clients[k];
        if !c.GetDestroy() {
          r := c.Emit(event, data);
          if r.Fail? {
            return;
          }
        }
        k := k + 1;
      }
      r := Pass;
    }

    /** One `update()`. The registry the loop walks (`registry`) and the
        connections as the loop finds them (`start`) are returned for the
        specification. */
    method Update(incoming: Incoming, polls: seq<PollResult>)
      returns (r: Outcome<Fault>, ghost registry: seq<ClientSocket>, ghost start: seq<ConnState>)
      requires Valid()
      requires incoming.Pending? ==> incoming.ret >= -1
      requires |polls| == |clients| + (if incoming.Pending? then 1 else 0)
      modifies this`clients, set c | c in clients
      ensures Valid()
      ensures |start| == |registry|
      // accept throws: nothing else happens
      ensures incoming.Pending? && !Accepts(incoming) ==>
                r == Fail(Threw(AcceptFailed)) && clients == registry == old(clients) &&
                StatesOf(clients) == start == old(StatesOf(clients))
      // no connection pending: the pass walks the registry as it was
      ensures incoming.Quiet? ==> registry == old(clients) && start == old(StatesOf(clients))
      // one connection accepted: exactly one new client, appended at the end,
      // and onConnect runs on that new last element
      ensures Accepts(incoming) ==>
                |registry| == |old(clients)| + 1 && registry[..|old(clients)|] == old(clients) &&
                fresh(registry[|old(clients)|]) &&
                start[..|old(clients)|] == old(StatesOf(clients)) &&
                start[|old(clients)|] ==
                  (if callback.Some? then Configure(Initial(), callback.value) else Initial())
      // onConnect never set: bad_function_call escapes before any client is updated
      ensures Accepts(incoming) && callback.None? ==>
                r == Fail(BadFunctionCall) && clients == registry && StatesOf(clients) == start
      ensures r.Pass? <==> incoming.Quiet? || (Accepts(incoming) && callback.Some?)
      // the pass: destroyed clients erased, live ones updated, order kept
      ensures r.Pass? ==> |registry| == |polls| &&
                          clients == Reap(registry, start, |registry|) && StatesOf(clients) == Sweep(start, polls)
    {
      r := Admit(incoming);
      registry := clients;
      start := StatesOf(clients);
      if r.Pass? {
        UpdateClients(polls, start);
      }
    }

    /** The accept half of `update()`: a pending connection is accepted,
        appended to `_clients` and handed to the onConnect callback. */
    method Admit(incoming: Incoming) returns (r: Outcome<Fault>)
      requires Valid()
      requires incoming.Pending? ==> incoming.ret >= -1
      modifies this`clients
      ensures Valid()
      ensures incoming.Pending? && !Accepts(incoming) ==>
                r == Fail(Threw(AcceptFailed)) && clients == old(clients)
      ensures incoming.Quiet? ==> r == Pass && clients == old(clients)
      ensures Accepts(incoming) ==>
                |clients| == |old(clients)| + 1 && clients[..|old(clients)|] == old(clients) &&
                fresh(clients[|old(clients)|]) &&
                StatesOf(clients)[..|old(clients)|] == old(StatesOf(clients)) &&
                clients[|old(clients)|].State() ==
                  (if callback.Some? then Configure(Initial(), callback.value) else Initial())
      ensures Accepts(incoming) ==> (r == Pass <==> callback.Some?)
      ensures Accepts(incoming) && callback.None? ==> r == Fail(BadFunctionCall)
      ensures unchanged(old(clients))
    {
      r := Pass;
      if incoming.Pending? {
        var accepted := Accept(incoming.ret, incoming.errno);
        if accepted.Failure? {
          return Fail(Threw(accepted.error));
        }
        var c := new ClientSocket();
        clients := clients + [c];
        if callback.None? {
          return Fail(BadFunctionCall);
        }
        CallOnConnect(c, callback.value);
        assert StatesOf(clients)[..|old(clients)|] == StatesOf(old(clients));
      }
    }

    /** The registry loop of `update()`: erase each destroyed client, give
        each live one `update(0)` with its poll result. */
    method UpdateClients(polls: seq<PollResult>, ghost start: seq<ConnState>)
      requires Valid()
      requires |polls| == |clients| && start == StatesOf(clients)
      modifies this`clients, set c | c in clients
      ensures Valid()
      ensures clients == Reap(old(clients), start, |start|) && StatesOf(clients) == Sweep(start, polls)
    {
      ghost var registry := clients;
      assert forall k :: 0 <= k < |start| ==> Coherent(start[k]) by {
        assert forall k :: 0 <= k < |registry| ==> registry[k] in clients;
      }
      var cs := SweepClients(clients, polls, start);
      SweptRegistry(registry, cs, start, polls);
      clients := cs;
    }
  }
}
