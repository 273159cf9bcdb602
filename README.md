# NylonSock core, modelled in Dafny

NylonSock is a small C++ socket library with an event interface in the style
of socket.io. A connection registers handlers under event names. `emit`
frames an event name and a payload and sends them. Each `update` polls the
socket, decodes one frame and calls the handler registered under its name.
An error on the socket destroys the connection and fires its "disconnect"
signal handler. A `Server` keeps a registry of connections: each pass
accepts at most one new client, then erases the destroyed clients and
updates the live ones. A `Client` wraps one connection behind a running
flag and polls it from its own thread.

The model has seven modules:

- `Wrappers`: Option, Result and Outcome. Outcome stands in for "returns,
  or throws this error".
- `Socket`: how `recv`, `accept` and `fcntl` in src/Socket.cpp classify a
  system call's result, the `char` narrowing those wrappers apply, and
  `TimeVal`.
- `FdSet`: the `_sock` bookkeeping of `FD_Set`. The `std::set<int>` is a
  strictly ascending sequence.
- `Frame`: `SockData` and its 65535-byte bound, the frame `emitSend`
  writes, and `recvData`'s per-field decoding of the bytes queued on the
  socket.
- `Connection`: `ClientSocket<T>`. It is a class whose fields are the
  handler tables, the destroy flag, the transport, the log of handler calls
  and the bytes sent. Beside it are the pure specification `Step`, for one
  `update`, and `Drive`, for repeated updates.
- `Server`: `Server<UsrSock>`. It is a class over a `seq<ClientSocket>`.
  The erase loop is proved against `Reap`, an order-keeping filter, and
  against `Sweep`, the registry as values after one pass.
- `Client`: `Client<T>`. It has the gated `on`/`emit`, `start`/`stop`/
  `status`, and the thread body `update` as the method `Run`.

The operating system is not modelled. Poll and recv results are
parameters: `PollResult` for what one `update` finds, `Incoming` for what
the server's listener poll and `::accept` return, and raw return values and
`errno` for the classifiers. Handlers are application code. Each one is
named by a `HandlerId`, and each call of one is appended to the
connection's `fired` log.

The block comment at the top of src/Sustainable.h says a frame starts with
the content size and then the event-name size. `emitSend` and `recvData`
put the event-name size first, and the model follows the code.

## Model

| member | source | states |
|---|---|---|
| Socket.ToChar | NylonSock/src/Socket.cpp:290 | storing an int in a `char` is two's-complement narrowing: the result is in [-128, 128), congruent to the input modulo 256, and equal to it when it already fits |
| Socket.Recv | NylonSock/src/Socket.cpp:321-343 | a would-block failure returns 0; any other failure throws "Failed to receive"; a zero-byte read throws "socket being closed"; a positive count is returned unchanged. Each outcome holds exactly in its case |
| Socket.AcceptAsWritten | NylonSock/src/Socket.cpp:283-301 | accept as written: the descriptor passes through a `char`, so any handle it wraps lies in [-128, 128) |
| Socket.Accept | NylonSock/src/Socket.cpp:283-301 | accept with the descriptor kept whole: a descriptor is wrapped unchanged; on failure EAGAIN/EWOULDBLOCK gives NULL_SOCKET and every other errno throws, with both directions stated |
| Socket.AcceptAsWrittenAgreesBelow128 | NylonSock/src/Socket.cpp:290-300 | the as-written and intended accept agree exactly when the descriptor is below 128 |
| Socket.AcceptAsWrittenLosesDescriptor | NylonSock/src/Socket.cpp:290-300 | descriptor 255 is read as INVALID_SOCKET and its connection reported as a failed accept; descriptor 200 is wrapped as -56 |
| Socket.Fcntl | NylonSock/src/Socket.cpp:407-429 | an argument other than O_NONBLOCK/O_ASYNC throws the bad-argument error; otherwise the call succeeds exactly when the narrowed result is not SOCKET_ERROR, and throws "Failed to fcntl" when it is |
| Socket.MakeTimeVal | NylonSock/src/Socket.cpp:596-601 | microseconds in [0, 1000000), seconds·10⁶ + microseconds = milli·1000, and seconds fit a 32-bit int |
| Socket.TimeValUnique | NylonSock/src/Socket.cpp:596-601 | those properties determine the TimeVal: any pair that satisfies them is the one the constructor builds |
| FdSet.Insert | NylonSock/src/Socket.cpp:503 | `_sock.insert`: the element goes in its place and a present element is not added again; its properties are the three lemmas below and `InsertIdempotent` |
| FdSet.InsertMembers | NylonSock/src/Socket.cpp:499-505 | std::set::insert adds exactly the new descriptor to the elements |
| FdSet.InsertLength | NylonSock/src/Socket.cpp:499-505 | inserting a present descriptor leaves the set as it was; inserting an absent one grows it by one |
| FdSet.InsertAscending | NylonSock/src/Socket.cpp:499-505 | insert keeps the set ordered and free of duplicates |
| FdSet.InsertIdempotent | NylonSock/src/Socket.cpp:499-505 | setting the same descriptor twice is the same as setting it once |
| FdSet.EraseMembers | NylonSock/src/Socket.cpp:523-529 | std::set::erase removes exactly that descriptor from the elements |
| FdSet.EraseLength | NylonSock/src/Socket.cpp:523-529 | erasing an absent descriptor changes nothing; erasing a present one shrinks the set by one |
| FdSet.EraseAscending | NylonSock/src/Socket.cpp:523-529 | erase keeps the set ordered and free of duplicates |
| FdSet.Erase | NylonSock/src/Socket.cpp:527 | `_sock.erase` by key; its properties are the three lemmas above |
| FdSet.AscendingSize | NylonSock/src/Socket.cpp:552-559 | the length of the ordered sequence is the number of distinct descriptors |
| FdSet.LastIsMax | NylonSock/src/Socket.cpp:545-548 | the last element of the ordered sequence is a member and is at least every member |
| FdSet.FdSet.constructor | NylonSock/src/Socket.cpp:484-488 | a new FD_Set tracks no descriptor |
| FdSet.FdSet.Set | NylonSock/src/Socket.cpp:499-505 | `set` adds exactly that descriptor to the tracked set, keeps it ordered, and changes nothing when it was already tracked |
| FdSet.FdSet.Clr | NylonSock/src/Socket.cpp:523-529 | `clr` removes only that descriptor and keeps the set ordered |
| FdSet.FdSet.Zero | NylonSock/src/Socket.cpp:531-537 | `zero` leaves no descriptor tracked |
| FdSet.FdSet.Size | NylonSock/src/Socket.cpp:552-559 | `size` is the number of distinct descriptors tracked |
| FdSet.FdSet.GetMax | NylonSock/src/Socket.cpp:545-548 | on a non-empty set, `getMax` returns a tracked descriptor that is at least every tracked descriptor |
| Frame.NewSockData | NylonSock/src/Sustainable.h:79-93 | a string over 65535 bytes throws TOO_BIG with its size; any other string is kept exactly, so `getRaw()` returns it |
| Frame.FromU16 | NylonSock/src/Sustainable.h:181-188 | `castback` reads two bytes big-endian and gives a value of at most 65535 |
| Frame.U16 | NylonSock/src/Sustainable.h:160-167 | htons of a length gives two bytes that `castback` reads back as that length |
| Frame.Narrow16 | NylonSock/src/Sustainable.h:160 | passing a size to htons keeps at most 65535, and keeps any size within that bound |
| Frame.FrameAsWritten | NylonSock/src/Sustainable.h:152-177 | the frame has 4 + event + payload bytes: the event length modulo 65536 big-endian, the payload length big-endian, then the event bytes, then the payload bytes |
| Frame.EncodeFrame | NylonSock/src/Sustainable.h:152-177 | corrected encoder: an event name over 65535 bytes throws TOO_BIG and sends nothing; any other name is framed as written |
| Frame.RecvInto | NylonSock/src/Sustainable.h:196-226 | one recv into a zero-filled n-byte buffer takes the first n queued bytes, or all of them followed by zeros when fewer are queued |
| Frame.RecvFrame | NylonSock/src/Sustainable.h:179-233 | recvData returns before dispatching exactly when nothing is queued; any frame it reads has an event name within the bound and consumes at least one byte |
| Frame.RecvFrameRoundTrip | NylonSock/src/Sustainable.h:152-233 | a queue starting with a frame as emitted decodes to that event and payload, consuming exactly the frame; empty fields read nothing |
| Frame.FrameRoundTrip | NylonSock/src/Sustainable.h:152-233 | the corrected encoder succeeds exactly for names within the bound, and what it sends decodes back to the event and payload |
| Frame.LongEventNameMisframed | NylonSock/src/Sustainable.h:160-173 | as written, an event name of 65536 bytes or more is received as a different name whose length is the original length modulo 65536 |
| Frame.HeaderOnlyReadsZeros | NylonSock/src/Sustainable.h:196-228 | recvData does not reassemble: with only the 4 header bytes queued, it dispatches a zero-filled event name and payload of the announced lengths |
| Connection.PayloadCalls | NylonSock/src/Sustainable.h:235-245 | a payload frame calls the handler registered under its name once, with its payload; an unknown name calls nothing |
| Connection.SignalCalls | NylonSock/src/Sustainable.h:247-255 | a signal calls the signal handler registered under its name once; an unknown name calls nothing |
| Connection.Dispatch | NylonSock/src/Sustainable.h:210-230 | recvData dispatches at most one call, and none when nothing is queued. When a frame is decoded, there is a call exactly when its event name is registered, and that call is the registered payload handler with the decoded name and payload |
| Connection.Destroy | NylonSock/src/Sustainable.h:297-303 | after a caught error the connection is destroyed, the transport dropped and `_functions` cleared; `_nofunctions` and the bytes sent are kept, and exactly one call, of the "disconnect" signal handler, is appended when one is registered |
| Connection.Step | NylonSock/src/Sustainable.h:279-304 | nothing ready, or a readable socket with nothing queued, leaves the connection exactly as it was. One update destroys the connection exactly on an error. After an error the transport is dropped, the payload table is cleared and only "disconnect" may fire. Otherwise both tables and the transport are kept and at most one payload handler is called. The signal table and the bytes sent never change |
| Connection.Drive | NylonSock/src/Sustainable.h:491-496 | reference definition: repeated `update`, stopping at the first destroyed state, as both callers check `getDestroy()` before each update; its properties are `DriveKeepsCoherent`, `DriveEndsAtFirstRaise` and the Client lemmas |
| Connection.InitialCoherent | NylonSock/src/Sustainable.h:258-259 | a new connection satisfies the connection invariant |
| Connection.StepPreservesCoherent | NylonSock/src/Sustainable.h:279-304 | update keeps the invariant: the transport is held exactly while the connection is live, and "disconnect" has fired at most once and only once destroyed |
| Connection.StepDelivers | NylonSock/src/Sustainable.h:152-245 | a frame as emitted, queued first, reaches the payload handler registered under its name with its payload, and nothing else changes; with no handler registered the connection is exactly as before |
| Connection.LastRegistrationWins | NylonSock/src/Sustainable.h:261-264 | after `on(name, f)` then `on(name, g)`, a frame for that name calls g and only g |
| Connection.SignalTableIgnoresFrames | NylonSock/src/Sustainable.h:235-269 | a signal handler registered under a name is never called for a frame of that name and does not change payload dispatch |
| Connection.DriveKeepsCoherent | NylonSock/src/Sustainable.h:279-304 | repeated updates keep the invariant, never resurrect a destroyed connection, and fire "disconnect" at most once |
| Connection.DriveEndsAtFirstRaise | NylonSock/src/Sustainable.h:279-304 | a live connection is destroyed by the first error and not before it, later poll results are never looked at, the signal table is kept, and "disconnect" fires exactly once when a handler is registered for it |
| Connection.ClientSocket.GetDestroy | NylonSock/src/Sustainable.h:277 | `getDestroy()` reads `_destroy_flag`. It starts false (`ClientSocket.constructor`) and no operation resets it (`DriveKeepsCoherent`) |
| Connection.ClientSocket.constructor | NylonSock/src/Sustainable.h:258-259 | a new connection holds its transport, has empty tables, is not destroyed and has sent nothing |
| Connection.ClientSocket.On | NylonSock/src/Sustainable.h:261-264 | `on(name, SockFunc)` overwrites the payload handler for that name and nothing else |
| Connection.ClientSocket.OnSignal | NylonSock/src/Sustainable.h:266-269 | `on(name, NoFunc)` overwrites the signal handler for that name and nothing else |
| Connection.ClientSocket.Emit | NylonSock/src/Sustainable.h:152-177 | with the corrected encoder of the first finding: an over-long event name throws TOO_BIG and sends nothing; otherwise the frame as emitted is appended to the bytes sent |
| Connection.ClientSocket.EventCall | NylonSock/src/Sustainable.h:235-245 | the payload handler for the name, if any, is called once with the data; nothing else changes |
| Connection.ClientSocket.SignalEventCall | NylonSock/src/Sustainable.h:247-255 | the signal handler for the name, if any, is called once; nothing else changes |
| Connection.ClientSocket.RecvData | NylonSock/src/Sustainable.h:179-233 | the handler calls are those of the first frame decoded from the queued bytes, and none when nothing is queued |
| Connection.ClientSocket.Update | NylonSock/src/Sustainable.h:279-304 | the connection's new state is `Step` of its old state, and the invariant is kept |
| Server.Configure | NylonSock/src/Sustainable.h:366-367 | the onConnect callback's registrations change only the two handler tables |
| Server.Reap | NylonSock/src/Sustainable.h:372-386 | reference definition: the entries among the first n whose connection was live at the check, in order; its properties are `ReapLength`, `ReapAt`, `ReapFrom`, `CountMonotone` and `ReapDistinct` |
| Server.Advance | NylonSock/src/Sustainable.h:375-382 | reference definition: every connection after its turn, one per connection (`AdvanceAt` gives each entry) |
| Server.Sweep | NylonSock/src/Sustainable.h:372-386 | reference definition: the registry as values after one pass, the live connections after their turn in order; its properties are `SweepUpdatesLive`, `SweepOnlyLive` and `SweepKeepsCoherent` |
| Server.ReapLength | NylonSock/src/Sustainable.h:372-386 | the erase loop keeps exactly as many clients as were live at the check |
| Server.ReapAt | NylonSock/src/Sustainable.h:372-386 | a client live at the check survives, at the position given by the number of live clients before it |
| Server.ReapFrom | NylonSock/src/Sustainable.h:372-386 | every survivor is a client that was live at the check, at that same position |
| Server.CountMonotone | NylonSock/src/Sustainable.h:372-386 | survivors keep their relative order |
| Server.ReapDistinct | NylonSock/src/Sustainable.h:372-386 | erasing keeps a registry free of duplicates, and every survivor comes from the registry |
| Server.AdvanceAt | NylonSock/src/Sustainable.h:375-382 | each client's turn is `update(0)` with its own poll result when live, and no change when destroyed |
| Server.SweepUpdatesLive | NylonSock/src/Sustainable.h:372-386 | each client live at the check is updated exactly once with its own poll result and stays at its place among the survivors |
| Server.SweepOnlyLive | NylonSock/src/Sustainable.h:372-386 | every entry after the pass is the update of a client live at the check; destroyed clients are gone and were never updated |
| Server.SweepKeepsCoherent | NylonSock/src/Sustainable.h:372-386 | the pass keeps every connection's invariant, so "disconnect" fires at most once per client on the server path |
| Server.StatesOfReap | NylonSock/src/Sustainable.h:372-386 | filtering the registry and then reading its states is filtering its states |
| Server.CallOnConnect | NylonSock/src/Sustainable.h:366-367 | the callback's registrations are applied to the new connection in order |
| Server.EraseStep | NylonSock/src/Sustainable.h:372-386 | one turn of the erase loop: the iterator is at the next unvisited client; erasing a destroyed one or stepping past a live one extends the survivors by the filter's next step |
| Server.UpdateOne | NylonSock/src/Sustainable.h:375-381 | `update(0)` on one client of a duplicate-free registry changes that client's state and no other's |
| Server.SweptDone | NylonSock/src/Sustainable.h:373 | proof step of `Server.SweepClients`: when the loop reaches the end, the vector holds exactly the survivors and every client has had its turn |
| Server.TurnStep | NylonSock/src/Sustainable.h:372-386 | proof step of `Server.SweepClients`: one turn moves the boundary between visited and unvisited clients by one |
| Server.SweepOne | NylonSock/src/Sustainable.h:375-385 | one loop iteration erases the client at the iterator if it is destroyed, else updates it, and keeps the loop invariant |
| Server.SweepClients | NylonSock/src/Sustainable.h:372-386 | the erase loop leaves the survivors in order, and every client is in its state after one turn |
| Server.SweptRegistry | NylonSock/src/Sustainable.h:372-386 | after the loop the registry has no duplicates, every survivor is valid, and the survivors' states are `Sweep` of the states at the check |
| Server.Server.constructor | NylonSock/src/Sustainable.h:399-405 | a new server is stopped, has launched no thread, has an empty registry and no callback |
| Server.Server.OnConnect | NylonSock/src/Sustainable.h:423 | onConnect replaces the callback |
| Server.Server.Count | NylonSock/src/Sustainable.h:434-438 | count is the registry size |
| Server.Server.Start | NylonSock/src/Sustainable.h:440-448 | start leaves the server running and launches a thread only when the server was stopped; every launch after the first replaces an unjoined thread and ends the program in std::terminate |
| Server.Server.Stop | NylonSock/src/Sustainable.h:450 | stop leaves the server stopped |
| Server.Server.Status | NylonSock/src/Sustainable.h:452 | status is true exactly while running |
| Server.Server.Emit | NylonSock/src/Sustainable.h:425-432 | with the corrected encoder of the first finding: every live client gets the frame, destroyed ones get nothing, and no state changes otherwise; an over-long name throws TOO_BIG, exactly when some client is live, before anything is sent |
| Server.Server.Update | NylonSock/src/Sustainable.h:352-387 | with the corrected accept of the second finding: a failing accept throws and changes nothing. With no connection pending, the pass walks the registry as it was. An accepted connection is appended once, at the end, and onConnect runs on it. This includes the NULL_SOCKET that accept returns when it would block (errno EAGAIN/EWOULDBLOCK): it is pushed and configured like a real connection. A missing callback throws bad_function_call before any client is updated. Otherwise destroyed clients are erased, live ones updated, and the order is kept |
| Server.Server.Admit | NylonSock/src/Sustainable.h:355-368 | the accept half of update, with the corrected accept of the second finding: the outcomes above, with the registry's existing clients untouched. A would-block accept yields NULL_SOCKET, which is appended as a client too |
| Server.Server.UpdateClients | NylonSock/src/Sustainable.h:371-386 | the registry becomes the clients live at the check, in order, each in its state after its turn |
| Client.DriveLiveWithoutRaise | NylonSock/src/Sustainable.h:491-496 | without an error among the poll results, the loop leaves the connection live with both handler tables intact |
| Client.FirstRaise | NylonSock/src/Sustainable.h:491-496 | the index of the first error among the poll results: it is an error and none comes before it |
| Client.DriveDestroyedIffRaised | NylonSock/src/Sustainable.h:491-496 | the loop ends with the connection destroyed exactly when an error was polled |
| Client.RunOutcome | NylonSock/src/Sustainable.h:479-497 | a run from a live connection keeps its invariant and destroys it exactly when an error was polled. "disconnect" then fires once when a handler is registered, and otherwise both tables are intact |
| Client.Client.constructor | NylonSock/src/Sustainable.h:500-501 | a new client is stopped, has launched no thread, and wraps a new connection |
| Client.Client.On | NylonSock/src/Sustainable.h:519-522 | a running client overwrites the payload handler; a stopped one changes nothing |
| Client.Client.OnSignal | NylonSock/src/Sustainable.h:524-527 | a running client overwrites the signal handler; a stopped one changes nothing |
| Client.Client.Emit | NylonSock/src/Sustainable.h:529-532 | a stopped client sends nothing; a running one, with the corrected encoder of the first finding, sends the frame as emitted, or throws TOO_BIG for an over-long name and sends nothing |
| Client.Client.Start | NylonSock/src/Sustainable.h:534-542 | start leaves the client running and launches a thread only when it was stopped; every launch after the first replaces an unjoined thread and ends the program in std::terminate |
| Client.Client.Stop | NylonSock/src/Sustainable.h:544 | stop leaves the client stopped |
| Client.Client.Status | NylonSock/src/Sustainable.h:546 | status is true exactly while running |
| Client.Client.Get | NylonSock/src/Sustainable.h:548 | get returns the wrapped connection itself |
| Client.Client.Run | NylonSock/src/Sustainable.h:479-497 | the thread body always ends with the client stopped. Started from a stopped client it touches nothing; otherwise the connection ends in `Drive` of its state, updated until destroyed or until the poll results run out |

## Left out

- Operating-system calls are not modelled: socket creation, getaddrinfo, bind, listen, connect, send, `select`, `poll` and `PollFDs`. The results of poll, recv, accept and fcntl are parameters. `send` is assumed to succeed, as the next lines say. The constructors' socket set-up (`createServer`, `createListener`) is not modelled either.
- Threads, `std::atomic` and `std::mutex` are not modelled. One server pass, and one run of the client loop, is a sequential step. The destructors' `stop()` and `join()` are not modelled (`join` on a client or server that was never started dereferences a null `_thread`).
- Server.Server.Update: the server's `thr_update` loop is not modelled as such. Repeating `Update` models it only while every pass returns `Pass`. An exception escaping `update()` on that thread ends the program in std::terminate, and the model only returns it as `Fail`.
- Server.Server.Admit, Server.Server.Update: they use the corrected `Socket.Accept` of the second finding. As written, a descriptor of 128 or more is narrowed by the `char`. For example descriptor 255 with errno 0 throws "Failed to accept socket" and nothing is appended, where the model appends a client and runs onConnect.
- Server.CallOnConnect: the onConnect callback is modelled as a list of handler registrations. A callback that does anything else, such as emitting on the new connection, is not modelled. `Server.Server.Update`'s statement about the new client's state holds only for such callbacks.
- Connection.ClientSocket.Emit: it uses the corrected `Frame.EncodeFrame` of the first finding. As written, an event name over 65535 bytes is sent misframed rather than refused. A failing `send`, which throws "Failed to send data to socket", is not modelled: the frame always counts as sent.
- Server.Server.Emit: it uses the corrected encoder of the first finding, so an over-long name throws TOO_BIG at the first live client. As written, every live client is sent the misframed frame. A failing `send`, which throws and ends the broadcast at that client, is not modelled: every live client counts as sent to.
- Client.Client.Emit: it uses the corrected encoder of the first finding, where the source sends the misframed frame. A failing `send` is not modelled.
- Connection.ClientSocket.Update: `update` on a connection that is already destroyed is not modelled. It would re-create the poll set around the null `_client`. Both callers check `getDestroy()` first.
- Frame.RecvInto: the rule "nothing queued: recv returns 0 and the buffer stays zero" holds only on a non-blocking socket. The code sets O_NONBLOCK only on the server's listening socket. Accepted sockets do not inherit it on Linux, and the client's socket is never made non-blocking. On a blocking socket the later `recv` calls wait for the bytes instead.
- Frame.HeaderOnlyReadsZeros: it holds under the same non-blocking assumption. On a blocking socket a partial frame is waited for and no zero-filled dispatch happens.
- Frame.RecvFrame: its "None exactly when nothing is queued" relies on the same non-blocking assumption for the first `recv`.
- Socket.ToChar: it assumes `char` is signed, as on x86 Linux. Where `char` is unsigned, INVALID_SOCKET and SOCKET_ERROR are 255.
- Socket.Recv: it assumes a signed `char` SOCKET_ERROR of -1. With an unsigned `char`, recv's -1 is not classified as a failure.
- Socket.AcceptAsWritten: it assumes a signed `char` for both the stored descriptor and INVALID_SOCKET.
- Socket.Accept: it assumes a signed `char` INVALID_SOCKET of -1.
- Socket.Fcntl: it assumes a signed `char` for the stored result and SOCKET_ERROR.
- Client.Client.Run: a `stop()` from another thread is modelled as observed right after the last element of `polls`. The loop itself has no such bound, and its interleaving with other threads is not modelled.
- Client.Client.Emit: a running client whose connection is already destroyed would dereference the null `_client`. Emit therefore requires the connection to be live while the client runs.
- The return value of `send` is ignored, as in the code, so a frame counts as sent whole. Partial sends are not modelled.
- Received bytes are modelled as the queue on the socket at the time of `recvData`. Bytes that arrive between its `recv` calls are not modelled.
- `SockData`'s templated stream conversions (`operator T`, the `ostringstream` constructor) are not modelled. They depend on stream formatting and locale.
- The CRTP `ClientInterface` only forwards calls and is not modelled.
- `FD_Set::set(fd_set&)` (Apple only), `isset`, `get` and the `fd_set` bitmask itself are not modelled. Only the `_sock` bookkeeping is.
- Handlers are identifiers. What a handler does when it is called (for example registering further handlers or emitting) is not modelled.
- Windows branches are not modelled. Errno and flag constants are the Linux values.

## Findings

| source | as written | input that shows it | evidently intended | confidence | as-written member | corrected member |
|---|---|---|---|---|---|---|
| NylonSock/src/Sustainable.h:160 | the event-name length goes through `htons` unchecked, so it is kept modulo 65536 while all of the name's bytes are sent | an event name of 65536 bytes is announced as length 0: the receiver reads an empty name, takes as many bytes of the name as the payload is long as the payload, and reads the rest of the name and the payload as further frames | an over-long event name throws TOO_BIG, as an over-long payload does in `SockData` | not executed | Frame.FrameAsWritten, Frame.LongEventNameMisframed | Frame.EncodeFrame, Frame.FrameRoundTrip |
| NylonSock/src/Socket.cpp:290 | `::accept`'s descriptor is stored in a `char` before it is compared with INVALID_SOCKET and wrapped | descriptor 255 becomes -1: with errno 0 the connection is reported as a failed accept and leaks; descriptor 200 is wrapped as -56 | the descriptor is kept in an `int` | not executed | Socket.AcceptAsWritten, Socket.AcceptAsWrittenLosesDescriptor | Socket.Accept, Socket.AcceptAsWrittenAgreesBelow128 |
