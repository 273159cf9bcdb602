/** The thin wrappers of src/Socket.cpp that decide what a system call's
    return value means: `recv`, `accept` and `fcntl` turn the raw result and
    `errno` into a value or a NylonSock::Error, and `TimeVal` converts a
    millisecond timeout into seconds and microseconds. The system calls
    themselves are not modelled: their raw results are parameters. */
module Socket {
  import opened Wrappers

  /** The exceptions the library throws; every one is a NylonSock::Error. */
  datatype Error =
    | RecvFailed      // "Failed to receive data from socket."
    | SocketClosed    // "Receive has failed due to socket being closed"
    | AcceptFailed    // "Failed to accept socket"
    | FcntlBadArg     // "Arg to fcntl is not O_NONBLOCK or O_ASYNC"
    | FcntlFailed     // "Failed to fcntl socket"
    | TooBig(size: nat)  // TOO_BIG: a frame field longer than 65535 bytes

  /** INVALID_SOCKET and SOCKET_ERROR, both declared as `char` -1. */
  const InvalidSocket: int := -1
  const SocketErrorCode: int := -1

  /** errno values (Linux, where EWOULDBLOCK is defined as EAGAIN). */
  const EAgain: int := 11
  const EWouldBlock: int := 11

  /** The only two flags `fcntl` accepts (Linux values). */
  const ONonblock: int := 0x800
  const OAsync: int := 0x2000

  /** Storing an `int` in a `char`: two's-complement narrowing to 8 bits. */
  function ToChar(n: int): (c: int)
    ensures -128 <= c < 128
    ensures (c - n) % 256 == 0
    ensures -128 <= n < 128 ==> c == n
  {
    (n + 128) % 256 - 128
  }

  // ---------------------------------------------------------------- recv

  /** `recv`: `size` is what ::recv returned (-1 on failure, else the byte
      count). A would-block failure reads as "0 bytes", any other failure
      and an orderly close (0 bytes) throw. */
  function Recv(size: int, errno: int): (r: Result<nat, Error>)
    requires size >= -1
    ensures r == Success(0) <==> size == SocketErrorCode && errno == EWouldBlock
    ensures r == Failure(RecvFailed) <==> size == SocketErrorCode && errno != EWouldBlock
    ensures r == Failure(SocketClosed) <==> size == 0
    ensures size > 0 ==> r == Success(size)
  {
    if size == SocketErrorCode && errno != EWouldBlock then Failure(RecvFailed)
    else if size == SocketErrorCode && errno == EWouldBlock then Success(0)
    else if size == 0 then Failure(SocketClosed)
    else Success(size)
  }

  // -------------------------------------------------------------- accept

  /** What `accept` returns: a wrapped descriptor, or NULL_SOCKET when
      nothing was pending. */
  datatype Accepted = Handle(fd: int) | NullSocket

  /** `accept` AS WRITTEN: ::accept's result is stored in a `char`, so a
      descriptor of 128 or more is narrowed before it is compared with
      INVALID_SOCKET and before it is wrapped. */
  function AcceptAsWritten(ret: int, errno: int): (r: Result<Accepted, Error>)
    requires ret >= -1
    ensures r.Success? && r.value.Handle? ==> -128 <= r.value.fd < 128
  {
    var port := ToChar(ret);
    if port == InvalidSocket then
      (if errno == EAgain || errno == EWouldBlock then Success(NullSocket) else Failure(AcceptFailed))
    else Success(Handle(port))
  }

  /** `accept` as intended: the descriptor ::accept returns (-1 on
      failure) is kept whole. EAGAIN/EWOULDBLOCK yields NULL_SOCKET, every
      other failure throws, and a descriptor is returned unchanged. */
  function Accept(ret: int, errno: int): (r: Result<Accepted, Error>)
    requires ret >= -1
    ensures ret >= 0 ==> r == Success(Handle(ret))
    ensures ret == -1 ==> (r == Success(NullSocket) <==> errno == EAgain || errno == EWouldBlock)
    ensures ret == -1 ==> (r == Failure(AcceptFailed) <==> errno != EAgain && errno != EWouldBlock)
  {
    if ret == InvalidSocket then
      (if errno == EAgain || errno == EWouldBlock then Success(NullSocket) else Failure(AcceptFailed))
    else Success(Handle(ret))
  }

  /** The two readings agree exactly on descriptors below 128. */
  lemma AcceptAsWrittenAgreesBelow128(ret: int, errno: int)
    requires -1 <= ret
    ensures AcceptAsWritten(ret, errno) == Accept(ret, errno) <==> ret < 128
  {
    if ret >= 128 {
      var r := AcceptAsWritten(ret, errno);
      assert r.Success? && r.value.Handle? ==> r.value.fd < 128;
    }
  }

  /** Concrete input: ::accept hands back descriptor 255, which the `char`
      turns into -1 = INVALID_SOCKET, so with errno 0 the new connection is
      reported as a failed accept; descriptor 200 is wrapped as -56. */
  lemma AcceptAsWrittenLosesDescriptor()
    ensures Accept(255, 0) == Success(Handle(255))
    ensures AcceptAsWritten(255, 0) == Failure(AcceptFailed)
    ensures AcceptAsWritten(200, 0) == Success(Handle(-56))
  {
    assert ToChar(255) == -1;
    assert ToChar(200) == -56;
  }

  // --------------------------------------------------------------- fcntl

  /** `fcntl(sock, args)`: any argument other than O_NONBLOCK or O_ASYNC is
      rejected before the system call; otherwise `ret` is what
      ::fcntl(F_SETFL) returned, stored in a `char` and compared with
      SOCKET_ERROR. */
  function Fcntl(args: int, ret: int): (r: Outcome<Error>)
    ensures args != ONonblock && args != OAsync ==> r == Fail(FcntlBadArg)
    ensures args == ONonblock || args == OAsync ==>
              (r == Pass <==> ToChar(ret) != SocketErrorCode) &&
              (r != Pass ==> r == Fail(FcntlFailed))
  {
    if args != ONonblock && args != OAsync then Fail(FcntlBadArg)
    else if ToChar(ret) == SocketErrorCode then Fail(FcntlFailed)
    else Pass
  }

  // ------------------------------------------------------------- TimeVal

  /** TimeVal's two `int` fields. */
  datatype TimeVal = TimeVal(sec: int, usec: int)

  /** `TimeVal(unsigned int milli)`: whole seconds and the remaining
      milliseconds as microseconds. */
  function MakeTimeVal(milli: nat): (t: TimeVal)
    requires milli < 0x1_0000_0000
    ensures 0 <= t.usec < 1000000
    ensures t.sec * 1000000 + t.usec == milli * 1000
    ensures 0 <= t.sec < 0x8000_0000
  {
    TimeVal(milli / 1000, (milli % 1000) * 1000)
  }

  /** The two properties above pin the TimeVal down: any pair of a second
      count and an in-range microsecond count that denotes `milli`
      milliseconds is the one the constructor builds. */
  lemma TimeValUnique(milli: nat, t: TimeVal)
    requires milli < 0x1_0000_0000
    requires 0 <= t.usec < 1000000
    requires t.sec * 1000000 + t.usec == milli * 1000
    ensures t == MakeTimeVal(milli)
  {
    var m := MakeTimeVal(milli);
    assert (t.sec - m.sec) * 1000000 == m.usec - t.usec;
  }
}
