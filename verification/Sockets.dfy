/** UDP sockets (socketLib/CUdpSocket.cpp, with its base class socketLib/CFileDescriptor.cpp).

    A method that may throw returns None when it returns normally.  The `...Effect` functions
    specify the methods that change descriptors: the new OS state, the new value of `fd`, and
    what was thrown. */
module Sockets {
  import opened Kernel
  import opened Filter

  datatype Effect = Effect(k: Kernel, fd: int, thrown: Option<Error>)

  // closeUdpSocket keeps the descriptor when the OS does not close it.
  function CloseEffect(answer: Oracle, k: Kernel, fd: int): Effect {
    var r := SysClose(answer, k, fd);
    if r.errno.Some? then Effect(r.k, fd, Some(Error(ClosingSocket, r.errno.value, None)))
    else Effect(r.k, -1, None)
  }

  // closeAndThrowRuntimeException always throws, and mentions a failed close as well.
  function AbortEffect(answer: Oracle, k: Kernel, fd: int, matter: Matter, errno: Errno): Effect {
    var c := CloseEffect(answer, k, fd);
    Effect(c.k, c.fd, Some(Error(matter, errno, if c.thrown.Some? then Some(c.thrown.value.errno) else None)))
  }

  function CreateEffect(answer: Oracle, k: Kernel): Effect {
    var r := SysSocket(answer, k);
    Effect(r.k, r.result, if r.errno.Some? then Some(Error(OpeningSocket, r.errno.value, None)) else None)
  }

  function OpenSocketEffect(answer: Oracle, k: Kernel, fd: int): Effect {
    if fd < 0 then CreateEffect(answer, k)
    else
      var c := CloseEffect(answer, k, fd);
      if c.thrown.Some? then c else CreateEffect(answer, c.k)
  }

  function BindEffect(answer: Oracle, k: Kernel, fd: int, address: Address, port: int): Effect {
    var r := SysBind(answer, k, fd, Endpoint(address, Htons(port)));
    if r.errno.Some? then AbortEffect(answer, r.k, fd, BindingSocket, r.errno.value)
    else Effect(r.k, fd, None)
  }

  // The destructor ignores the result of its close.
  function DestroyEffect(answer: Oracle, k: Kernel, fd: int): Kernel {
    if fd >= 0 then SysClose(answer, k, fd).k else k
  }

  /* ----- Ownership ----- */

  // An object's `fd` is -1, or a descriptor that is open in the OS.
  predicate Holds(k: Kernel, fd: int) {
    fd == -1 || fd in k.socks
  }

  // What one operation of one object may do to the OS: it replaces the descriptor it held by
  // the one it holds now, which nobody else has, and leaves every other descriptor, with its
  // options and memberships, and every interface list alone.
  predicate Transfers(k: Kernel, fd: int, k': Kernel, fd': int) {
    && Sane(k') && k.calls <= k'.calls && k'.lists == k.lists
    && Holds(k', fd') && fd' !in k.socks.Keys - {fd}
    && k'.socks - {fd'} == k.socks - {fd}
  }

  // Between two states, the OS closed every open descriptor that it was asked to close.
  ghost predicate ClosesSucceed(answer: Oracle, k: Kernel, k': Kernel) {
    forall n :: k.calls <= n < k'.calls ==> answer(Close, n).Done?
  }

  lemma CloseTransfers(answer: Oracle, k: Kernel, fd: int)
    requires Sane(k) && Holds(k, fd)
    ensures var e := CloseEffect(answer, k, fd);
      && Transfers(k, fd, e.k, e.fd)
      && (e.thrown.None? ==> e.fd == -1)
      && (e.thrown.Some? ==> e.fd == fd && e.k.socks == k.socks && (ClosesSucceed(answer, k, e.k) ==> fd == -1))
  {
  }

  // The call of openUdpSocket that creates the socket; it closes an old one first.
  function SocketCall(k: Kernel, fd: int): nat {
    if fd < 0 then k.calls else k.calls + 1
  }

  ghost predicate SocketIsCreated(answer: Oracle, k: Kernel, fd: int) {
    var a := answer(Socket, SocketCall(k, fd));
    a.Done? && a.value !in k.socks.Keys - {fd}
  }

  ghost predicate OldSocketIsClosed(answer: Oracle, k: Kernel, fd: int) {
    fd >= 0 ==> answer(Close, k.calls).Done?
  }

  lemma OpenSocketTransfers(answer: Oracle, k: Kernel, fd: int)
    requires Sane(k) && Holds(k, fd)
    ensures var e := OpenSocketEffect(answer, k, fd);
      && Transfers(k, fd, e.k, e.fd)
      && (e.thrown.None? ==> e.fd >= 0 && e.k.socks[e.fd] == NEW_SOCK && e.k.calls == SocketCall(k, fd) + 1)
      && k.calls < e.k.calls
      && (e.thrown.None? <==> OldSocketIsClosed(answer, k, fd) && SocketIsCreated(answer, k, fd))
      && (e.thrown.Some? ==> e.thrown.value.matter in {ClosingSocket, OpeningSocket})
      && (e.thrown.Some? ==> e.fd == if e.thrown.value.matter == ClosingSocket then fd else -1)
      && (e.thrown.Some? && e.thrown.value.matter == ClosingSocket ==> !ClosesSucceed(answer, k, e.k))
  {
    var e := OpenSocketEffect(answer, k, fd);
    CloseTransfers(answer, k, fd);
    var c := if fd < 0 then Effect(k, -1, None) else CloseEffect(answer, k, fd);
    assert -1 !in c.k.socks;
    if c.thrown.None? {
      assert c.k.socks - {-1} == c.k.socks;
      assert e.k.socks - {e.fd} == c.k.socks;
    }
  }

  // The socket was closed before throwing, unless the OS refused to.
  ghost predicate Aborted(answer: Oracle, k: Kernel, fd: int, e: Effect, matter: Matter) {
    && k.calls < e.k.calls && e.thrown.Some? && e.thrown.value.matter == matter
    && (e.thrown.value.close.None? ==> e.fd == -1)
    && (e.thrown.value.close.Some? ==> e.fd == fd && (fd == -1 || !ClosesSucceed(answer, k, e.k)))
  }

  lemma BindTransfers(answer: Oracle, k: Kernel, fd: int, address: Address, port: int)
    requires Sane(k) && Holds(k, fd)
    ensures var e := BindEffect(answer, k, fd, address, port);
      && Transfers(k, fd, e.k, e.fd)
      && (e.thrown.None? ==>
            && e.fd == fd && fd in k.socks
            && e.k.socks[fd] == k.socks[fd].(bound := Some(Endpoint(address, Htons(port)))))
      && (e.thrown.Some? ==> Aborted(answer, k, fd, e, BindingSocket))
  {
    var r := SysBind(answer, k, fd, Endpoint(address, Htons(port)));
    assert r.k.socks - {fd} == k.socks - {fd};
    if r.errno.Some? { CloseTransfers(answer, r.k, fd); }
  }

  // A destructor closes what the object held; only a close that fails leaves it open for good.
  lemma DestroyReleases(answer: Oracle, k: Kernel, fd: int)
    requires Sane(k) && Holds(k, fd)
    ensures var k' := DestroyEffect(answer, k, fd);
      && Sane(k') && k'.lists == k.lists && (fd == -1 ==> k' == k)
      && (k'.socks == k.socks - {fd} || (k'.socks == k.socks && fd in k.socks && !ClosesSucceed(answer, k, k')))
  {
  }

  /* ----- What an exception says ----- */

  // A reference for the operations that make one system call after the other: a script names
  // what each call is for.  The first call that fails ends the script, and the exception names
  // it and its errno; if the source then closes the socket, also the errno of a failed close.
  function CallFor(m: Matter): Call {
    match m
    case ClosingSocket => Close
    case OpeningSocket => Socket
    case BindingSocket => Bind
    case RetrievingInterfaces => Getifaddrs
    case JoiningGroup => Join
    case _ => SetOption
  }

  // The errno of the n-th call; `socks` are descriptors that socket() cannot hand out.
  function ErrnoOf(answer: Oracle, socks: set<int>, m: Matter, n: nat): Option<Errno> {
    match answer(CallFor(m), n)
    case Failed(errno) => Some(errno)
    case Done(value) => if m == OpeningSocket && value in socks then Some(EMFILE) else None
  }

  function CloseErrnoOf(answer: Oracle, m: Matter, n: nat): Option<Errno> {
    if m in {ClosingSocket, OpeningSocket, RetrievingInterfaces} then None
    else match answer(Close, n) case Failed(errno) => Some(errno) case Done(_) => None
  }

  function Diagnosis(answer: Oracle, socks: set<int>, n: nat, script: seq<Matter>): Option<Error>
    decreases |script|
  {
    if script == [] then None
    else
      match ErrnoOf(answer, socks, script[0], n)
      case Some(errno) => Some(Error(script[0], errno, CloseErrnoOf(answer, script[0], n + 1)))
      case None => Diagnosis(answer, socks, n + 1, script[1..])
  }

  lemma DiagnosisOfFirst(answer: Oracle, socks: set<int>, n: nat, m: Matter, rest: seq<Matter>)
    ensures var errno := ErrnoOf(answer, socks, m, n);
      Diagnosis(answer, socks, n, [m] + rest)
      == if errno.Some? then Some(Error(m, errno.value, CloseErrnoOf(answer, m, n + 1)))
         else Diagnosis(answer, socks, n + 1, rest)
  {
    assert ([m] + rest)[1..] == rest;
  }

  lemma {:induction false} DiagnosisOfBoth(answer: Oracle, socks: set<int>, n: nat, first: seq<Matter>,
      second: seq<Matter>)
    ensures var d := Diagnosis(answer, socks, n, first);
      Diagnosis(answer, socks, n, first + second)
      == if d.Some? then d else Diagnosis(answer, socks, n + |first|, second)
    decreases |first|
  {
    if first == [] {
      assert first + second == second;
    } else {
      assert (first + second)[1..] == first[1..] + second;
      DiagnosisOfBoth(answer, socks, n + 1, first[1..], second);
    }
  }

  // closeUdpSocket and bind say which call failed, and why.  A bind that fails reports the errno
  // of the bind, whatever the close after it does to errno.
  lemma CloseAndBindDiagnose(answer: Oracle, k: Kernel, fd: int, address: Address, port: int)
    requires fd in k.socks
    ensures CloseEffect(answer, k, fd).thrown == Diagnosis(answer, {}, k.calls, [ClosingSocket])
    ensures BindEffect(answer, k, fd, address, port).thrown == Diagnosis(answer, {}, k.calls, [BindingSocket])
  {
    DiagnosisOfFirst(answer, {}, k.calls, ClosingSocket, []);
    DiagnosisOfFirst(answer, {}, k.calls, BindingSocket, []);
    assert [ClosingSocket] + [] == [ClosingSocket] && [BindingSocket] + [] == [BindingSocket];
  }

  // So does openUdpSocket.
  lemma OpenSocketDiagnoses(answer: Oracle, k: Kernel, fd: int)
    requires Sane(k) && Holds(k, fd)
    ensures OpenSocketEffect(answer, k, fd).thrown
         == Diagnosis(answer, k.socks.Keys - {fd}, k.calls, OpenSocketScript(fd))
  {
    var socks := k.socks.Keys - {fd};
    DiagnosisOfFirst(answer, socks, SocketCall(k, fd), OpeningSocket, []);
    assert [OpeningSocket] + [] == [OpeningSocket];
    if fd >= 0 {
      DiagnosisOfFirst(answer, socks, k.calls, ClosingSocket, [OpeningSocket]);
      assert (k.socks - {fd}).Keys == socks;
    } else {
      assert k.socks.Keys == socks;
    }
  }

  function OpenSocketScript(fd: int): seq<Matter> {
    if fd >= 0 then [ClosingSocket] + [OpeningSocket] else [OpeningSocket]
  }

  // Without a descriptor, the call fails with EBADF if with nothing else, and so does the close.
  lemma ClosedSocketDiagnoses(answer: Oracle, k: Kernel, address: Address, port: int)
    requires Sane(k)
    ensures CloseEffect(answer, k, -1).thrown
         == Some(Error(ClosingSocket, match answer(Close, k.calls) case Failed(e) => e case Done(_) => EBADF, None))
    ensures var e := BindEffect(answer, k, -1, address, port);
      && e.fd == -1 && e.thrown.Some? && e.thrown.value.matter == BindingSocket
      && e.thrown.value.errno == (match answer(Bind, k.calls) case Failed(e) => e case Done(_) => EBADF)
      && e.thrown.value.close
         == Some(match answer(Close, k.calls + 1) case Failed(e) => e case Done(_) => EBADF)
  {
  }

  // How receiveFrom ends at an event.
  ghost predicate ReceivedFrom(e: Event, size: nat, r: Result<nat>, source: Address, port: Port) {
    match e
    case Datagram(payload, address, wire) =>
      r == Ok(if |payload| < size then |payload| else size) && source == address && port == wire
    case RecvError(errno) =>
      && errno != EINTR
      && r == if errno == EAGAIN || errno == EWOULDBLOCK then Ok(0) else Err(Error(Receiving, errno, None))
  }

  lemma AnswerIsReceived(q: Request, last: nat, image: seq<Octet>, reply: Reply)
    requires Answerable(q) && q.source == INADDR_ANY && q.port == 0
    requires Answered(q, last + 1, image, reply) && Accepts(INADDR_ANY, 0, reply)
    ensures IsFirstStop(q.ev, INADDR_ANY, 0, q.from, last)
    ensures forall j :: q.from <= j < last ==> q.ev.At(j) == RecvError(EINTR)
    ensures reply.result >= -1
    ensures ReceivedFrom(q.ev.At(last), q.size, Conclude(reply.result, reply.errno, Receiving),
                         reply.address, reply.port)
  {
    AnswerIsJudged(q, last + 1, image, reply);
    ConcludesWithTheOutcome(q.ev.At(last), q.size, reply);
    FirstStopMeans(q.ev, INADDR_ANY, 0, q.from, last);
    OutcomeMeans(q.ev.At(last), q.size);
  }

  class UdpSocket {
    const os: Os
    var fd: int

    constructor (os: Os)
      ensures this.os == os && fd == -1
    {
      this.os, fd := os, -1;
    }

    predicate IsOpen()
      reads this
    {
      fd >= 0
    }

    // ~CFileDescriptor
    method Destroy()
      modifies this, os`k, os`errno
      ensures os.k == DestroyEffect(os.answer, old(os.k), old(fd)) && fd == -1
    {
      if fd >= 0 { var _ := os.Close(fd); }
      fd := -1;
    }

    method CloseUdpSocket() returns (thrown: Option<Error>)
      modifies this, os`k, os`errno
      ensures Effect(os.k, fd, thrown) == CloseEffect(os.answer, old(os.k), old(fd))
    {
      var result := os.Close(fd);
      if result != 0 {
        return Some(Error(ClosingSocket, os.errno, None));
      }
      fd := -1;
      return None;
    }

    method CloseAndThrowRuntimeException(matter: Matter) returns (thrown: Option<Error>)
      modifies this, os`k, os`errno
      ensures Effect(os.k, fd, thrown) == AbortEffect(os.answer, old(os.k), old(fd), matter, old(os.errno))
      ensures thrown.Some? && thrown.value.matter == matter && thrown.value.errno == old(os.errno)
    {
      var errorNbr := os.errno;
      var re := CloseUdpSocket();
      return Some(Error(matter, errorNbr, if re.Some? then Some(re.value.errno) else None));
    }

    method OpenUdpSocket() returns (thrown: Option<Error>)
      modifies this, os`k, os`errno
      ensures Effect(os.k, fd, thrown) == OpenSocketEffect(os.answer, old(os.k), old(fd))
    {
      if fd >= 0 {
        var re := CloseUdpSocket();
        if re.Some? { return re; }
      }
      fd := os.Socket();
      if fd < 0 {
        return Some(Error(OpeningSocket, os.errno, None));
      }
      return None;
    }

    method Bind(address: Address, port: int) returns (thrown: Option<Error>)
      modifies this, os`k, os`errno
      ensures Effect(os.k, fd, thrown) == BindEffect(os.answer, old(os.k), old(fd), address, port)
    {
      var result := os.Bind(fd, Endpoint(address, Htons(port)));
      if result != 0 {
        thrown := CloseAndThrowRuntimeException(BindingSocket);
        return;
      }
      return None;
    }

    // Sends the same message again while it is interrupted, and returns at the first other
    // answer.  The call ends if there is one.
    method SendTo(buffer: array<Octet>, size: nat, destination: Endpoint) returns (r: Result<nat>)
      requires size <= buffer.Length
      requires exists k :: k >= os.sent && os.send(k) != SendError(EINTR)
      modifies os`sent, os`errno, os`messages
      ensures os.sent > old(os.sent)
      ensures forall k :: old(os.sent) <= k < os.sent - 1 ==> os.send(k) == SendError(EINTR)
      ensures match os.send(os.sent - 1)
              case Sent(n) => r == Ok(n)
              case SendError(e) =>
                e != EINTR && r == if e in {EAGAIN, EWOULDBLOCK} then Ok(0) else Err(Error(Sending, e, None))
      ensures |os.messages| - |old(os.messages)| == os.sent - old(os.sent) && old(os.messages) <= os.messages
      ensures forall i :: |old(os.messages)| <= i < |os.messages| ==>
                os.messages[i] == Message(fd, buffer[..size], destination)
    {
      ghost var goal :| goal >= os.sent && os.send(goal) != SendError(EINTR);
      var result: int;
      while true
        modifies os`sent, os`errno, os`messages
        invariant old(os.sent) <= os.sent <= goal
        invariant forall k :: old(os.sent) <= k < os.sent ==> os.send(k) == SendError(EINTR)
        invariant |os.messages| - |old(os.messages)| == os.sent - old(os.sent) && old(os.messages) <= os.messages
        invariant forall i :: |old(os.messages)| <= i < |os.messages| ==>
                    os.messages[i] == Message(fd, buffer[..size], destination)
        decreases goal - os.sent
      {
        result := os.Sendto(fd, buffer, size, destination);
        if !(result == -1 && os.errno == EINTR) { break; }
      }
      return Conclude(result, os.errno, Sending);
    }

    // recvfrom, again while it is interrupted.  This loop is both in receiveFrom and, innermost,
    // in CUdpMulticastReceiver::receive; q is the call that it serves.
    method RecvUninterrupted(buffer: array<Octet>, size: nat, ghost q: Request)
      returns (result: int, address: Address, wire: Port)
      requires q.ev == os.Incoming(fd) && q.size == size && |q.before| == buffer.Length
      requires Answerable(q) && Progress(q, os.Taken(fd), buffer[..])
      modifies os`taken, os`errno, buffer
      ensures os.Taken(fd) > old(os.Taken(fd)) && os.taken - {fd} == old(os.taken) - {fd}
      ensures Answered(q, os.Taken(fd), buffer[..], Reply(result, os.errno, address, wire))
      ensures Accepts(INADDR_ANY, 0, Reply(result, os.errno, address, wire))
    {
      ghost var others, n, image := os.taken - {fd}, os.Taken(fd), buffer[..];
      result, address, wire := -1, INADDR_ANY, PORT_ZERO;
      ghost var r := Reply(result, os.errno, address, wire);
      var interrupted := true;
      while interrupted
        modifies os`taken, os`errno, buffer
        invariant os.taken - {fd} == others && n == os.Taken(fd) && image == buffer[..]
        invariant r == Reply(result, os.errno, address, wire)
        invariant old(os.Taken(fd)) <= n <= q.goal + 1 && (!interrupted ==> old(os.Taken(fd)) < n)
        invariant Retrying(interrupted, INADDR_ANY, 0, q, n, image, r)
        decreases q.goal + 1 - n, interrupted
      {
        result, address, wire := os.Recvfrom(fd, buffer, size);
        n, image, r := n + 1, buffer[..], Reply(result, os.errno, address, wire);
        AnswerIsJudged(q, n, image, r);
        interrupted := result == -1 && os.errno == EINTR;
      }
    }

    // Receives without a filter: stops at the first event that is not an EINTR.
    method ReceiveFrom(buffer: array<Octet>, size: nat) returns (r: Result<nat>, source: Address, port: Port)
      requires size <= buffer.Length
      requires exists k :: k >= os.Taken(fd) && Stops(INADDR_ANY, 0, os.Incoming(fd).At(k))
      modifies os`taken, os`errno, buffer
      ensures os.Taken(fd) > old(os.Taken(fd)) && os.taken - {fd} == old(os.taken) - {fd}
      ensures var last := os.Taken(fd) - 1; var e := os.Incoming(fd).At(last);
              && (forall j :: old(os.Taken(fd)) <= j < last ==> os.Incoming(fd).At(j) == RecvError(EINTR))
              && IsFirstStop(os.Incoming(fd), INADDR_ANY, 0, old(os.Taken(fd)), last)
              && ReceivedFrom(e, size, r, source, port)
      ensures buffer[..] == Fill(old(buffer[..]), size, os.Incoming(fd), old(os.Taken(fd)), os.Taken(fd))
    {
      ghost var goal :| goal >= os.Taken(fd) && Stops(INADDR_ANY, 0, os.Incoming(fd).At(goal));
      ghost var q := Request(os.Incoming(fd), INADDR_ANY, 0, os.Taken(fd), goal, buffer[..], size);
      var result;
      result, source, port := RecvUninterrupted(buffer, size, q);
      AnswerIsReceived(q, os.Taken(fd) - 1, buffer[..], Reply(result, os.errno, source, port));
      r := Conclude(result, os.errno, Receiving);
    }
  }
}
