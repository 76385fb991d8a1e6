/** The operating system behind CSocketProxy and CClock.

    Every answer of the OS comes from an oracle that the proofs know nothing about, so a theorem
    for all oracles is a theorem for every behaviour of the OS.  `Kernel` is the part of the OS
    state that outlives a call; the `Sys...` functions say what one system call does to it. */
module Kernel {
  import opened Times

  datatype Option<+T> = None | Some(value: T)

  datatype Errno = EINTR | EAGAIN | EWOULDBLOCK | EBADF | EMFILE | Code(number: int)

  // The std::runtime_error of the source: what failed, with which errno, and the errno of the
  // close that was tried before throwing, if that failed too.
  datatype Matter =
    | ClosingSocket | OpeningSocket | BindingSocket | SettingReuseAddress | RetrievingInterfaces
    | JoiningGroup | SettingMulticastAll | Receiving | Sending | ReadingClock | Selecting

  datatype Error = Error(matter: Matter, errno: Errno, close: Option<Errno>)

  datatype Result<+T> = Ok(value: T) | Err(error: Error)

  // An in_addr_t in network byte order, as its four octets in memory; inet_addr("a.b.c.d") is
  // Address(a, b, c, d).
  type Octet = o: int | 0 <= o < 0x100
  datatype Address = Address(a: Octet, b: Octet, c: Octet, d: Octet)
  const INADDR_ANY := Address(0, 0, 0, 0)

  // A sin_port in network byte order: the high octet comes first.
  datatype Port = Port(high: Octet, low: Octet)
  const PORT_ZERO := Port(0, 0)

  // htons truncates its argument to 16 bits.
  function Htons(n: int): Port {
    Port(n / 0x100 % 0x100, n % 0x100)
  }

  function Ntohs(p: Port): nat {
    0x100 * p.high + p.low
  }

  lemma NtohsInvertsHtons(n: int, p: Port)
    ensures Ntohs(Htons(n)) == n % 0x1_0000
    ensures Htons(Ntohs(p)) == p
  {
    LowDigits(n / 0x100 / 0x100, Htons(n));
    LowDigits(0, p);
  }

  // Two digits in base 256, whatever comes before them.
  lemma LowDigits(q: int, p: Port)
    ensures (0x1_0000 * q + Ntohs(p)) % 0x1_0000 == Ntohs(p)
    ensures Htons(0x1_0000 * q + Ntohs(p)) == p
  {
    assert (0x1_0000 * q + Ntohs(p)) / 0x100 == 0x100 * q + p.high;
  }

  /* ----- Calls that change descriptors, sockets and interface lists ----- */

  datatype Call = Socket | Close | Bind | SetOption | Join | Getifaddrs

  datatype Answer = Done(value: nat) | Failed(errno: Errno)

  // What the OS answers when its n-th call happens to be of the given kind.
  type Oracle = (Call, nat) -> Answer

  datatype Membership = Membership(group: Address, source: Address, interface: Address)

  datatype Endpoint = Endpoint(address: Address, port: Port)

  // A socket option is identified by its level and its name.
  datatype SocketOption = SocketOption(level: int, name: int)
  const SO_REUSEADDR := SocketOption(1, 2)            // at level SOL_SOCKET
  const MULTICAST_ALL_AT_SOL_SOCKET := SocketOption(1, 49)
  const MULTICAST_ALL_AT_IPPROTO_IP := SocketOption(0, 49)

  datatype Sock = Sock(options: map<SocketOption, int>, bound: Option<Endpoint>, joined: seq<Membership>)
  const NEW_SOCK := Sock(map[], None, [])

  datatype Kernel = Kernel(
    socks: map<int, Sock>,   // the open descriptors
    lists: set<nat>,         // interface lists handed out and not yet freed
    calls: nat)              // how many system calls were made

  // Descriptors are not negative, and a list is named after the call that made it.
  predicate Sane(k: Kernel) {
    (forall d :: d in k.socks ==> d >= 0) && (forall l :: l in k.lists ==> l < k.calls)
  }

  // The state after a call, what it returned, and its errno if it returned -1.
  datatype Returned = Returned(k: Kernel, result: int, errno: Option<Errno>)

  function Refuse(k: Kernel, errno: Errno): Returned {
    Returned(k, -1, Some(errno))
  }

  function Ask(answer: Oracle, call: Call, k: Kernel): Returned {
    var next := k.(calls := k.calls + 1);
    match answer(call, k.calls)
    case Done(_) => Returned(next, 0, None)
    case Failed(e) => Refuse(next, e)
  }

  // The OS picks any descriptor that is not open.
  function SysSocket(answer: Oracle, k: Kernel): Returned {
    var a := Ask(answer, Socket, k);
    if a.errno.Some? then a
    else
      var d := answer(Socket, k.calls).value;
      if d in k.socks then Refuse(a.k, EMFILE)
      else Returned(a.k.(socks := k.socks[d := NEW_SOCK]), d, None)
  }

  // A close that fails leaves the descriptor open.
  function SysClose(answer: Oracle, k: Kernel, fd: int): Returned {
    var a := Ask(answer, Close, k);
    if a.errno.Some? then a
    else if fd !in k.socks then Refuse(a.k, EBADF)
    else a.(k := a.k.(socks := k.socks - {fd}))
  }

  function SysUpdate(answer: Oracle, call: Call, k: Kernel, fd: int, change: Sock -> Sock): Returned {
    var a := Ask(answer, call, k);
    if a.errno.Some? then a
    else if fd !in k.socks then Refuse(a.k, EBADF)
    else a.(k := a.k.(socks := k.socks[fd := change(k.socks[fd])]))
  }

  function SysBind(answer: Oracle, k: Kernel, fd: int, e: Endpoint): Returned {
    SysUpdate(answer, Bind, k, fd, (s: Sock) => s.(bound := Some(e)))
  }

  function SysSetOption(answer: Oracle, k: Kernel, fd: int, option: SocketOption, value: int): Returned {
    SysUpdate(answer, SetOption, k, fd, (s: Sock) => s.(options := s.options[option := value]))
  }

  function SysJoin(answer: Oracle, k: Kernel, fd: int, m: Membership): Returned {
    SysUpdate(answer, Join, k, fd, (s: Sock) => s.(joined := s.joined + [m]))
  }

  /* ----- Interface lists ----- */

  datatype IfEntry =
    | NoAddress                            // ifa_addr is NULL
    | Inet(address: Address, mask: Address)
    | OtherFamily

  // The interfaces that exist when the n-th system call is made.
  type Network = nat -> seq<IfEntry>

  // A successful call with nothing to report returns NULL and hands out no list.
  function SysGetifaddrs(answer: Oracle, network: Network, k: Kernel): Returned {
    var a := Ask(answer, Getifaddrs, k);
    if a.errno.Some? || network(k.calls) == [] then a
    else a.(k := a.k.(lists := k.lists + {k.calls}))
  }

  // One node of the linked list that getifaddrs allocates; `block` names the whole list.
  class Ifaddrs {
    const entry: IfEntry
    const next: Ifaddrs?
    const block: nat

    constructor (entry: IfEntry, next: Ifaddrs?, block: nat)
      ensures this.entry == entry && this.next == next && this.block == block
    {
      this.entry, this.next, this.block := entry, next, block;
    }
  }

  ghost predicate Lists(p: Ifaddrs?, entries: seq<IfEntry>) {
    if p == null then entries == []
    else entries != [] && p.entry == entries[0] && Lists(p.next, entries[1..])
  }

  /* ----- Answers of recvfrom, sendto, clock_gettime and pselect ----- */

  datatype Event =
    | Datagram(payload: seq<Octet>, address: Address, port: Port)
    | RecvError(errno: Errno)

  // The answers of successive calls, without end.
  datatype Stream = Stream(answers: nat -> Event) {
    function At(k: nat): Event {
      answers(k)
    }
  }

  datatype SendAnswer = Sent(count: nat) | SendError(errno: Errno)

  // A reading of CLOCK_MONOTONIC is normalised, as POSIX.1-2017 clock_gettime() specifies.
  type Moment = t: Stamp | Normal(t) && 0 <= t.sec < 0x4000_0000_0000_0000 witness Stamp(0, 0)

  // The arguments of one sendto call.
  datatype Message = Message(fd: int, bytes: seq<Octet>, destination: Endpoint)

  datatype ClockAnswer = Reading(at: Moment) | ClockError(errno: Errno)

  // pselect overwrites both masks, whatever its result.
  datatype SelectAnswer = SelectAnswer(result: int, errno: Errno, readMask: set<int>, writeMask: set<int>)

  datatype SelectCall = SelectCall(nfds: int, readMask: set<int>, writeMask: set<int>, timeout: Stamp)

  function Min(a: nat, b: nat): nat {
    if a < b then a else b
  }

  // What recvfrom leaves in a buffer of which it may use the first `size` bytes.
  function Deposit(buffer: seq<Octet>, size: nat, e: Event): (r: seq<Octet>)
    requires size <= |buffer|
    ensures |r| == |buffer|
  {
    if e.RecvError? then buffer
    else var n := Min(|e.payload|, size); e.payload[..n] + buffer[n..]
  }

  // What recvfrom returns, and the errno, source address and source port it leaves.
  datatype Reply = Reply(result: int, errno: Errno, address: Address, port: Port)

  predicate Reports(e: Event, size: nat, r: Reply) {
    match e
    case Datagram(payload, a, p) => r.result == Min(|payload|, size) && r.address == a && r.port == p
    case RecvError(code) => r.result == -1 && r.errno == code
  }

  // The clock readings and pselect answers still to come: round i of a wait gets Clock(i) and,
  // if it selects, Poll(i).
  datatype Trace = Trace(clock: nat -> ClockAnswer, polls: nat -> SelectAnswer, ticks: nat, polled: nat) {
    function Clock(i: nat): ClockAnswer {
      clock(ticks + i)
    }

    function Poll(i: nat): SelectAnswer {
      polls(polled + i)
    }
  }

  class Os {
    const answer: Oracle
    const network: Network
    const recv: int -> Stream      // per descriptor, the answers of its recvfrom calls
    const send: nat -> SendAnswer
    const clock: nat -> ClockAnswer
    const polls: nat -> SelectAnswer

    var k: Kernel
    var errno: Errno
    var taken: map<int, nat>             // per descriptor, how many recvfrom calls were answered
    var sent: nat                        // sendto calls answered
    ghost var messages: seq<Message>     // the arguments of every sendto call
    var ticks: nat                       // clock readings handed out
    var polled: nat                      // pselect calls answered
    ghost var log: seq<SelectCall>       // the arguments of every pselect call

    constructor (answer: Oracle, network: Network, recv: int -> Stream, send: nat -> SendAnswer,
                 clock: nat -> ClockAnswer, polls: nat -> SelectAnswer)
      ensures k == Kernel(map[], {}, 0) && Sane(k)
    {
      this.answer, this.network, this.recv, this.send := answer, network, recv, send;
      this.clock, this.polls := clock, polls;
      k, errno := Kernel(map[], {}, 0), Code(0);
      taken, sent, ticks, polled, log, messages := map[], 0, 0, 0, [], [];
    }

    function Incoming(fd: int): Stream {
      recv(fd)
    }

    function Upcoming(): Trace
      reads `ticks, `polled
    {
      Trace(clock, polls, ticks, polled)
    }

    function Taken(fd: int): nat
      reads `taken
    {
      if fd in taken then taken[fd] else 0
    }

    method Return(r: Returned) returns (result: int)
      modifies `k, `errno
      ensures k == r.k && result == r.result && (r.errno.Some? ==> errno == r.errno.value)
    {
      k := r.k;
      if r.errno.Some? { errno := r.errno.value; }
      result := r.result;
    }

    method Socket() returns (fd: int)
      modifies `k, `errno
      ensures var r := SysSocket(answer, old(k));
              k == r.k && fd == r.result && (r.errno.Some? ==> errno == r.errno.value)
    {
      fd := Return(SysSocket(answer, k));
    }

    method Close(fd: int) returns (result: int)
      modifies `k, `errno
      ensures var r := SysClose(answer, old(k), fd);
              k == r.k && result == r.result && (r.errno.Some? ==> errno == r.errno.value)
    {
      result := Return(SysClose(answer, k, fd));
    }

    method Bind(fd: int, e: Endpoint) returns (result: int)
      modifies `k, `errno
      ensures var r := SysBind(answer, old(k), fd, e);
              k == r.k && result == r.result && (r.errno.Some? ==> errno == r.errno.value)
    {
      result := Return(SysBind(answer, k, fd, e));
    }

    method SetOption(fd: int, option: SocketOption, value: int) returns (result: int)
      modifies `k, `errno
      ensures var r := SysSetOption(answer, old(k), fd, option, value);
              k == r.k && result == r.result && (r.errno.Some? ==> errno == r.errno.value)
    {
      result := Return(SysSetOption(answer, k, fd, option, value));
    }

    method Join(fd: int, m: Membership) returns (result: int)
      modifies `k, `errno
      ensures var r := SysJoin(answer, old(k), fd, m);
              k == r.k && result == r.result && (r.errno.Some? ==> errno == r.errno.value)
    {
      result := Return(SysJoin(answer, k, fd, m));
    }

    method Getifaddrs() returns (result: int, head: Ifaddrs?)
      modifies `k, `errno
      ensures var r := SysGetifaddrs(answer, network, old(k));
              k == r.k && result == r.result && (r.errno.Some? ==> errno == r.errno.value)
      ensures result == -1 ==> head == null
      ensures result != -1 ==> Lists(head, network(old(k.calls)))
      ensures head != null ==> head.block == old(k.calls)
    {
      var n := k.calls;
      result := Return(SysGetifaddrs(answer, network, k));
      head := null;
      if result != -1 {
        var entries := network(n);
        var i := |entries|;
        while i > 0
          modifies {}
          invariant 0 <= i <= |entries| && Lists(head, entries[i..])
          invariant head != null ==> head.block == n
        {
          i := i - 1;
          head := new Ifaddrs(entries[i], head, n);
          assert entries[i..][1..] == entries[i + 1..];
        }
        assert entries[0..] == entries;
      }
    }

    // A list may be freed once only: freeing it takes it out of `lists`.
    method Freeifaddrs(p: Ifaddrs)
      requires p.block in k.lists
      modifies `k
      ensures k == old(k).(lists := old(k).lists - {p.block})
    {
      k := k.(lists := k.lists - {p.block});
    }

    method Recvfrom(fd: int, buffer: array<Octet>, size: nat) returns (result: int, address: Address, port: Port)
      requires size <= buffer.Length
      modifies `taken, `errno, buffer
      ensures Taken(fd) == old(Taken(fd)) + 1 && taken - {fd} == old(taken) - {fd}
      ensures buffer[..] == Deposit(old(buffer[..]), size, Incoming(fd).At(old(Taken(fd))))
      ensures Reports(Incoming(fd).At(old(Taken(fd))), size, Reply(result, errno, address, port))
    {
      var e := Incoming(fd).At(Taken(fd));
      taken := taken[fd := Taken(fd) + 1];
      address, port := INADDR_ANY, PORT_ZERO;
      match e {
        case Datagram(payload, a, p) =>
          result, address, port := Min(|payload|, size), a, p;
          forall i | 0 <= i < result { buffer[i] := payload[i]; }
        case RecvError(code) =>
          result, errno := -1, code;
      }
    }

    method Sendto(fd: int, buffer: array<Octet>, size: nat, destination: Endpoint) returns (result: int)
      requires size <= buffer.Length
      modifies `sent, `errno, `messages
      ensures sent == old(sent) + 1
      ensures messages == old(messages) + [Message(fd, buffer[..size], destination)]
      ensures match send(old(sent))
              case Sent(n) => result == n
              case SendError(code) => result == -1 && errno == code
    {
      match send(sent) {
        case Sent(n) => result := n;
        case SendError(code) => result, errno := -1, code;
      }
      sent := sent + 1;
      messages := messages + [Message(fd, buffer[..size], destination)];
    }

    // CClock::getMonotonicTime; None stands for a normal return.
    method GetMonotonicTime(t: Time) returns (error: Option<Errno>)
      modifies `ticks, t
      ensures ticks == old(ticks) + 1
      ensures match clock(old(ticks))
              case Reading(at) => error == None && t.Value() == at
              case ClockError(code) => error == Some(code)
    {
      match clock(ticks) {
        case Reading(at) =>
          error := None;
          t.sec, t.nsec := at.sec as long, at.nsec as long;
        case ClockError(code) =>
          error := Some(code);
      }
      ticks := ticks + 1;
    }

    method Pselect(nfds: int, readMask: set<int>, writeMask: set<int>, timeout: Time)
      returns (result: int, readAfter: set<int>, writeAfter: set<int>)
      modifies `polled, `errno, `log
      ensures polled == old(polled) + 1
      ensures var a := polls(old(polled));
              && result == a.result && (result == -1 ==> errno == a.errno)
              && readAfter == a.readMask && writeAfter == a.writeMask
      ensures log == old(log) + [SelectCall(nfds, readMask, writeMask, timeout.Value())]
    {
      var a := polls(polled);
      result, readAfter, writeAfter := a.result, a.readMask, a.writeMask;
      if result == -1 { errno := a.errno; }
      polled := polled + 1;
      log := log + [SelectCall(nfds, readMask, writeMask, timeout.Value())];
    }
  }
}
