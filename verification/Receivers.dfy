/** Multicast receivers (socketLib/CUdpMulticastReceiver.cpp). */
module Receivers {
  import opened Kernel
  import opened Interfaces
  import opened Filter
  import opened Sockets

  datatype Config = Config(group: Address, groupPort: int, source: Address, sourcePort: int)

  /* ----- open ----- */

  function MembershipsOf(c: Config, interfaces: seq<Address>): seq<Membership> {
    seq(|interfaces|, i requires 0 <= i < |interfaces| => Membership(c.group, c.source, interfaces[i]))
  }

  // Join on each interface in turn; the first refusal closes the socket.
  function JoinEffect(answer: Oracle, k: Kernel, fd: int, c: Config, interfaces: seq<Address>): Effect
    decreases |interfaces|
  {
    if interfaces == [] then Effect(k, fd, None)
    else
      var r := SysJoin(answer, k, fd, Membership(c.group, c.source, interfaces[0]));
      if r.errno.Some? then AbortEffect(answer, r.k, fd, JoiningGroup, r.errno.value)
      else JoinEffect(answer, r.k, fd, c, interfaces[1..])
  }

  function OptionEffect(answer: Oracle, k: Kernel, fd: int, option: SocketOption, value: int, matter: Matter): Effect {
    var r := SysSetOption(answer, k, fd, option, value);
    if r.errno.Some? then AbortEffect(answer, r.k, fd, matter, r.errno.value) else Effect(r.k, fd, None)
  }

  // The interfaces to join on: all of them for INADDR_ANY, else the one on the source's subnet.
  function JoinQuery(answer: Oracle, network: Network, k: Kernel, source: Address): Result<seq<Address>> {
    if source == INADDR_ANY then AddressQuery(answer, network, k, INADDR_ANY, INADDR_ANY)
    else
      match SubnetQuery(answer, network, k, source)
      case Ok(interface) => Ok([interface])
      case Err(e) => Err(e)
  }

  // Query the interfaces, then join.  An exception from the query leaves the socket as it is,
  // where all other failures close it.
  function JoinAllEffect(answer: Oracle, network: Network, k: Kernel, fd: int, c: Config): Effect {
    match JoinQuery(answer, network, k, c.source)
    case Err(e) => Effect(AfterQuery(k), fd, Some(e))
    case Ok(interfaces) => JoinEffect(answer, AfterQuery(k), fd, c, interfaces)
  }

  // What open does once the socket is there.
  function ConfigureEffect(answer: Oracle, network: Network, k: Kernel, fd: int, c: Config): Effect {
    var reuse := OptionEffect(answer, k, fd, SO_REUSEADDR, 1, SettingReuseAddress);
    if reuse.thrown.Some? then reuse else
    var bound := BindEffect(answer, reuse.k, reuse.fd, INADDR_ANY, c.groupPort);
    if bound.thrown.Some? then bound else
    var joined := JoinAllEffect(answer, network, bound.k, bound.fd, c);
    if joined.thrown.Some? then joined
    else OptionEffect(answer, joined.k, joined.fd, MULTICAST_ALL_AT_SOL_SOCKET, 0, SettingMulticastAll)
  }

  function OpenEffect(answer: Oracle, network: Network, k: Kernel, fd: int, c: Config): Effect {
    var created := OpenSocketEffect(answer, k, fd);
    if created.thrown.Some? then created
    else ConfigureEffect(answer, network, created.k, created.fd, c)
  }

  lemma OptionTransfers(answer: Oracle, k: Kernel, fd: int, option: SocketOption, value: int, matter: Matter)
    requires Sane(k) && Holds(k, fd)
    ensures var e := OptionEffect(answer, k, fd, option, value, matter);
      && Transfers(k, fd, e.k, e.fd)
      && (e.thrown.None? ==>
            && e.fd == fd && fd in k.socks
            && e.k.socks[fd] == k.socks[fd].(options := k.socks[fd].options[option := value]))
      && (e.thrown.Some? ==> Aborted(answer, k, fd, e, matter))
  {
    var r := SysSetOption(answer, k, fd, option, value);
    assert r.k.socks - {fd} == k.socks - {fd};
    if r.errno.Some? { CloseTransfers(answer, r.k, fd); }
  }

  lemma {:induction false} JoinTransfers(answer: Oracle, k: Kernel, fd: int, c: Config, interfaces: seq<Address>)
    requires Sane(k) && fd in k.socks
    ensures var e := JoinEffect(answer, k, fd, c, interfaces);
      && Transfers(k, fd, e.k, e.fd)
      && (e.thrown.None? ==>
            && e.fd == fd
            && e.k.socks[fd] == k.socks[fd].(joined := k.socks[fd].joined + MembershipsOf(c, interfaces)))
      && (e.thrown.Some? ==> Aborted(answer, k, fd, e, JoiningGroup))
      && (e.thrown.Some? && e.fd == fd ==> e.k.socks[fd].joined <= k.socks[fd].joined + MembershipsOf(c, interfaces))
    decreases |interfaces|
  {
    if interfaces == [] {
      assert k.socks[fd].joined + MembershipsOf(c, interfaces) == k.socks[fd].joined;
    } else {
      var m := Membership(c.group, c.source, interfaces[0]);
      var r := SysJoin(answer, k, fd, m);
      assert r.k.socks - {fd} == k.socks - {fd};
      if r.errno.Some? {
        CloseTransfers(answer, r.k, fd);
      } else {
        JoinTransfers(answer, r.k, fd, c, interfaces[1..]);
        assert k.socks[fd].joined + [m] + MembershipsOf(c, interfaces[1..])
            == k.socks[fd].joined + MembershipsOf(c, interfaces);
      }
    }
  }

  // A socket that open has set up, given the interfaces that existed.  It joined the group once
  // on each of the right interfaces.  The MULTICAST_ALL option is not set at level IPPROTO_IP.
  ghost predicate IsConfigured(entries: seq<IfEntry>, c: Config, s: Sock) {
    && s.bound == Some(Endpoint(INADDR_ANY, Htons(c.groupPort)))
    && s.options == map[SO_REUSEADDR := 1, MULTICAST_ALL_AT_SOL_SOCKET := 0]
    && HasJoined(entries, c, s.joined)
  }

  ghost predicate HasJoined(entries: seq<IfEntry>, c: Config, joined: seq<Membership>) {
    && (forall i, j :: 0 <= i < j < |joined| ==> joined[i] != joined[j])
    && if c.source == INADDR_ANY then
         forall m :: m in joined <==> m.group == c.group && m.source == c.source && Present(entries, m.interface)
       else joined == [Membership(c.group, c.source, FirstOnSubnet(entries, c.source))]
  }

  lemma QueryGivesTheInterfaces(answer: Oracle, network: Network, k: Kernel, c: Config)
    requires JoinQuery(answer, network, k, c.source).Ok?
    ensures HasJoined(network(k.calls), c, MembershipsOf(c, JoinQuery(answer, network, k, c.source).value))
  {
    var interfaces := JoinQuery(answer, network, k, c.source).value;
    var joined := MembershipsOf(c, interfaces);
    if c.source == INADDR_ANY {
      UnmaskedQueryReturnsEveryAddress(network(k.calls));
      AscendingFacts(interfaces);
      forall m ensures m in joined <==> m.group == c.group && m.source == c.source && m.interface in interfaces {
        if m.group == c.group && m.source == c.source && m.interface in interfaces {
          var i :| 0 <= i < |interfaces| && interfaces[i] == m.interface;
          assert joined[i] == m;
        }
      }
    }
  }

  lemma JoinAllTransfers(answer: Oracle, network: Network, k: Kernel, fd: int, c: Config)
    requires Sane(k) && fd in k.socks && k.socks[fd].joined == []
    ensures var e := JoinAllEffect(answer, network, k, fd, c);
      && Transfers(k, fd, e.k, e.fd)
      && (e.thrown.None? ==> e.fd == fd && e.k.socks[fd] == k.socks[fd].(joined := e.k.socks[fd].joined))
      && (e.thrown.None? ==> HasJoined(network(k.calls), c, e.k.socks[fd].joined))
      && (if answer(Getifaddrs, k.calls).Failed? then QueryThrew(fd, e)
          else e.thrown.Some? ==> Aborted(answer, k, fd, e, JoiningGroup))
  {
    var query := JoinQuery(answer, network, k, c.source);
    if query.Ok? {
      JoinTransfers(answer, AfterQuery(k), fd, c, query.value);
      assert [] + MembershipsOf(c, query.value) == MembershipsOf(c, query.value);
      QueryGivesTheInterfaces(answer, network, k, c);
    }
  }

  // The socket is still there, with the options and the binding it got, but without memberships.
  ghost predicate QueryThrew(fd: int, e: Effect) {
    && e.thrown.Some? && e.thrown.value.matter == RetrievingInterfaces
    && e.fd == fd && fd in e.k.socks && e.k.socks[fd].joined == []
  }

  // The part of open after the creation of the socket: what a normal return sets up, and where
  // the descriptor ends up otherwise.
  lemma ConfigureTransfers(answer: Oracle, network: Network, k: Kernel, fd: int, c: Config)
    requires Sane(k) && fd in k.socks && k.socks[fd] == NEW_SOCK
    ensures var e := ConfigureEffect(answer, network, k, fd, c);
      && Transfers(k, fd, e.k, e.fd)
      && (e.thrown.None? ==> e.fd == fd && IsConfigured(network(k.calls + 2), c, e.k.socks[fd]))
      && (if answer(SetOption, k.calls).Done? && answer(Bind, k.calls + 1).Done? && answer(Getifaddrs,
          k.calls + 2).Failed?
          then QueryThrew(fd, e)
          else e.thrown.Some? ==> ConfigureAborted(answer, k, fd, e))
  {
    var reuse := OptionEffect(answer, k, fd, SO_REUSEADDR, 1, SettingReuseAddress);
    OptionTransfers(answer, k, fd, SO_REUSEADDR, 1, SettingReuseAddress);
    if reuse.thrown.None? {
      var bound := BindEffect(answer, reuse.k, fd, INADDR_ANY, c.groupPort);
      BindTransfers(answer, reuse.k, fd, INADDR_ANY, c.groupPort);
      if bound.thrown.None? {
        var joined := JoinAllEffect(answer, network, bound.k, fd, c);
        JoinAllTransfers(answer, network, bound.k, fd, c);
        if joined.thrown.None? {
          OptionTransfers(answer, joined.k, fd, MULTICAST_ALL_AT_SOL_SOCKET, 0, SettingMulticastAll);
        }
      }
    }
  }

  ghost predicate ConfigureAborted(answer: Oracle, k: Kernel, fd: int, e: Effect) {
    e.thrown.Some? && Aborted(answer, k, fd, e, e.thrown.value.matter)
    && e.thrown.value.matter in {SettingReuseAddress, BindingSocket, JoiningGroup, SettingMulticastAll}
  }

  // Normal return: the object holds a new socket, set up completely, and no other descriptor
  // or membership in the system has changed.
  lemma OpenTransfers(answer: Oracle, network: Network, k: Kernel, fd: int, c: Config)
    requires Sane(k) && Holds(k, fd)
    ensures var e := OpenEffect(answer, network, k, fd, c);
      && Transfers(k, fd, e.k, e.fd) && k.calls < e.k.calls
      && (e.thrown.None? ==> e.fd >= 0 && IsConfigured(network(SocketCall(k, fd) + 3), c, e.k.socks[e.fd]))
  {
    var created := OpenSocketEffect(answer, k, fd);
    OpenSocketTransfers(answer, k, fd);
    if created.thrown.None? {
      ConfigureTransfers(answer, network, created.k, created.fd, c);
      var e := ConfigureEffect(answer, network, created.k, created.fd, c);
      TransfersCompose(k, fd, created.k, created.fd, e.k, e.fd);
    }
  }

  // An open reaches its interface query, and the query throws.
  ghost predicate QueryThrows(answer: Oracle, k: Kernel, fd: int) {
    var n := SocketCall(k, fd);
    && SocketIsCreated(answer, k, fd)
    && answer(SetOption, n + 1).Done? && answer(Bind, n + 2).Done? && answer(Getifaddrs, n + 3).Failed?
  }

  // Where a throwing open leaves the descriptor: no partial membership survives unless the OS
  // refused to close the socket.
  lemma FailedOpen(answer: Oracle, network: Network, k: Kernel, fd: int, c: Config)
    requires Sane(k) && Holds(k, fd) && OpenEffect(answer, network, k, fd, c).thrown.Some?
    ensures var e := OpenEffect(answer, network, k, fd, c);
      match e.thrown.value.matter
      case ClosingSocket => e.fd == fd && !ClosesSucceed(answer, k, e.k)
      case OpeningSocket => e.fd == -1
      case RetrievingInterfaces => e.fd >= 0 && QueryThrew(e.fd, e) && QueryThrows(answer, k, fd)
      case _ => (e.thrown.value.close.None? <==> e.fd == -1) && (ClosesSucceed(answer, k, e.k) ==> e.fd == -1)
  {
    var created := OpenSocketEffect(answer, k, fd);
    OpenSocketTransfers(answer, k, fd);
    if created.thrown.None? {
      ConfigureTransfers(answer, network, created.k, created.fd, c);
    }
  }

  lemma TransfersCompose(k0: Kernel, fd0: int, k1: Kernel, fd1: int, k2: Kernel, fd2: int)
    requires Transfers(k0, fd0, k1, fd1) && Transfers(k1, fd1, k2, fd2)
    ensures Transfers(k0, fd0, k2, fd2)
  {
    assert (k1.socks - {fd1}).Keys == (k0.socks - {fd0}).Keys;
  }

  lemma QueryThrowsLeavesOpen(answer: Oracle, network: Network, k: Kernel, fd: int, c: Config)
    requires Sane(k) && Holds(k, fd) && OldSocketIsClosed(answer, k, fd) && QueryThrows(answer, k, fd)
    ensures var e := OpenEffect(answer, network, k, fd, c); e.thrown.Some? && e.fd != -1
  {
    var created := OpenSocketEffect(answer, k, fd);
    OpenSocketTransfers(answer, k, fd);
    ConfigureTransfers(answer, network, created.k, created.fd, c);
  }

  // If the OS closes what this open asks it to close, an open that throws leaves the object
  // closed, except exactly when it was the interface query that threw.
  lemma FailedOpenStaysOpenIffTheQueryThrew(answer: Oracle, network: Network, k: Kernel, fd: int, c: Config)
    requires Sane(k) && Holds(k, fd) && ClosesSucceed(answer, k, OpenEffect(answer, network, k, fd, c).k)
    ensures var e := OpenEffect(answer, network, k, fd, c);
      e.thrown.Some? && e.fd != -1 <==> QueryThrows(answer, k, fd)
  {
    OpenTransfers(answer, network, k, fd, c);
    if OpenEffect(answer, network, k, fd, c).thrown.Some? { FailedOpen(answer, network, k, fd, c); }
    if QueryThrows(answer, k, fd) { QueryThrowsLeavesOpen(answer, network, k, fd, c); }
  }

  // The interfaces that the n-th system call finds for a source, if it is the query of an open.
  function InterfacesAt(network: Network, n: nat, source: Address): seq<Address> {
    if source == INADDR_ANY then Collect([], network(n), INADDR_ANY, INADDR_ANY)
    else [FirstOnSubnet(network(n), source)]
  }

  ghost predicate JoinsSucceed(answer: Oracle, n: nat, count: nat) {
    forall j: nat :: n <= j < n + count ==> answer(Join, j).Done?
  }

  // The system calls that an open makes once the socket is there, from the n-th on.
  ghost predicate ConfigureStepsSucceed(answer: Oracle, network: Network, n: nat, c: Config) {
    var joins := |InterfacesAt(network, n + 2, c.source)|;
    && answer(SetOption, n).Done? && answer(Bind, n + 1).Done? && answer(Getifaddrs, n + 2).Done?
    && JoinsSucceed(answer, n + 3, joins) && answer(SetOption, n + 3 + joins).Done?
  }

  // open returns normally if and only if the OS does each thing that it is asked to do.
  lemma OpenSucceedsIff(answer: Oracle, network: Network, k: Kernel, fd: int, c: Config)
    requires Sane(k) && Holds(k, fd)
    ensures OpenEffect(answer, network, k, fd, c).thrown.None? <==>
      && OldSocketIsClosed(answer, k, fd) && SocketIsCreated(answer, k, fd)
      && ConfigureStepsSucceed(answer, network, SocketCall(k, fd) + 1, c)
  {
    var created := OpenSocketEffect(answer, k, fd);
    OpenSocketTransfers(answer, k, fd);
    if created.thrown.None? {
      ConfigureSucceedsIff(answer, network, created.k, created.fd, c);
    }
  }

  lemma ConfigureSucceedsIff(answer: Oracle, network: Network, k: Kernel, fd: int, c: Config)
    requires fd in k.socks
    ensures ConfigureEffect(answer, network, k, fd, c).thrown.None?
       <==> ConfigureStepsSucceed(answer, network, k.calls, c)
  {
    var reuse := OptionEffect(answer, k, fd, SO_REUSEADDR, 1, SettingReuseAddress);
    if reuse.thrown.None? {
      var bound := BindEffect(answer, reuse.k, fd, INADDR_ANY, c.groupPort);
      if bound.thrown.None? {
        JoinAllSucceedsIff(answer, network, bound.k, fd, c);
      }
    }
  }

  lemma JoinAllSucceedsIff(answer: Oracle, network: Network, k: Kernel, fd: int, c: Config)
    requires fd in k.socks
    ensures var e, joins := JoinAllEffect(answer, network, k, fd, c), |InterfacesAt(network, k.calls, c.source)|;
      && (e.thrown.None? <==> answer(Getifaddrs, k.calls).Done? && JoinsSucceed(answer, k.calls + 1, joins))
      && (e.thrown.None? ==> e.fd == fd && fd in e.k.socks && e.k.calls == k.calls + 1 + joins)
  {
    JoinSucceedsIff(answer, AfterQuery(k), fd, c, InterfacesAt(network, k.calls, c.source));
  }

  lemma {:induction false} JoinSucceedsIff(answer: Oracle, k: Kernel, fd: int, c: Config, interfaces: seq<Address>)
    requires fd in k.socks
    ensures var e := JoinEffect(answer, k, fd, c, interfaces);
      && (e.thrown.None? <==> JoinsSucceed(answer, k.calls, |interfaces|))
      && (e.thrown.None? ==> e.fd == fd && fd in e.k.socks && e.k.calls == k.calls + |interfaces|)
    decreases |interfaces|
  {
    if interfaces != [] {
      var r := SysJoin(answer, k, fd, Membership(c.group, c.source, interfaces[0]));
      if r.errno.None? {
        JoinSucceedsIff(answer, r.k, fd, c, interfaces[1..]);
      }
    }
  }

  // What an open does, call by call.
  function OpenScript(fd: int, joins: nat): seq<Matter> {
    OpenSocketScript(fd) + ConfigureScript(joins)
  }

  function ConfigureScript(joins: nat): seq<Matter> {
    [SettingReuseAddress] + BindAndJoinScript(joins)
  }

  function BindAndJoinScript(joins: nat): seq<Matter> {
    [BindingSocket] + JoinScript(joins)
  }

  function JoinScript(joins: nat): seq<Matter> {
    [RetrievingInterfaces] + (Joins(joins) + [SettingMulticastAll])
  }

  function Joins(n: nat): (r: seq<Matter>)
    ensures |r| == n
  {
    if n == 0 then [] else [JoiningGroup] + Joins(n - 1)
  }

  // open makes these calls in this order until one fails, and then throws what that one was for,
  // its errno from before the close, and the errno of the close if that failed too.
  lemma OpenSaysWhatFailed(answer: Oracle, network: Network, k: Kernel, fd: int, c: Config)
    requires Sane(k) && Holds(k, fd)
    ensures var joins := |InterfacesAt(network, SocketCall(k, fd) + 3, c.source)|;
      OpenEffect(answer, network, k, fd, c).thrown
      == Diagnosis(answer, k.socks.Keys - {fd}, k.calls, OpenScript(fd, joins))
  {
    var socks := k.socks.Keys - {fd};
    var script := ConfigureScript(|InterfacesAt(network, SocketCall(k, fd) + 3, c.source)|);
    var created := OpenSocketEffect(answer, k, fd);
    CreatedSocketIsThere(answer, k, fd);
    OpenSocketDiagnoses(answer, k, fd);
    if created.thrown.None? {
      ConfigureSaysWhatFailed(answer, network, created.k, created.fd, c, socks);
      var rest := ConfigureEffect(answer, network, created.k, created.fd, c).thrown;
      DiagnosisInParts(answer, socks, k.calls, OpenSocketScript(fd), script, None, rest);
    } else {
      DiagnosisInParts(answer, socks, k.calls, OpenSocketScript(fd), script, created.thrown, None);
    }
  }

  lemma DiagnosisInParts(answer: Oracle, socks: set<int>, n: nat, first: seq<Matter>, second: seq<Matter>,
                         thrown: Option<Error>, later: Option<Error>)
    requires thrown == Diagnosis(answer, socks, n, first)
    requires thrown.None? ==> later == Diagnosis(answer, socks, n + |first|, second)
    ensures Diagnosis(answer, socks, n, first + second) == if thrown.Some? then thrown else later
  {
    DiagnosisOfBoth(answer, socks, n, first, second);
  }

  lemma CreatedSocketIsThere(answer: Oracle, k: Kernel, fd: int)
    requires Sane(k) && Holds(k, fd)
    ensures var e := OpenSocketEffect(answer, k, fd);
      e.thrown.None? ==> e.fd in e.k.socks && e.k.calls == k.calls + |OpenSocketScript(fd)|
    ensures SocketCall(k, fd) + 1 == k.calls + |OpenSocketScript(fd)|
  {
  }

  // One call of open on the socket that it created.
  predicate SaysWhatFailed(answer: Oracle, k: Kernel, fd: int, m: Matter, e: Effect) {
    match answer(CallFor(m), k.calls)
    case Failed(errno) => e.thrown == Some(Error(m, errno, CloseErrnoOf(answer, m, k.calls + 1)))
    case Done(_) => e.thrown == None && e.fd == fd && fd in e.k.socks && e.k.calls == k.calls + 1
  }

  lemma CallsSayWhatFailed(answer: Oracle, k: Kernel, fd: int, port: int)
    requires fd in k.socks
    ensures SaysWhatFailed(answer, k, fd, SettingReuseAddress,
                           OptionEffect(answer, k, fd, SO_REUSEADDR, 1, SettingReuseAddress))
    ensures SaysWhatFailed(answer, k, fd, BindingSocket, BindEffect(answer, k, fd, INADDR_ANY, port))
    ensures SaysWhatFailed(answer, k, fd, SettingMulticastAll,
                           OptionEffect(answer, k, fd, MULTICAST_ALL_AT_SOL_SOCKET, 0, SettingMulticastAll))
  {
  }

  lemma ConfigureSaysWhatFailed(answer: Oracle, network: Network, k: Kernel, fd: int, c: Config, socks: set<int>)
    requires fd in k.socks
    ensures ConfigureEffect(answer, network, k, fd, c).thrown
         == Diagnosis(answer, socks, k.calls, ConfigureScript(|InterfacesAt(network, k.calls + 2, c.source)|))
  {
    var joins := |InterfacesAt(network, k.calls + 2, c.source)|;
    DiagnosisOfFirst(answer, socks, k.calls, SettingReuseAddress, BindAndJoinScript(joins));
    DiagnosisOfFirst(answer, socks, k.calls + 1, BindingSocket, JoinScript(joins));
    CallsSayWhatFailed(answer, k, fd, c.groupPort);
    var reuse := OptionEffect(answer, k, fd, SO_REUSEADDR, 1, SettingReuseAddress);
    if reuse.thrown.None? {
      CallsSayWhatFailed(answer, reuse.k, fd, c.groupPort);
      var bound := BindEffect(answer, reuse.k, fd, INADDR_ANY, c.groupPort);
      if bound.thrown.None? {
        JoinAllSaysWhatFailed(answer, network, bound.k, fd, c, socks);
      }
    }
  }

  lemma QueryAndJoin(answer: Oracle, network: Network, k: Kernel, fd: int, c: Config)
    ensures var query := answer(Getifaddrs, k.calls);
      JoinAllEffect(answer, network, k, fd, c)
      == if query.Failed? then Effect(AfterQuery(k), fd, Some(Error(RetrievingInterfaces, query.errno, None)))
         else JoinEffect(answer, AfterQuery(k), fd, c, InterfacesAt(network, k.calls, c.source))
  {
  }

  // The rest, from the query of the interfaces on.
  lemma JoinAllSaysWhatFailed(answer: Oracle, network: Network, k: Kernel, fd: int, c: Config, socks: set<int>)
    requires fd in k.socks
    ensures var joined := JoinAllEffect(answer, network, k, fd, c);
      Diagnosis(answer, socks, k.calls, JoinScript(|InterfacesAt(network, k.calls, c.source)|))
      == if joined.thrown.Some? then joined.thrown
         else OptionEffect(answer, joined.k, joined.fd, MULTICAST_ALL_AT_SOL_SOCKET, 0, SettingMulticastAll).thrown
  {
    var n, interfaces := k.calls, InterfacesAt(network, k.calls, c.source);
    DiagnosisOfFirst(answer, socks, n, RetrievingInterfaces, Joins(|interfaces|) + [SettingMulticastAll]);
    QueryAndJoin(answer, network, k, fd, c);
    if answer(Getifaddrs, n).Done? {
      JoinsSayWhatFailed(answer, AfterQuery(k), fd, c, interfaces, socks);
      var joined := JoinEffect(answer, AfterQuery(k), fd, c, interfaces);
      LastCallSaysWhatFailed(answer, n + 1, |interfaces|, fd, joined, socks);
    }
  }

  lemma LastCallSaysWhatFailed(answer: Oracle, n: nat, joins: nat, fd: int, joined: Effect, socks: set<int>)
    requires joined.thrown == Diagnosis(answer, socks, n, Joins(joins))
    requires joined.thrown.None? ==> joined.fd == fd && fd in joined.k.socks && joined.k.calls == n + joins
    ensures Diagnosis(answer, socks, n, Joins(joins) + [SettingMulticastAll])
      == if joined.thrown.Some? then joined.thrown
         else OptionEffect(answer, joined.k, joined.fd, MULTICAST_ALL_AT_SOL_SOCKET, 0, SettingMulticastAll).thrown
  {
    DiagnosisOfBoth(answer, socks, n, Joins(joins), [SettingMulticastAll]);
    if joined.thrown.None? {
      DiagnosisOfFirst(answer, socks, n + joins, SettingMulticastAll, []);
      assert [SettingMulticastAll] + [] == [SettingMulticastAll];
      CallsSayWhatFailed(answer, joined.k, fd, 0);
    }
  }

  lemma {:induction false} JoinsSayWhatFailed(answer: Oracle, k: Kernel, fd: int, c: Config,
      interfaces: seq<Address>, socks: set<int>)
    requires fd in k.socks
    ensures var e := JoinEffect(answer, k, fd, c, interfaces);
      && e.thrown == Diagnosis(answer, socks, k.calls, Joins(|interfaces|))
      && (e.thrown.None? ==> e.fd == fd && fd in e.k.socks && e.k.calls == k.calls + |interfaces|)
    decreases |interfaces|
  {
    if interfaces != [] {
      assert Joins(|interfaces|)[1..] == Joins(|interfaces| - 1);
      var r := SysJoin(answer, k, fd, Membership(c.group, c.source, interfaces[0]));
      if r.errno.None? {
        JoinsSayWhatFailed(answer, r.k, fd, c, interfaces[1..], socks);
      }
    }
  }

  // What open asks for by the name IP_MULTICAST_ALL is another option: the name is given at the
  // level of SOL_SOCKET, and the option of level IPPROTO_IP keeps its default.
  lemma MulticastAllIsNeverSet(answer: Oracle, network: Network, k: Kernel, fd: int, c: Config)
    requires Sane(k) && Holds(k, fd) && OpenEffect(answer, network, k, fd, c).thrown.None?
    ensures var e := OpenEffect(answer, network, k, fd, c);
      e.fd in e.k.socks && MULTICAST_ALL_AT_IPPROTO_IP !in e.k.socks[e.fd].options
  {
    OpenTransfers(answer, network, k, fd, c);
  }

  // The first open of a process, during which getifaddrs fails for lack of memory.
  lemma FailedOpenMayStayOpen() returns (answer: Oracle)
    ensures forall network, c ::
      var e := OpenEffect(answer, network, Kernel(map[], {}, 0), -1, c);
      e.thrown == Some(Error(RetrievingInterfaces, Code(12), None)) && e.fd == 7 && 7 in e.k.socks
  {
    answer := (call: Call, n: nat) => if call == Getifaddrs then Failed(Code(12)) else Done(7);
  }

  /* ----- Copying ----- */

  // The copy constructor opens a socket of its own if the original is open.  When that throws,
  // the object never comes to life and the destructor of its base class runs.
  function CopyEffect(answer: Oracle, network: Network, k: Kernel, origFd: int, c: Config): Effect {
    if origFd < 0 then Effect(k, -1, None)
    else
      var e := OpenEffect(answer, network, k, -1, c);
      if e.thrown.None? then e
      else Effect(DestroyEffect(answer, e.k, e.fd), -1, e.thrown)
  }

  // A copy gets a descriptor of its own, configured like the original, including a port that
  // the original has latched.  A copy that throws leaves nothing behind, unless the destructor
  // of its base class failed to close the new socket.
  lemma CopyTransfers(answer: Oracle, network: Network, k: Kernel, origFd: int, c: Config)
    requires Sane(k) && Holds(k, origFd)
    ensures var e := CopyEffect(answer, network, k, origFd, c);
      && Sane(e.k) && e.k.lists == k.lists && k.calls <= e.k.calls
      && (e.thrown.None? ==>
            && Transfers(k, -1, e.k, e.fd) && (e.fd >= 0 <==> origFd >= 0)
            && (e.fd >= 0 ==> e.fd != origFd && IsConfigured(network(k.calls + 3), c, e.k.socks[e.fd])))
      && (e.thrown.Some? ==>
            && e.fd == -1 && k.socks.Keys <= e.k.socks.Keys
            && forall d :: d in k.socks ==> e.k.socks[d] == k.socks[d])
      && (e.thrown.Some? && ClosesSucceed(answer, k, e.k) ==> e.k.socks == k.socks)
  {
    assert -1 !in k.socks;
    assert k.socks - {-1} == k.socks;
    if origFd >= 0 {
      OpenTransfers(answer, network, k, -1, c);
      var o := OpenEffect(answer, network, k, -1, c);
      if o.thrown.Some? {
        DestroyReleases(answer, o.k, o.fd);
        var k' := DestroyEffect(answer, o.k, o.fd);
        assert o.k.socks - {o.fd} == k.socks;
        if ClosesSucceed(answer, k, k') { FailedOpen(answer, network, k, -1, c); }
      }
    }
  }

  // A copy returns normally if and only if the original is closed or the open of the new socket
  // succeeds, and it throws what that open throws.
  lemma CopySucceedsIff(answer: Oracle, network: Network, k: Kernel, origFd: int, c: Config)
    requires Sane(k)
    ensures CopyEffect(answer, network, k, origFd, c).thrown.None? <==>
      (origFd >= 0 ==>
         SocketIsCreated(answer, k, -1) && ConfigureStepsSucceed(answer, network, SocketCall(k, -1) + 1, c))
    ensures origFd < 0 ==> CopyEffect(answer, network, k, origFd, c) == Effect(k, -1, None)
    ensures origFd >= 0 ==>
      CopyEffect(answer, network, k, origFd, c).thrown
      == Diagnosis(answer, k.socks.Keys, k.calls, OpenScript(-1, |InterfacesAt(network, k.calls + 3, c.source)|))
  {
    OpenSucceedsIff(answer, network, k, -1, c);
    OpenSaysWhatFailed(answer, network, k, -1, c);
    assert k.socks.Keys - {-1} == k.socks.Keys;
  }

  /* ----- Receiving ----- */

  // What a receiver has done since it was opened with the configuration `initial`: `start` events
  // of its stream were taken then, and it made calls stopping at `stops` since.
  datatype History = History(initial: Config, start: nat, stops: seq<nat>)

  // The calls form a run that led to the present configuration and took all events since.
  ghost predicate InRun(ev: Stream, h: History, now: Config, taken: nat) {
    && now.source == h.initial.source
    && IsRun(ev, h.initial.source, h.initial.sourcePort, h.start, h.stops)
    && now.sourcePort == PortAfter(ev, h.initial.sourcePort, h.stops)
    && taken == End(h.start, h.stops)
  }

  // The datagrams that the calls have delivered are exactly those that a receiver with the
  // filters it was opened with should deliver, out of all events it has consumed.
  lemma HistoryDelivers(ev: Stream, h: History, now: Config, taken: nat)
    requires InRun(ev, h, now, taken)
    ensures h.start <= taken
    ensures Delivered(ev, h.stops) == Wants(ev, h.initial.source, h.initial.sourcePort, h.start, taken)
  {
    RunDeliversTheFilteredStream(ev, h.initial.source, h.initial.sourcePort, h.start, h.stops);
    RunAccountsForEveryEvent(ev, h.initial.source, h.initial.sourcePort, h.start, h.stops);
  }

  // One receive call into the buffer `before`: it stopped at event `last`, the first that stops
  // it, with that event's outcome and latch.  The buffer took every event up to there, and a
  // delivered datagram is at its start, whatever was rejected before.
  ghost predicate Received(ev: Stream, was: Config, from: nat, before: seq<Octet>, size: nat,
                           r: Result<nat>, last: nat, now: Config, after: seq<Octet>)
    requires size <= |before|
  {
    var e := ev.At(last);
    && IsFirstStop(ev, was.source, was.sourcePort, from, last)
    && r == Outcome(e, size)
    && now == was.(sourcePort := Latch(was.sourcePort, e))
    && after == Fill(before, size, ev, from, last + 1)
    && (e.Datagram? ==> r.value <= |e.payload| && after[..r.value] == e.payload[..r.value])
  }

  lemma CallIsReceived(q: Request, was: Config, last: nat, after: seq<Octet>, reply: Reply)
    requires Answerable(q) && Answered(q, last + 1, after, reply) && Accepts(q.source, q.port, reply)
    requires q.source == was.source && q.port == was.sourcePort
    ensures reply.result >= -1
    ensures var port := if reply.result != -1 && was.sourcePort == -1 then Ntohs(reply.port) else was.sourcePort;
      Received(q.ev, was, q.from, q.before, q.size, Conclude(reply.result, reply.errno, Receiving), last,
               was.(sourcePort := port), after)
  {
    CallEnds(q, last, after, reply);
  }

  function Extended(h: History, last: nat): History {
    h.(stops := h.stops + [last])
  }

  lemma RunContinues(ev: Stream, h: History, now: Config, taken: nat, last: nat)
    requires InRun(ev, h, now, taken) && IsFirstStop(ev, now.source, now.sourcePort, taken, last)
    ensures InRun(ev, Extended(h, last), now.(sourcePort := Latch(now.sourcePort, ev.At(last))), last + 1)
  {
    ExtendRun(ev, h.initial.source, h.initial.sourcePort, h.start, h.stops, last);
  }

  /* ----- The class ----- */

  // The base class subobject is the field `base`.
  class UdpMulticastReceiver {
    const os: Os
    const base: UdpSocket
    var config: Config

    // The receive calls since the last open or construction, for specification only.
    ghost var history: History

    // The calls made so far form a run over the stream of the descriptor, and sourcePort is the
    // port filter that the run has led to.
    ghost predicate Valid()
      reads this, base, os`taken
    {
      base.os == os && InRun(os.Incoming(base.fd), history, config, os.Taken(base.fd))
    }

    constructor (os: Os)
      ensures this.os == os && fresh(base) && base.fd == -1 && Valid()
      ensures config == Config(INADDR_ANY, 0, INADDR_ANY, 0) && history.stops == []
    {
      this.os := os;
      base := new UdpSocket(os);
      config := Config(INADDR_ANY, 0, INADDR_ANY, 0);
      history := History(Config(INADDR_ANY, 0, INADDR_ANY, 0), os.Taken(-1), []);
    }

    // At any time, the object has delivered exactly what it should have since its last open.
    lemma DeliveredSoFar()
      requires Valid()
      ensures history.start <= os.Taken(base.fd)
      ensures var ev, h := os.Incoming(base.fd), history;
        Delivered(ev, h.stops) == Wants(ev, h.initial.source, h.initial.sourcePort, h.start, os.Taken(base.fd))
    {
      HistoryDelivers(os.Incoming(base.fd), history, config, os.Taken(base.fd));
    }

    // The copy constructor; r is null if it throws.
    static method Copy(orig: UdpMulticastReceiver) returns (r: UdpMulticastReceiver?, thrown: Option<Error>)
      requires orig.base.os == orig.os && Sane(orig.os.k)
      modifies orig.os`k, orig.os`errno
      ensures var e := CopyEffect(orig.os.answer, orig.os.network, old(orig.os.k), orig.base.fd, orig.config);
              && orig.os.k == e.k && thrown == e.thrown
              && (r == null <==> thrown.Some?)
              && (r != null ==> fresh(r) && fresh(r.base) && r.os == orig.os && r.Valid()
                                && r.base.fd == e.fd && r.config == r.history.initial == orig.config
                                && r.history.stops == [])
    {
      r := new UdpMulticastReceiver(orig.os);
      thrown := None;
      if orig.base.IsOpen() {
        thrown := r.Open(orig.config.group, orig.config.groupPort, orig.config.source, orig.config.sourcePort);
        if thrown.Some? {
          r.base.Destroy();
          r := null;
        }
      } else {
        r.config := orig.config;
        r.history := r.history.(initial := orig.config);
      }
    }

    method Open(group: Address, groupPort: int, source: Address, sourcePort: int) returns (thrown: Option<Error>)
      requires base.os == os && Sane(os.k)
      modifies this, base, os`k, os`errno
      ensures Effect(os.k, base.fd, thrown)
           == OpenEffect(os.answer, os.network, old(os.k), old(base.fd), Config(group, groupPort, source, sourcePort))
      ensures config == Config(group, groupPort, source, sourcePort)
      ensures Valid() && history == History(config, os.Taken(base.fd), [])
    {
      config := Config(group, groupPort, source, sourcePort);
      thrown := OpenAndJoin();
      history := History(config, os.Taken(base.fd), []);
    }

    // The rest of open, after the configuration was stored.
    method OpenAndJoin() returns (thrown: Option<Error>)
      requires base.os == os && Sane(os.k)
      modifies base, os`k, os`errno
      ensures Effect(os.k, base.fd, thrown) == OpenEffect(os.answer, os.network, old(os.k), old(base.fd), config)
    {
      thrown := base.OpenUdpSocket();
      if thrown.Some? { return; }
      thrown := Configure();
    }

    method Configure() returns (thrown: Option<Error>)
      requires base.os == os && Sane(os.k)
      modifies base, os`k, os`errno
      ensures Effect(os.k, base.fd, thrown) == ConfigureEffect(os.answer, os.network, old(os.k), old(base.fd), config)
    {
      thrown := SetOption(SO_REUSEADDR, 1, SettingReuseAddress);
      if thrown.Some? { return; }
      thrown := base.Bind(INADDR_ANY, config.groupPort);
      if thrown.Some? { return; }
      thrown := JoinAll();
      if thrown.Some? { return; }
      thrown := SetOption(MULTICAST_ALL_AT_SOL_SOCKET, 0, SettingMulticastAll);
    }

    method SetOption(option: SocketOption, value: int, matter: Matter) returns (thrown: Option<Error>)
      requires base.os == os && Sane(os.k)
      modifies base, os`k, os`errno
      ensures Sane(os.k)
      ensures Effect(os.k, base.fd, thrown) == OptionEffect(os.answer, old(os.k), old(base.fd), option, value, matter)
    {
      var result := os.SetOption(base.fd, option, value);
      if result != 0 {
        thrown := base.CloseAndThrowRuntimeException(matter);
        return;
      }
      return None;
    }

    method JoinAll() returns (thrown: Option<Error>)
      requires base.os == os && Sane(os.k)
      modifies base, os`k, os`errno
      ensures Sane(os.k)
      ensures Effect(os.k, base.fd, thrown) == JoinAllEffect(os.answer, os.network, old(os.k), old(base.fd), config)
    {
      var interfaces: seq<Address>;
      if config.source == INADDR_ANY {
        var query := GetIpV4InterfaceAddresses(os);
        if query.Err? { return Some(query.error); }
        interfaces := query.value;
      } else {
        var query := RetrieveInterfaceAddressFromAddress(os, config.source);
        if query.Err? { return Some(query.error); }
        interfaces := [query.value];
      }
      thrown := JoinOn(interfaces);
    }

    // Join the multicast group on each interface.
    method JoinOn(interfaces: seq<Address>) returns (thrown: Option<Error>)
      requires base.os == os && Sane(os.k)
      modifies base, os`k, os`errno
      ensures Sane(os.k)
      ensures Effect(os.k, base.fd, thrown) == JoinEffect(os.answer, old(os.k), old(base.fd), config, interfaces)
    {
      ghost var k, fd := os.k, base.fd;
      var i := 0;
      while i < |interfaces|
        modifies base, os`k, os`errno
        invariant 0 <= i <= |interfaces| && Sane(os.k) && base.fd == fd
        invariant JoinEffect(os.answer, os.k, fd, config, interfaces[i..])
               == JoinEffect(os.answer, k, fd, config, interfaces)
      {
        var result := os.Join(base.fd, Membership(config.group, config.source, interfaces[i]));
        if result != 0 {
          thrown := base.CloseAndThrowRuntimeException(JoiningGroup);
          return;
        }
        i := i + 1;
      }
      return None;
    }

    // The outer retry loop of receive: again while the datagram comes from the wrong port.
    method RecvAccepted(buffer: array<Octet>, size: nat, ghost q: Request)
      returns (result: int, address: Address, wire: Port)
      requires base.os == os && q.ev == os.Incoming(base.fd) && q.source == config.source && q.port == config.sourcePort
      requires q.size == size && |q.before| == buffer.Length
      requires Answerable(q) && Progress(q, os.Taken(base.fd), buffer[..])
      modifies os`taken, os`errno, buffer
      ensures os.Taken(base.fd) > old(os.Taken(base.fd)) && os.taken - {base.fd} == old(os.taken) - {base.fd}
      ensures Answered(q, os.Taken(base.fd), buffer[..], Reply(result, os.errno, address, wire))
      ensures Accepts(q.source, q.port, Reply(result, os.errno, address, wire))
    {
      ghost var fd := base.fd;
      ghost var others, n, image := os.taken - {fd}, os.Taken(fd), buffer[..];
      result, address, wire := -1, INADDR_ANY, PORT_ZERO;
      ghost var r := Reply(result, os.errno, address, wire);
      var wrongPort := true;
      while wrongPort
        modifies os`taken, os`errno, buffer
        invariant os.taken - {fd} == others && n == os.Taken(fd) && image == buffer[..]
        invariant r == Reply(result, os.errno, address, wire)
        invariant old(os.Taken(fd)) <= n <= q.goal + 1 && (!wrongPort ==> old(os.Taken(fd)) < n)
        invariant Retrying(wrongPort, q.source, q.port, q, n, image, r)
        decreases q.goal + 1 - n, wrongPort
      {
        result, address, wire := RecvFromSource(buffer, size, q);
        n, image, r := os.Taken(fd), buffer[..], Reply(result, os.errno, address, wire);
        AnswerIsJudged(q, n, image, r);
        wrongPort := result != -1 && config.sourcePort > 0 && Htons(config.sourcePort) != wire;
      }
    }

    // The middle retry loop: again while the datagram comes from the wrong address.
    method RecvFromSource(buffer: array<Octet>, size: nat, ghost q: Request)
      returns (result: int, address: Address, wire: Port)
      requires base.os == os && q.ev == os.Incoming(base.fd) && q.source == config.source
      requires q.size == size && |q.before| == buffer.Length
      requires Answerable(q) && Progress(q, os.Taken(base.fd), buffer[..])
      modifies os`taken, os`errno, buffer
      ensures os.Taken(base.fd) > old(os.Taken(base.fd)) && os.taken - {base.fd} == old(os.taken) - {base.fd}
      ensures Answered(q, os.Taken(base.fd), buffer[..], Reply(result, os.errno, address, wire))
      ensures Accepts(q.source, 0, Reply(result, os.errno, address, wire))
    {
      ghost var fd := base.fd;
      ghost var others, n, image := os.taken - {fd}, os.Taken(fd), buffer[..];
      result, address, wire := -1, INADDR_ANY, PORT_ZERO;
      ghost var r := Reply(result, os.errno, address, wire);
      var wrongAddress := true;
      while wrongAddress
        modifies os`taken, os`errno, buffer
        invariant os.taken - {fd} == others && n == os.Taken(fd) && image == buffer[..]
        invariant r == Reply(result, os.errno, address, wire)
        invariant old(os.Taken(fd)) <= n <= q.goal + 1 && (!wrongAddress ==> old(os.Taken(fd)) < n)
        invariant Retrying(wrongAddress, q.source, 0, q, n, image, r)
        decreases q.goal + 1 - n, wrongAddress
      {
        result, address, wire := base.RecvUninterrupted(buffer, size, q);
        n, image, r := os.Taken(fd), buffer[..], Reply(result, os.errno, address, wire);
        AnswerIsJudged(q, n, image, r);
        wrongAddress := result != -1 && config.source != INADDR_ANY && config.source != address;
      }
    }

    // Returns at the first event that is not an EINTR and passes both filters.  The call ends
    // if the stream has one.
    method Receive(buffer: array<Octet>, size: nat) returns (r: Result<nat>)
      requires base.os == os && size <= buffer.Length
      requires exists k ::
        k >= os.Taken(base.fd) && Stops(config.source, config.sourcePort, os.Incoming(base.fd).At(k))
      modifies `config, `history, os`taken, os`errno, buffer
      ensures old(Valid()) ==> Valid()
      ensures os.Taken(base.fd) > old(os.Taken(base.fd)) && os.taken - {base.fd} == old(os.taken) - {base.fd}
      ensures Received(os.Incoming(base.fd), old(config), old(os.Taken(base.fd)), old(buffer[..]), size,
                       r, os.Taken(base.fd) - 1, config, buffer[..])
      ensures history == Extended(old(history), os.Taken(base.fd) - 1)
      ensures forall j :: old(os.Taken(base.fd)) <= j < os.Taken(base.fd) - 1 ==>
        match os.Incoming(base.fd).At(j)
        case Datagram(_, address, wire) =>
          || (config.source != INADDR_ANY && address != config.source)
          || (old(config.sourcePort) > 0 && 0x100 * wire.high + wire.low != old(config.sourcePort) % 0x1_0000)
        case RecvError(errno) => errno == EINTR
      ensures match os.Incoming(base.fd).At(os.Taken(base.fd) - 1)
        case Datagram(payload, address, wire) =>
          && (config.source == INADDR_ANY || address == config.source)
          && (old(config.sourcePort) <= 0 || 0x100 * wire.high + wire.low == old(config.sourcePort) % 0x1_0000)
          && r == Ok(if |payload| < size then |payload| else size)
          && buffer[..r.value] == payload[..r.value]
          && config.sourcePort == if old(config.sourcePort) == -1 then 0x100 * wire.high + wire.low
                                  else old(config.sourcePort)
        case RecvError(errno) =>
          && errno != EINTR && config == old(config)
          && r == if errno == EAGAIN || errno == EWOULDBLOCK then Ok(0) else Err(Error(Receiving, errno, None))
    {
      ghost var was, from := config, os.Taken(base.fd);
      ghost var last: nat;
      r, last := ReceiveAndLatch(buffer, size);
      if old(Valid()) {
        RunContinues(os.Incoming(base.fd), history, was, from, last);
      }
      history := Extended(history, last);
      FirstStopMeans(os.Incoming(base.fd), was.source, was.sourcePort, from, last);
      OutcomeMeans(os.Incoming(base.fd).At(last), size);
    }

    // The code of receive, without the record of its calls.
    method ReceiveAndLatch(buffer: array<Octet>, size: nat) returns (r: Result<nat>, ghost last: nat)
      requires base.os == os && size <= buffer.Length
      requires exists k ::
        k >= os.Taken(base.fd) && Stops(config.source, config.sourcePort, os.Incoming(base.fd).At(k))
      modifies `config, os`taken, os`errno, buffer
      ensures last >= old(os.Taken(base.fd)) && os.Taken(base.fd) == last + 1
      ensures os.taken - {base.fd} == old(os.taken) - {base.fd}
      ensures Received(os.Incoming(base.fd), old(config), old(os.Taken(base.fd)), old(buffer[..]), size,
                       r, last, config, buffer[..])
    {
      ghost var was, ev, from := config, os.Incoming(base.fd), os.Taken(base.fd);
      ghost var goal :| goal >= from && Stops(was.source, was.sourcePort, ev.At(goal));
      ghost var q := Request(ev, was.source, was.sourcePort, from, goal, buffer[..], size);
      var result, address, wire := RecvAccepted(buffer, size, q);
      last := os.Taken(base.fd) - 1;
      CallIsReceived(q, was, last, buffer[..], Reply(result, os.errno, address, wire));
      if result != -1 && config.sourcePort == -1 {
        config := config.(sourcePort := Ntohs(wire));
      }
      r := Conclude(result, os.errno, Receiving);
    }
  }
}
