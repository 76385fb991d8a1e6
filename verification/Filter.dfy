/** What a receiver should deliver, as a filter over the stream of recvfrom answers, and the
    proof that any run of receive calls delivers exactly that.

    An event is named by its position in the stream of its descriptor. */
module Filter {
  import opened Kernel

  /* ----- One call ----- */

  predicate AddressPasses(source: Address, e: Event)
    requires e.Datagram?
  {
    source == INADDR_ANY || e.address == source
  }

  // A port of 0 or less accepts every port.
  predicate PortPasses(port: int, e: Event)
    requires e.Datagram?
  {
    port <= 0 || Htons(port) == e.port
  }

  // The events at which a call returns or throws.
  predicate Stops(source: Address, port: int, e: Event) {
    match e
    case Datagram(_, _, _) => AddressPasses(source, e) && PortPasses(port, e)
    case RecvError(errno) => errno != EINTR
  }

  ghost predicate IsFirstStop(ev: Stream, source: Address, port: int, from: nat, k: nat) {
    Searched(ev, source, port, from, k) && Stops(source, port, ev.At(k))
  }

  // No call stops between two positions.
  ghost predicate Searched(ev: Stream, source: Address, port: int, from: nat, until: nat) {
    from <= until && forall j: nat :: from <= j < until ==> !Stops(source, port, ev.At(j))
  }

  // How a call ends at the event that stops it.
  function Outcome(e: Event, size: nat): Result<nat> {
    match e
    case Datagram(payload, _, _) => Ok(Min(|payload|, size))
    case RecvError(EAGAIN) => Ok(0)
    case RecvError(EWOULDBLOCK) => Ok(0)
    case RecvError(errno) => Err(Error(Receiving, errno, None))
  }

  // The end of every receive and send call of the source: would-block becomes 0, any other error
  // is thrown.
  function Conclude(result: int, errno: Errno, matter: Matter): Result<nat>
    requires result >= -1
  {
    if result != -1 then Ok(result)
    else if errno == EAGAIN || errno == EWOULDBLOCK then Ok(0)
    else Err(Error(matter, errno, None))
  }

  lemma ConcludesWithTheOutcome(e: Event, size: nat, r: Reply)
    requires Reports(e, size, r)
    ensures r.result >= -1 && Conclude(r.result, r.errno, Receiving) == Outcome(e, size)
  {
  }

  // How the source recognises, from what recvfrom returned, an event that stops a call.
  predicate Accepts(source: Address, port: int, r: Reply) {
    if r.result == -1 then r.errno != EINTR
    else (source == INADDR_ANY || source == r.address) && (port <= 0 || Htons(port) == r.port)
  }

  lemma AcceptsWhatStops(source: Address, port: int, e: Event, size: nat, r: Reply)
    requires Reports(e, size, r)
    ensures Accepts(source, port, r) <==> Stops(source, port, e)
  {
  }

  // The port filter after the call: mode -1 ends with the first datagram.
  function Latch(port: int, e: Event): int {
    if e.Datagram? && port == -1 then Ntohs(e.port) else port
  }

  // The caller's buffer after the events from `from` up to `until` were read into it.
  function Fill(buffer: seq<Octet>, size: nat, ev: Stream, from: nat, until: nat): (r: seq<Octet>)
    requires size <= |buffer| && from <= until
    ensures |r| == |buffer|
    decreases until - from
  {
    if from == until then buffer
    else Deposit(Fill(buffer, size, ev, from, until - 1), size, ev.At(until - 1))
  }

  // A receive call: its stream and filters, the event it starts at, an event that will stop it,
  // and the caller's buffer as it was before.
  datatype Request =
    Request(ev: Stream, source: Address, port: int, from: nat, goal: nat, before: seq<Octet>, size: nat)

  ghost predicate Answerable(q: Request) {
    q.size <= |q.before| && Stops(q.source, q.port, q.ev.At(q.goal))
  }

  // The progress of a call up to event n: every event so far was deposited, none of them stops
  // the call, and the goal still lies ahead.
  ghost predicate Progress(q: Request, n: nat, image: seq<Octet>)
    requires Answerable(q)
  {
    && Searched(q.ev, q.source, q.port, q.from, n) && n <= q.goal
    && image == Fill(q.before, q.size, q.ev, q.from, n)
  }

  // The same right after recvfrom answered with event n - 1, before that answer is judged.
  ghost predicate Answered(q: Request, n: nat, image: seq<Octet>, r: Reply)
    requires Answerable(q)
  {
    && q.from < n && Searched(q.ev, q.source, q.port, q.from, n - 1) && n - 1 <= q.goal
    && image == Fill(q.before, q.size, q.ev, q.from, n)
    && Reports(q.ev.At(n - 1), q.size, r)
  }

  lemma AnswerIsJudged(q: Request, n: nat, image: seq<Octet>, r: Reply)
    requires Answerable(q) && Answered(q, n, image, r)
    ensures if Accepts(q.source, q.port, r) then IsFirstStop(q.ev, q.source, q.port, q.from, n - 1)
            else Progress(q, n, image)
  {
    AcceptsWhatStops(q.source, q.port, q.ev.At(n - 1), q.size, r);
  }

  // A retry loop with the given filter: it still retries, or its last answer passes the filter.
  ghost predicate Retrying(retry: bool, source: Address, port: int, q: Request, n: nat, image: seq<Octet>,
                           r: Reply)
    requires Answerable(q)
  {
    if retry then Progress(q, n, image)
    else Answered(q, n, image, r) && Accepts(source, port, r)
  }

  // The buffer starts with the last datagram read into it, whatever was read before.  After a
  // delivery that is the delivered one; when a call would block, it is the last rejected one.
  lemma {:induction false} BufferStartsWithTheLastDatagram(buffer: seq<Octet>, size: nat, ev: Stream, from: nat,
      d: nat, until: nat)
    requires size <= |buffer| && from <= d < until && ev.At(d).Datagram?
    requires forall j: nat :: d < j < until ==> ev.At(j).RecvError?
    ensures var n := Min(|ev.At(d).payload|, size);
      Fill(buffer, size, ev, from, until)[..n] == ev.At(d).payload[..n]
    decreases until
  {
    if d < until - 1 {
      BufferStartsWithTheLastDatagram(buffer, size, ev, from, d, until - 1);
    }
  }

  // The end of a call at its first stop: outcome, latch, and a delivered datagram in the buffer.
  lemma CallEnds(q: Request, last: nat, image: seq<Octet>, r: Reply)
    requires Answerable(q) && Answered(q, last + 1, image, r) && Accepts(q.source, q.port, r)
    ensures var e := q.ev.At(last);
      && IsFirstStop(q.ev, q.source, q.port, q.from, last)
      && r.result >= -1 && Conclude(r.result, r.errno, Receiving) == Outcome(e, q.size)
      && Latch(q.port, e) == (if r.result != -1 && q.port == -1 then Ntohs(r.port) else q.port)
      && (e.Datagram? ==> 0 <= r.result <= |e.payload| && r.result <= |image|
                          && image[..r.result] == e.payload[..r.result])
  {
    AnswerIsJudged(q, last + 1, image, r);
    ConcludesWithTheOutcome(q.ev.At(last), q.size, r);
    if q.ev.At(last).Datagram? {
      BufferStartsWithTheLastDatagram(q.before, q.size, q.ev, q.from, last, last + 1);
    }
  }

  // Bytes beyond every datagram that was read keep their value.
  lemma {:induction false} BufferTailIsKept(buffer: seq<Octet>, size: nat, ev: Stream, from: nat, until: nat, i: nat)
    requires size <= |buffer| && from <= until && i < |buffer|
    requires forall j: nat :: from <= j < until && ev.At(j).Datagram? ==> i >= Min(|ev.At(j).payload|, size)
    ensures Fill(buffer, size, ev, from, until)[i] == buffer[i]
    decreases until
  {
    if from < until {
      BufferTailIsKept(buffer, size, ev, from, until - 1, i);
    }
  }

  /* ----- Runs: the calls made after one open, each starting where the previous one stopped ----- */

  function End(from: nat, stops: seq<nat>): nat {
    if stops == [] then from else stops[|stops| - 1] + 1
  }

  function PortAfter(ev: Stream, port: int, stops: seq<nat>): int {
    if stops == [] then port
    else Latch(PortAfter(ev, port, stops[..|stops| - 1]), ev.At(stops[|stops| - 1]))
  }

  // `stops` holds the event that ended each call.
  ghost predicate IsRun(ev: Stream, source: Address, port: int, from: nat, stops: seq<nat>) {
    stops == [] ||
    var before := stops[..|stops| - 1];
    && IsRun(ev, source, port, from, before)
    && IsFirstStop(ev, source, PortAfter(ev, port, before), End(from, before), stops[|stops| - 1])
  }

  // The events that calls returned as a datagram, in the order of the calls.
  function Delivered(ev: Stream, stops: seq<nat>): seq<nat> {
    if stops == [] then []
    else
      var last := stops[|stops| - 1];
      Delivered(ev, stops[..|stops| - 1]) + if ev.At(last).Datagram? then [last] else []
  }

  /* ----- The reference: no state, no loops ----- */

  // A datagram from the right address.
  predicate Heard(ev: Stream, source: Address, k: nat) {
    ev.At(k).Datagram? && (source == INADDR_ANY || ev.At(k).address == source)
  }

  ghost predicate IsFirstHeard(ev: Stream, source: Address, from: nat, f: nat) {
    from <= f && Heard(ev, source, f) && forall j: nat :: from <= j < f ==> !Heard(ev, source, j)
  }

  // Whether event k belongs to what a receiver opened with these filters should deliver.  In
  // mode -1 the first datagram from the right address fixes the port, unless its port is 0.
  ghost predicate Wanted(ev: Stream, source: Address, port: int, from: nat, k: nat) {
    && Heard(ev, source, k)
    && if port != -1 then port <= 0 || Ntohs(ev.At(k).port) == port % 0x1_0000
       else
         forall f: nat :: f < k && IsFirstHeard(ev, source, from, f) ==>
           ev.At(f).port == PORT_ZERO || ev.At(f).port == ev.At(k).port
  }

  // All wanted events of a stretch, in stream order.
  ghost function Wants(ev: Stream, source: Address, port: int, from: nat, until: nat): seq<nat>
    decreases until
  {
    if until <= from then []
    else
      Wants(ev, source, port, from, until - 1)
      + if Wanted(ev, source, port, from, until - 1) then [until - 1] else []
  }

  // What becomes of an event.
  datatype Fate = Passed | Rejected | Interrupted | WouldBlock | Raised

  ghost function FateOf(ev: Stream, source: Address, port: int, from: nat, k: nat): Fate {
    match ev.At(k)
    case Datagram(_, _, _) => if Wanted(ev, source, port, from, k) then Passed else Rejected
    case RecvError(EINTR) => Interrupted
    case RecvError(EAGAIN) => WouldBlock
    case RecvError(EWOULDBLOCK) => WouldBlock
    case RecvError(_) => Raised
  }

  /* ----- Proofs ----- */

  // A configured port is compared modulo 2^16 with the sender's port.
  lemma PortFilterIsModulo(port: int, e: Event)
    requires e.Datagram? && port > 0
    ensures PortPasses(port, e) <==> Ntohs(e.port) == port % 0x1_0000
  {
    NtohsInvertsHtons(port, e.port);
  }

  // A latched port accepts the port it came from, and everything if that port is 0.
  lemma LatchedPortPasses(p: Port, e: Event)
    requires e.Datagram?
    ensures PortPasses(Ntohs(p), e) <==> p == PORT_ZERO || e.port == p
  {
  }

  // The port filter, told from the stream alone.
  lemma {:induction false} PortAfterARun(ev: Stream, source: Address, port: int, from: nat, stops: seq<nat>)
    requires IsRun(ev, source, port, from, stops)
    ensures from <= End(from, stops)
    ensures port != -1 ==> PortAfter(ev, port, stops) == port
    ensures port == -1 ==>
      forall f: nat :: f < End(from, stops) && IsFirstHeard(ev, source, from, f) ==>
        PortAfter(ev, port, stops) == Ntohs(ev.At(f).port)
    ensures port == -1 && (forall f: nat :: from <= f < End(from, stops) ==> !Heard(ev, source, f)) ==>
      PortAfter(ev, port, stops) == -1
    decreases |stops|
  {
    if stops != [] {
      var before, last := stops[..|stops| - 1], stops[|stops| - 1];
      PortAfterARun(ev, source, port, from, before);
      if port == -1 {
        var p := PortAfter(ev, port, before);
        assert p == -1 && ev.At(last).Datagram? ==> Heard(ev, source, last);
        if f: nat :| f < End(from, before) && IsFirstHeard(ev, source, from, f) {
          assert p == Ntohs(ev.At(f).port);
        } else {
          NothingHeard(ev, source, from, End(from, before));
          assert p == -1;
        }
      }
    }
  }

  lemma {:induction false} NothingHeard(ev: Stream, source: Address, from: nat, until: nat)
    requires forall f: nat :: f < until ==> !IsFirstHeard(ev, source, from, f)
    ensures forall j: nat :: from <= j < until ==> !Heard(ev, source, j)
    decreases until
  {
    if from < until {
      NothingHeard(ev, source, from, until - 1);
      assert !IsFirstHeard(ev, source, from, until - 1);
    }
  }

  // During a call, the filter it applies agrees with the reference.
  lemma FilterAgrees(ev: Stream, source: Address, port: int, from: nat, stops: seq<nat>, k: nat)
    requires IsRun(ev, source, port, from, stops) && End(from, stops) <= k && ev.At(k).Datagram?
    requires forall j: nat :: End(from, stops) <= j < k ==> !Stops(source, PortAfter(ev, port, stops), ev.At(j))
    ensures Stops(source, PortAfter(ev, port, stops), ev.At(k)) <==> Wanted(ev, source, port, from, k)
  {
    PortAfterARun(ev, source, port, from, stops);
    var p := PortAfter(ev, port, stops);
    if port > 0 { PortFilterIsModulo(port, ev.At(k)); }
    if port == -1 && Heard(ev, source, k) {
      if f: nat :| f < End(from, stops) && IsFirstHeard(ev, source, from, f) {
        LatchedPortPasses(ev.At(f).port, ev.At(k));
        forall g: nat | IsFirstHeard(ev, source, from, g) ensures g == f { }
      } else {
        NothingHeard(ev, source, from, End(from, stops));
        assert forall j: nat :: End(from, stops) <= j < k && Heard(ev, source, j) ==> Stops(source, p, ev.At(j));
      }
    }
  }

  // Any run delivers the wanted events of the stretch it consumed: all of them, nothing else,
  // once each and in stream order.
  lemma {:induction false} RunDeliversTheFilteredStream(ev: Stream, source: Address, port: int, from: nat,
      stops: seq<nat>)
    requires IsRun(ev, source, port, from, stops)
    ensures Delivered(ev, stops) == Wants(ev, source, port, from, End(from, stops))
    decreases |stops|
  {
    if stops != [] {
      var before, last := stops[..|stops| - 1], stops[|stops| - 1];
      RunDeliversTheFilteredStream(ev, source, port, from, before);
      PortAfterARun(ev, source, port, from, before);
      NothingWantedBeforeTheStop(ev, source, port, from, before, last, last);
      if ev.At(last).Datagram? { FilterAgrees(ev, source, port, from, before, last); }
    }
  }

  lemma {:induction false} NothingWantedBeforeTheStop(ev: Stream, source: Address, port: int, from: nat,
      stops: seq<nat>, last: nat, until: nat)
    requires IsRun(ev, source, port, from, stops) && from <= End(from, stops) <= until <= last
    requires IsFirstStop(ev, source, PortAfter(ev, port, stops), End(from, stops), last)
    ensures Wants(ev, source, port, from, until) == Wants(ev, source, port, from, End(from, stops))
    decreases until
  {
    if End(from, stops) < until {
      NothingWantedBeforeTheStop(ev, source, port, from, stops, last, until - 1);
      if ev.At(until - 1).Datagram? { FilterAgrees(ev, source, port, from, stops, until - 1); }
    }
  }

  // Every consumed event has one fate, and exactly the events that are returned, reported as 0
  // or raised end a call; no event ends two calls.
  lemma {:induction false} RunAccountsForEveryEvent(ev: Stream, source: Address, port: int, from: nat, stops: seq<nat>)
    requires IsRun(ev, source, port, from, stops)
    ensures from <= End(from, stops)
    ensures forall i :: 0 <= i < |stops| ==> from <= stops[i] < End(from, stops)
    ensures forall i, j :: 0 <= i < j < |stops| ==> stops[i] < stops[j]
    ensures forall k: nat :: from <= k < End(from, stops) ==>
      (k in stops <==> FateOf(ev, source, port, from, k) in {Passed, WouldBlock, Raised})
    decreases |stops|
  {
    if stops != [] {
      var before, last := stops[..|stops| - 1], stops[|stops| - 1];
      RunAccountsForEveryEvent(ev, source, port, from, before);
      assert stops == before + [last];
      forall k: nat | from <= k <= last
        ensures k in stops <==> FateOf(ev, source, port, from, k) in {Passed, WouldBlock, Raised}
      {
        if End(from, before) <= k {
          assert k in stops <==> k == last;
          if ev.At(k).Datagram? { FilterAgrees(ev, source, port, from, before, k); }
        } else {
          assert k in stops <==> k in before;
        }
      }
    }
  }

  /* ----- What a run means in terms of the stream alone ----- */

  // With a configured port, the calls of a run are ended by exactly these events of the stretch
  // it consumed: the datagrams from the configured address and, modulo 2^16, the configured port,
  // and the errors other than EINTR.
  lemma CallsEndExactlyAt(ev: Stream, source: Address, port: int, from: nat, stops: seq<nat>)
    requires IsRun(ev, source, port, from, stops) && port != -1
    ensures forall k: nat :: from <= k < End(from, stops) ==>
      (k in stops <==>
        match ev.At(k)
        case Datagram(_, address, wire) =>
          && (source == INADDR_ANY || address == source)
          && (port <= 0 || 0x100 * wire.high + wire.low == port % 0x1_0000)
        case RecvError(errno) => errno != EINTR)
  {
    RunAccountsForEveryEvent(ev, source, port, from, stops);
  }

  // In mode -1 the first datagram from the configured address ends a call, and after it the ones
  // from that address and the same port, or from any port if the first came from port 0.
  lemma CallsEndExactlyAtFirstPort(ev: Stream, source: Address, from: nat, stops: seq<nat>, f: nat)
    requires IsRun(ev, source, -1, from, stops)
    requires from <= f && ev.At(f).Datagram? && (source == INADDR_ANY || ev.At(f).address == source)
    requires forall j: nat :: from <= j < f && ev.At(j).Datagram? ==>
               source != INADDR_ANY && ev.At(j).address != source
    ensures forall k: nat :: from <= k < End(from, stops) ==>
      (k in stops <==>
        match ev.At(k)
        case Datagram(_, address, wire) =>
          && (source == INADDR_ANY || address == source)
          && (ev.At(f).port == Port(0, 0) || wire == ev.At(f).port)
        case RecvError(errno) => errno != EINTR)
  {
    RunAccountsForEveryEvent(ev, source, -1, from, stops);
    assert IsFirstHeard(ev, source, from, f);
    assert forall g: nat :: IsFirstHeard(ev, source, from, g) ==> g == f;
  }

  // What was delivered are the datagrams among the events that ended a call, in stream order.
  lemma {:induction false} DeliveredAreTheDatagrams(ev: Stream, source: Address, port: int, from: nat,
      stops: seq<nat>)
    requires IsRun(ev, source, port, from, stops)
    ensures forall k :: k in Delivered(ev, stops) <==> k in stops && ev.At(k).Datagram?
    ensures forall i, j :: 0 <= i < j < |Delivered(ev, stops)| ==> Delivered(ev, stops)[i] < Delivered(ev, stops)[j]
    decreases |stops|
  {
    if stops != [] {
      var before, last := stops[..|stops| - 1], stops[|stops| - 1];
      assert stops == before + [last];
      DeliveredAreTheDatagrams(ev, source, port, from, before);
      RunAccountsForEveryEvent(ev, source, port, from, stops);
      forall k | k in before ensures k < last {
        var i :| 0 <= i < |before| && before[i] == k;
        assert stops[i] == k;
      }
      assert forall i :: 0 <= i < |Delivered(ev, before)| ==> Delivered(ev, before)[i] in before;
    }
  }

  // So no datagram from another sender is ever delivered, and without a port filter none from the
  // configured one is lost.
  lemma OnlyTheSourceIsDelivered(ev: Stream, source: Address, port: int, from: nat, stops: seq<nat>)
    requires IsRun(ev, source, port, from, stops)
    ensures forall k :: k in Delivered(ev, stops) ==>
      ev.At(k).Datagram? && (source == INADDR_ANY || ev.At(k).address == source)
    ensures port == 0 ==>
      forall k: nat :: from <= k < End(from, stops) && ev.At(k).Datagram? ==>
        (k in Delivered(ev, stops) <==> source == INADDR_ANY || ev.At(k).address == source)
  {
    DeliveredAreTheDatagrams(ev, source, port, from, stops);
    RunAccountsForEveryEvent(ev, source, port, from, stops);
  }

  // A receiver of source 10.0.0.1 rejects a datagram from 10.0.0.2 and goes on to the next event.
  lemma OtherSenderIsRejected(ev: Stream, port: int, k: nat)
    requires ev.At(0).Datagram? && ev.At(0).address == Address(10, 0, 0, 2)
    requires IsFirstStop(ev, Address(10, 0, 0, 1), port, 0, k)
    ensures k > 0
  {
  }

  // The first event that stops a call, and the ones before it, without the code's predicates.
  lemma FirstStopMeans(ev: Stream, source: Address, port: int, from: nat, last: nat)
    requires IsFirstStop(ev, source, port, from, last)
    ensures from <= last
    ensures forall j: nat :: from <= j < last ==>
      match ev.At(j)
      case Datagram(_, address, wire) =>
        || (source != INADDR_ANY && address != source)
        || (port > 0 && 0x100 * wire.high + wire.low != port % 0x1_0000)
      case RecvError(errno) => errno == EINTR
    ensures match ev.At(last)
      case Datagram(_, address, wire) =>
        && (source == INADDR_ANY || address == source)
        && (port <= 0 || 0x100 * wire.high + wire.low == port % 0x1_0000)
      case RecvError(errno) => errno != EINTR
  {
    forall e: Event | e.Datagram? && port > 0 {
      PortFilterIsModulo(port, e);
    }
  }

  // What a call returns or throws at that event.
  lemma OutcomeMeans(e: Event, size: nat)
    ensures match e
      case Datagram(payload, _, _) => Outcome(e, size) == Ok(if |payload| < size then |payload| else size)
      case RecvError(errno) =>
        Outcome(e, size) == if errno == EAGAIN || errno == EWOULDBLOCK then Ok(0)
                            else Err(Error(Receiving, errno, None))
  {
  }

  /* ----- Where the documentation and the code differ ----- */

  // Apart from 0 and -1, a configured port is documented to select the datagrams from that port
  // and no others.  open takes any int; the promise is kept exactly for the port numbers.
  lemma PortFilterIsExactForPortNumbers(port: int)
    requires port != 0 && port != -1
    ensures 0 < port < 0x1_0000 <==>
      forall e: Event :: e.Datagram? ==> (PortPasses(port, e) <==> Ntohs(e.port) == port)
  {
    if 0 < port {
      forall e: Event | e.Datagram? {
        PortFilterIsModulo(port, e);
      }
    }
    if port >= 0x1_0000 {
      LargePortLetsAnotherPass(port);
    } else if port < -1 {
      assert PortPasses(port, Datagram([], INADDR_ANY, PORT_ZERO));
    }
  }

  // Above the port numbers, the datagrams from the truncated port pass.
  lemma LargePortLetsAnotherPass(port: int)
    requires port >= 0x1_0000
    ensures var e := Datagram([], INADDR_ANY, Htons(port)); PortPasses(port, e) && Ntohs(e.port) != port
  {
    assert Ntohs(Htons(port)) < 0x1_0000;
  }

  // Port 65536 + 7000 selects the datagrams from port 7000.
  lemma LargePortExample()
    ensures PortPasses(72536, Datagram([], INADDR_ANY, Port(0x1b, 0x58))) && Ntohs(Port(0x1b, 0x58)) == 7000
  {
  }

  // Below -1 there is no filter: every datagram passes, although none comes from such a port.
  lemma NegativePortLetsEveryPortPass(port: int, e: Event)
    requires port < -1 && e.Datagram?
    ensures PortPasses(port, e) && Ntohs(e.port) != port && Latch(port, e) == port
  {
  }

  lemma NegativePortExample()
    ensures PortPasses(-2, Datagram([], INADDR_ANY, Port(0x1b, 0x58))) && Ntohs(Port(0x1b, 0x58)) == 7000
  {
  }

  // Mode -1 promises that the port of the first message is used to filter.  It is, exactly
  // when that port is not 0, which RFC 768 permits as a source port.
  lemma FirstPortIsPinnedUnlessZero(first: Event)
    requires first.Datagram?
    ensures first.port != PORT_ZERO <==>
      forall e: Event :: e.Datagram? ==> (PortPasses(Latch(-1, first), e) <==> e.port == first.port)
  {
    forall e: Event | e.Datagram? {
      LatchedPortPasses(first.port, e);
    }
    if first.port == PORT_ZERO {
      var other := Datagram([], INADDR_ANY, Port(0, 1));
      assert PortPasses(Latch(-1, first), other);
    }
  }

  lemma {:induction false} RunKeepsTheFirstPort(ev: Stream, source: Address, from: nat, stops: seq<nat>, f: nat)
    requires IsRun(ev, source, -1, from, stops) && IsFirstHeard(ev, source, from, f) && ev.At(f).port != PORT_ZERO
    ensures forall k :: k in Delivered(ev, stops) ==> ev.At(k).Datagram? && ev.At(k).port == ev.At(f).port
  {
    RunDeliversTheFilteredStream(ev, source, -1, from, stops);
    WantedEventsOf(ev, source, -1, from, End(from, stops));
    forall k: nat | Wanted(ev, source, -1, from, k) && from <= k ensures ev.At(k).port == ev.At(f).port {
      assert !(k < f);
    }
  }

  lemma {:induction false} WantedEventsOf(ev: Stream, source: Address, port: int, from: nat, until: nat)
    ensures forall k ::
      k in Wants(ev, source, port, from, until) <==> from <= k < until && Wanted(ev, source, port, from, k)
    decreases until
  {
    if from < until { WantedEventsOf(ev, source, port, from, until - 1); }
  }

  // A first datagram from port 0, after which one from port 1 passes.
  lemma PortZeroIsNotPinned(source: Address)
    ensures var first, second := Datagram([], source, PORT_ZERO), Datagram([], source, Port(0, 1));
      Stops(source, -1, first) && Stops(source, Latch(-1, first), second)
  {
    assert Latch(-1, Datagram([], source, PORT_ZERO)) == 0;
  }

  // A run goes on with the call that stops at event k.
  lemma ExtendRun(ev: Stream, source: Address, port: int, from: nat, stops: seq<nat>, k: nat)
    requires IsRun(ev, source, port, from, stops)
    requires IsFirstStop(ev, source, PortAfter(ev, port, stops), End(from, stops), k)
    ensures IsRun(ev, source, port, from, stops + [k])
    ensures PortAfter(ev, port, stops + [k]) == Latch(PortAfter(ev, port, stops), ev.At(k))
    ensures End(from, stops + [k]) == k + 1
    ensures Delivered(ev, stops + [k]) == Delivered(ev, stops) + if ev.At(k).Datagram? then [k] else []
  {
  }

  // A result of 0 is documented to mean that no message is available; a message also gives 0
  // exactly when it is empty or the buffer is.
  lemma ZeroIsAmbiguousForEmptyDatagrams(e: Event, size: nat)
    ensures e.Datagram? ==> (Outcome(e, size) == Ok(0) <==> |e.payload| == 0 || size == 0)
    ensures e.RecvError? ==> (Outcome(e, size) == Ok(0) <==> e.errno in {EAGAIN, EWOULDBLOCK})
  {
  }

  // An empty datagram, and the answer that there is none: the caller sees the same.
  lemma EmptyDatagramLooksLikeNoMessage(source: Address, port: Port, size: nat)
    ensures Stops(INADDR_ANY, 0, Datagram([], source, port)) && Stops(INADDR_ANY, 0, RecvError(EAGAIN))
    ensures Outcome(Datagram([], source, port), size) == Outcome(RecvError(EAGAIN), size) == Ok(0)
  {
  }
}
