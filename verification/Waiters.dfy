/** Waiting for descriptors until a moment (socketLib/CFdWaiter.cpp). */
module Waiters {
  import opened Times
  import opened Kernel
  import opened Sockets

  const FD_SETSIZE: int := 1024

  /* ----- The rounds of a wait ----- */

  // The time that is left at round i.
  function Left(moment: Stamp, t: Trace, i: nat): int
    requires t.Clock(i).Reading?
  {
    Total(moment) - Total(t.Clock(i).at)
  }

  // When the code takes a moment to have come.  The second case does not occur for a normalised
  // moment: RemainingTimeFits says what the code tests, and ExpiryIsPunctualIff what that means.
  predicate Expires(moment: Stamp, now: Stamp) {
    Total(moment) - Total(now) <= 1 || now.sec > moment.sec
  }

  // At round i there is time for a pselect.
  predicate Selects(moment: Stamp, t: Trace, i: nat) {
    t.Clock(i).Reading? && !Expires(moment, t.Clock(i).at)
  }

  predicate Stops(moment: Stamp, t: Trace, i: nat) {
    Selects(moment, t, i) ==> t.Poll(i).result > 0 || (t.Poll(i).result == -1 && t.Poll(i).errno != EINTR)
  }

  ghost predicate IsLastRound(moment: Stamp, t: Trace, k: nat) {
    Stops(moment, t, k) && forall i: nat :: i < k ==> !Stops(moment, t, i)
  }

  // How a wait ends at its last round: true when the moment has come, false when a descriptor
  // is ready.
  function Verdict(moment: Stamp, t: Trace, k: nat): Result<bool> {
    match t.Clock(k)
    case ClockError(errno) => Err(Error(ReadingClock, errno, None))
    case Reading(_) =>
      if !Selects(moment, t, k) then Ok(true)
      else if t.Poll(k).result == -1 then Err(Error(Selecting, t.Poll(k).errno, None))
      else Ok(false)
  }

  function SelectCount(moment: Stamp, t: Trace, k: nat): nat {
    if Selects(moment, t, k) then k + 1 else k
  }

  /* ----- What is passed to pselect ----- */

  ghost predicate AllBelow(fds: set<int>, n: int) {
    forall d :: d in fds ==> d < n
  }

  // nfds is the least number above all descriptors, and 0 if there are none.
  ghost predicate IsLeastAbove(nfds: int, fds: set<int>) {
    nfds >= 0 && AllBelow(fds, nfds) && forall n: nat :: AllBelow(fds, n) ==> nfds <= n
  }

  lemma LeastAbove(nfds: nat, fds: set<int>)
    requires AllBelow(fds, nfds) && (nfds == 0 || nfds - 1 in fds)
    ensures IsLeastAbove(nfds, fds)
  {
  }

  ghost predicate IsSelectOf(call: SelectCall, readFds: set<int>, writeFds: set<int>) {
    call.readMask == readFds && call.writeMask == writeFds && IsLeastAbove(call.nfds, readFds + writeFds)
  }

  // The timeout is positive, it ends at the moment, counted from the latest reading of the clock,
  // and it is normalised unless the moment itself has too many nanoseconds.
  ghost predicate IsPunctual(timeout: Stamp, moment: Stamp, t: Trace, i: nat) {
    && t.Clock(i).Reading? && Total(t.Clock(i).at) + Total(timeout) == Total(moment)
    && timeout.sec >= 0 && timeout.nsec >= 0 && Total(timeout) > 0
    && (Normal(timeout) <==> moment.nsec - t.Clock(i).at.nsec < NSEC_IN_SEC)
  }

  // A wait: the moment, the answers that the environment still has, the log of pselect calls
  // when it began, and the open registered descriptors.
  datatype Wait = Wait(moment: Stamp, t: Trace, log0: seq<SelectCall>, readFds: set<int>, writeFds: set<int>)

  // The calls that a wait has added to the log: one for each of its first `count` rounds.
  ghost predicate Logged(w: Wait, log: seq<SelectCall>, count: nat) {
    && |log| == |w.log0| + count && log[..|w.log0|] == w.log0
    && forall j :: |w.log0| <= j < |log| ==>
         IsSelectOf(log[j], w.readFds, w.writeFds) && IsPunctual(log[j].timeout, w.moment, w.t, j - |w.log0|)
  }

  // Before round i of a wait that will stop at round `goal` at the latest.
  ghost predicate Waiting(w: Wait, goal: nat, i: nat, log: seq<SelectCall>) {
    && Stops(w.moment, w.t, goal) && i <= goal && (forall j: nat :: j < i ==> !Stops(w.moment, w.t, j))
    && Logged(w, log, i)
  }

  lemma RoundIsLogged(w: Wait, goal: nat, i: nat, log: seq<SelectCall>, call: SelectCall)
    requires Waiting(w, goal, i, log) && Selects(w.moment, w.t, i)
    requires IsSelectOf(call, w.readFds, w.writeFds) && call.timeout == Difference(w.moment, w.t.Clock(i).at)
    ensures Logged(w, log + [call], i + 1)
    ensures !Stops(w.moment, w.t, i) ==> Waiting(w, goal, i + 1, log + [call])
  {
  }

  // What a wait knows after reading the clock for round i.
  ghost predicate IsRemaining(moment: Stamp, t: Trace, i: nat, timeout: Stamp, error: Option<Errno>) {
    match t.Clock(i)
    case Reading(at) => error == None && timeout == Difference(moment, at)
    case ClockError(errno) => error == Some(errno)
  }

  // How a select ends the wait, if it does.
  function PollVerdict(a: SelectAnswer): Option<Result<bool>> {
    if a.result == -1 && a.errno != EINTR then Some(Err(Error(Selecting, a.errno, None)))
    else if a.result > 0 then Some(Ok(false))
    else None
  }

  // The wait ended at round k with result r, after `selects` calls of pselect.
  ghost predicate Ended(moment: Stamp, t: Trace, k: nat, selects: int, r: Result<bool>) {
    IsLastRound(moment, t, k) && r == Verdict(moment, t, k) && selects == SelectCount(moment, t, k)
  }

  // A whole wait in terms of what the clock and pselect answered.  In every round before the
  // last, time was left, and pselect returned 0 or was interrupted.
  ghost predicate WaitedThrough(moment: Stamp, t: Trace, k: nat) {
    forall j: nat :: j < k ==>
      && t.Clock(j).Reading? && t.Clock(j).at.sec <= moment.sec
      && Total(moment) - Total(t.Clock(j).at) > 1
      && t.Poll(j).result <= 0 && (t.Poll(j).result == -1 ==> t.Poll(j).errno == EINTR)
  }

  // After k such rounds, the clock and, if time was left, pselect end the wait with these answers:
  // `selects` calls of pselect were made, and r is returned or thrown.
  ghost predicate Concluded(moment: Stamp, clock: ClockAnswer, poll: SelectAnswer, k: nat, selects: int,
                            r: Result<bool>) {
    match clock
    case ClockError(errno) => selects == k && r == Err(Error(ReadingClock, errno, None))
    case Reading(at) =>
      if Total(moment) - Total(at) <= 1 || at.sec > moment.sec then selects == k && r == Ok(true)
      else
        && selects == k + 1
        && if poll.result > 0 then r == Ok(false)
           else poll.result == -1 && poll.errno != EINTR && r == Err(Error(Selecting, poll.errno, None))
  }

  lemma EndedMeans(moment: Stamp, t: Trace, k: nat, selects: int, r: Result<bool>)
    ensures Ended(moment, t, k, selects, r) <==>
      WaitedThrough(moment, t, k) && Concluded(moment, t.Clock(k), t.Poll(k), k, selects, r)
  {
    forall j: nat
      ensures !Stops(moment, t, j) <==>
        && t.Clock(j).Reading? && t.Clock(j).at.sec <= moment.sec
        && Total(moment) - Total(t.Clock(j).at) > 1
        && t.Poll(j).result <= 0 && (t.Poll(j).result == -1 ==> t.Poll(j).errno == EINTR)
    {
    }
    assert WaitedThrough(moment, t, k) <==> forall j: nat :: j < k ==> !Stops(moment, t, j);
  }

  const LAST_MOMENT: Moment := Stamp(0x4000_0000_0000_0000 - 1, NSEC_IN_SEC - 1)

  // A moment, normalised or not, whose distance to the latest reading of the clock fits in 64
  // bits, borrowing included.  Then so does that to any other.
  predicate IsWaitable(moment: Stamp) {
    && Fits(moment) && Fits(RawDifference(moment, LAST_MOMENT))
    && InLong(Difference(moment, LAST_MOMENT).sec)
  }

  lemma IsWaitableIff(moment: Stamp)
    ensures IsWaitable(moment) <==>
      && Fits(moment)
      && forall now: Moment :: Fits(RawDifference(moment, now)) && InLong(Difference(moment, now).sec)
  {
    if IsWaitable(moment) {
      forall now: Moment ensures Fits(RawDifference(moment, now)) && InLong(Difference(moment, now).sec) {
        RemainingTimeFits(moment, now);
      }
    } else if Fits(moment) {
      var now := LAST_MOMENT;
      assert !(Fits(RawDifference(moment, now)) && InLong(Difference(moment, now).sec));
    }
  }

  lemma RemainingTimeFits(moment: Stamp, now: Moment)
    requires IsWaitable(moment)
    ensures Fits(RawDifference(moment, now)) && InLong(Difference(moment, now).sec)
    ensures Total(Difference(moment, now)) == Total(moment) - Total(now) && Difference(moment, now).nsec >= 0
    ensures Normal(Difference(moment, now)) <==> moment.nsec - now.nsec < NSEC_IN_SEC
    ensures Before(Stamp(0, 1), Difference(moment, now)) <==> !Expires(moment, now)
  {
  }

  // The state of a wait at the head of its loop: still waiting at round i, or ended there.
  ghost predicate Looping(w: Wait, goal: nat, i: nat, log: seq<SelectCall>, selects: int,
                          timeout: Stamp, error: Option<Errno>, verdict: Option<Result<bool>>) {
    if verdict.None? then
      selects == i && IsRemaining(w.moment, w.t, i, timeout, error) && Waiting(w, goal, i, log)
    else
      selects == i + 1 && Ended(w.moment, w.t, i, i + 1, verdict.value) && Logged(w, log, i + 1)
  }

  lemma LoopSelects(w: Wait, goal: nat, i: nat, log: seq<SelectCall>, timeout: Stamp, call: SelectCall)
    requires IsWaitable(w.moment) && Before(Stamp(0, 1), timeout)
    requires Looping(w, goal, i, log, i, timeout, None, None)
    requires IsSelectOf(call, w.readFds, w.writeFds) && call.timeout == timeout
    ensures var v := PollVerdict(w.t.Poll(i));
      if v.Some? then Looping(w, goal, i, log + [call], i + 1, timeout, None, v)
      else i < goal && Waiting(w, goal, i + 1, log + [call])
  {
    RemainingTimeFits(w.moment, w.t.Clock(i).at);
    RoundIsLogged(w, goal, i, log, call);
  }

  // How waitUntil leaves its loop.
  function Finish(verdict: Option<Result<bool>>, error: Option<Errno>): Result<bool> {
    if verdict.Some? then verdict.value
    else if error.Some? then Err(Error(ReadingClock, error.value, None))
    else Ok(true)
  }

  lemma LoopEnds(w: Wait, goal: nat, i: nat, log: seq<SelectCall>, selects: int,
                 timeout: Stamp, error: Option<Errno>, verdict: Option<Result<bool>>)
    requires IsWaitable(w.moment) && Looping(w, goal, i, log, selects, timeout, error, verdict)
    requires verdict.Some? || error.Some? || !Before(Stamp(0, 1), timeout)
    ensures selects >= 0 && Ended(w.moment, w.t, i, selects, Finish(verdict, error)) && Logged(w, log, selects)
  {
  }

  /* ----- How long a wait takes ----- */

  function Max(a: int, b: int): int {
    if a > b then a else b
  }

  // The nanoseconds that are left at the start, less the one that the code does not wait for.
  function Budget(moment: Stamp, t: Trace): nat {
    if t.Clock(0).Reading? then Max(0, Left(moment, t, 0) - 1) else 0
  }

  // During the selects of the first n rounds, the clock advances by at least 1 ns.
  ghost predicate ClockAdvances(moment: Stamp, t: Trace, n: nat) {
    forall i: nat :: i < n && Selects(moment, t, i) && t.Clock(i + 1).Reading? ==>
      Total(t.Clock(i + 1).at) > Total(t.Clock(i).at)
  }

  // If so within the budget, the wait ends, and it makes no more selects than the budget.
  lemma AdvancingClockEndsTheWait(moment: Stamp, t: Trace) returns (k: nat)
    requires ClockAdvances(moment, t, Budget(moment, t))
    ensures IsLastRound(moment, t, k) && SelectCount(moment, t, k) <= Budget(moment, t)
  {
    k := WaitFrom(moment, t, 0);
    ClockIsAhead(moment, t, k);
  }

  lemma {:induction false} WaitFrom(moment: Stamp, t: Trace, i: nat) returns (k: nat)
    requires ClockAdvances(moment, t, Budget(moment, t)) && i <= Budget(moment, t)
    requires forall j: nat :: j < i ==> !Stops(moment, t, j)
    ensures IsLastRound(moment, t, k) && k <= Budget(moment, t)
    decreases Budget(moment, t) - i
  {
    ClockIsAhead(moment, t, i);
    if Stops(moment, t, i) {
      k := i;
    } else {
      k := WaitFrom(moment, t, i + 1);
    }
  }

  lemma {:induction false} ClockIsAhead(moment: Stamp, t: Trace, k: nat)
    requires ClockAdvances(moment, t, Budget(moment, t)) && k <= Budget(moment, t)
    requires forall j: nat :: j < k ==> !Stops(moment, t, j)
    ensures t.Clock(k).Reading? ==> t.Clock(0).Reading? && Left(moment, t, k) + k <= Left(moment, t, 0)
  {
    if k > 0 {
      ClockIsAhead(moment, t, k - 1);
      assert !Stops(moment, t, k - 1);
    }
  }

  lemma LastRoundIsUnique(moment: Stamp, t: Trace, j: nat, k: nat)
    requires IsLastRound(moment, t, j) && IsLastRound(moment, t, k)
    ensures j == k
  {
  }

  // The selects among the first n that were interrupted by a signal.
  function Interrupts(t: Trace, n: nat): nat {
    if n == 0 then 0
    else Interrupts(t, n - 1) + if t.Poll(n - 1).result == -1 && t.Poll(n - 1).errno == EINTR then 1 else 0
  }

  // In the first n rounds, pselect returns nothing below -1, and returns 0 only after its whole
  // timeout has passed.
  ghost predicate TimeoutsAreWaitedOut(moment: Stamp, t: Trace, n: nat) {
    forall i: nat :: i < n ==>
      && t.Poll(i).result >= -1
      && (t.Poll(i).result == 0 && t.Clock(i + 1).Reading? ==> Total(t.Clock(i + 1).at) >= Total(moment))
  }

  // If so, a wait makes at most one select more than the interrupted ones.
  lemma SelectsAreBoundedByInterrupts(moment: Stamp, t: Trace, k: nat)
    requires IsLastRound(moment, t, k) && TimeoutsAreWaitedOut(moment, t, k)
    ensures SelectCount(moment, t, k) <= 1 + Interrupts(t, SelectCount(moment, t, k))
  {
    if k > 0 {
      assert !Stops(moment, t, k - 1);
      AllButTheLastWereInterrupted(moment, t, k, k - 1);
    }
  }

  lemma {:induction false} AllButTheLastWereInterrupted(moment: Stamp, t: Trace, k: nat, n: nat)
    requires IsLastRound(moment, t, k) && n < k && TimeoutsAreWaitedOut(moment, t, k)
    ensures Interrupts(t, n) == n
  {
    if n > 0 {
      AllButTheLastWereInterrupted(moment, t, k, n - 1);
      assert !Stops(moment, t, n - 1) && !Stops(moment, t, n);
    }
  }

  // How many selects a wait makes that ends at round k, under either assumption.
  ghost predicate Bounded(moment: Stamp, t: Trace, k: nat, selects: nat) {
    && (ClockAdvances(moment, t, Budget(moment, t)) ==> selects <= Budget(moment, t))
    && (TimeoutsAreWaitedOut(moment, t, k) ==> selects <= 1 + Interrupts(t, selects))
  }

  lemma SelectsAreBounded(moment: Stamp, t: Trace, k: nat)
    requires IsLastRound(moment, t, k)
    ensures Bounded(moment, t, k, SelectCount(moment, t, k))
  {
    if ClockAdvances(moment, t, Budget(moment, t)) {
      var j := AdvancingClockEndsTheWait(moment, t);
      LastRoundIsUnique(moment, t, j, k);
    }
    if TimeoutsAreWaitedOut(moment, t, k) { SelectsAreBoundedByInterrupts(moment, t, k); }
  }

  /* ----- What a result of true means ----- */

  // True is documented to mean that the moment has passed.  The code settles for 1 ns less, and
  // for a clock whose seconds exceed those of the moment.
  lemma ExpiryMayBeEarly(moment: Stamp, t: Trace, k: nat)
    requires IsLastRound(moment, t, k)
    ensures Verdict(moment, t, k) == Ok(true) <==> t.Clock(k).Reading? && Expires(moment, t.Clock(k).at)
    ensures Normal(moment) ==>
      (Verdict(moment, t, k) == Ok(true) <==> t.Clock(k).Reading? && Total(t.Clock(k).at) >= Total(moment) - 1)
  {
  }

  // Which moments expire no more than 1 ns early, at whatever reading of the clock: those with at
  // most two nanoseconds too many, and those at the very start or after the last second of the clock.
  predicate ExpiresPunctually(moment: Stamp) {
    moment.nsec <= NSEC_IN_SEC + 1 || moment.sec >= 0x4000_0000_0000_0000 - 1 || Total(moment) <= 1
  }

  lemma ExpiryIsPunctualIff(moment: Stamp)
    ensures ExpiresPunctually(moment) <==>
      forall now: Moment :: Expires(moment, now) ==> Total(now) >= Total(moment) - 1
  {
    if !ExpiresPunctually(moment) {
      var now: Moment := Stamp(if moment.sec < -1 then 0 else moment.sec + 1, 0);
      assert Expires(moment, now);
    }
  }

  // So a caller who asks for one nanosecond more gets what is documented, and not less: true if
  // and only if the last reading of the clock is at or after the moment.
  lemma WaitingOneNanosecondMoreIsExact(moment: Stamp, t: Trace, k: nat)
    requires IsLastRound(Sum(moment, Stamp(0, 1)), t, k)
    ensures Verdict(Sum(moment, Stamp(0, 1)), t, k) == Ok(true)
       <==> t.Clock(k).Reading? && Total(t.Clock(k).at) >= Total(moment)
  {
    OperatorsAreExact(moment, Stamp(0, 1));
  }

  // Asking for the moment itself is not enough,
  lemma EarlyExpiry() returns (moment: Stamp, t: Trace)
    ensures IsLastRound(moment, t, 0) && Verdict(moment, t, 0) == Ok(true) && Total(t.Clock(0).at) < Total(moment)
  {
    moment := Stamp(5, 1);
    t := Trace((n: nat) => Reading(Stamp(5, 0)), (n: nat) => SelectAnswer(0, EINTR, {}, {}), 0, 0);
    assert t.Clock(0) == Reading(Stamp(5, 0));
  }

  // and a moment that is not normalised may expire much earlier: 5 s and 2000000000 ns, which is
  // second 7, has come at second 6.
  lemma UnnormalisedMomentExpiresEarly() returns (moment: Stamp, t: Trace)
    ensures IsWaitable(moment) && IsLastRound(moment, t, 0) && Verdict(moment, t, 0) == Ok(true)
    ensures t.Clock(0).Reading? && Left(moment, t, 0) == NSEC_IN_SEC
  {
    moment := Stamp(5, 2_000_000_000);
    t := Trace((n: nat) => Reading(Stamp(6, 0)), (n: nat) => SelectAnswer(0, EINTR, {}, {}), 0, 0);
    assert t.Clock(0) == Reading(Stamp(6, 0));
  }

  class FdWaiter {
    const os: Os
    var readFdSet: set<int>
    var writeFdSet: set<int>
    var readFileDescriptors: set<UdpSocket>
    var writeFileDescriptors: set<UdpSocket>

    constructor (os: Os)
      ensures this.os == os && readFileDescriptors == {} && writeFileDescriptors == {}
    {
      this.os := os;
      readFdSet, writeFdSet, readFileDescriptors, writeFileDescriptors := {}, {}, {}, {};
    }

    method AddReadFileDescriptor(s: UdpSocket)
      modifies `readFileDescriptors
      ensures readFileDescriptors == old(readFileDescriptors) + {s}
    {
      readFileDescriptors := readFileDescriptors + {s};
    }

    method DelReadFileDescriptor(s: UdpSocket)
      modifies `readFileDescriptors
      ensures readFileDescriptors == old(readFileDescriptors) - {s}
    {
      readFileDescriptors := readFileDescriptors - {s};
    }

    method AddWriteFileDescriptor(s: UdpSocket)
      modifies `writeFileDescriptors
      ensures writeFileDescriptors == old(writeFileDescriptors) + {s}
    {
      writeFileDescriptors := writeFileDescriptors + {s};
    }

    method DelWriteFileDescriptor(s: UdpSocket)
      modifies `writeFileDescriptors
      ensures writeFileDescriptors == old(writeFileDescriptors) - {s}
    {
      writeFileDescriptors := writeFileDescriptors - {s};
    }

    static ghost function OpenFds(sockets: set<UdpSocket>): set<int>
      reads sockets
    {
      set s | s in sockets && s.fd >= 0 :: s.fd
    }

    // A descriptor is in a mask exactly if a registered object holds it.
    static ghost predicate AreHeldBy(mask: set<int>, sockets: set<UdpSocket>)
      reads sockets
    {
      forall d :: d in mask <==> exists s :: s in sockets && s.fd >= 0 && s.fd == d
    }

    static lemma OpenFdsAreHeld(sockets: set<UdpSocket>)
      ensures AreHeldBy(OpenFds(sockets), sockets)
    {
    }

    // The std::set is walked in an arbitrary order.
    static method Collect(sockets: set<UdpSocket>, nfds0: int) returns (mask: set<int>, nfds: int)
      ensures mask == OpenFds(sockets)
      ensures nfds >= nfds0 && AllBelow(mask, nfds) && (nfds == nfds0 || nfds - 1 in mask)
    {
      mask, nfds := {}, nfds0;
      var todo := sockets;
      while todo != {}
        invariant todo <= sockets && mask == OpenFds(sockets - todo)
        invariant nfds >= nfds0 && AllBelow(mask, nfds) && (nfds == nfds0 || nfds - 1 in mask)
        decreases todo
      {
        var it :| it in todo;
        todo := todo - {it};
        assert sockets - todo == (sockets - (todo + {it})) + {it};
        if it.IsOpen() {
          var fd := it.fd;
          mask := mask + {fd};
          if nfds <= fd { nfds := fd + 1; }
        }
      }
      assert sockets - {} == sockets;
    }

    method Select(timeout: Time) returns (result: int, ghost call: SelectCall)
      requires AllBelow(OpenFds(readFileDescriptors) + OpenFds(writeFileDescriptors), FD_SETSIZE)
      modifies `readFdSet, `writeFdSet, os`polled, os`errno, os`log
      ensures os.polled == old(os.polled) + 1
      ensures var a := os.polls(old(os.polled));
              result == a.result && (result == -1 ==> os.errno == a.errno)
      ensures os.log == old(os.log) + [call] && call.timeout == timeout.Value()
      ensures IsSelectOf(call, old(OpenFds(readFileDescriptors)), old(OpenFds(writeFileDescriptors)))
      ensures AreHeldBy(call.readMask, readFileDescriptors) && AreHeldBy(call.writeMask, writeFileDescriptors)
      ensures readFdSet == os.polls(old(os.polled)).readMask && writeFdSet == os.polls(old(os.polled)).writeMask
    {
      var timeOut := new Time.Copy(timeout);
      var nfds := FillMasks();
      call := SelectCall(nfds, readFdSet, writeFdSet, timeOut.Value());
      result, readFdSet, writeFdSet := os.Pselect(nfds, readFdSet, writeFdSet, timeOut);
      OpenFdsAreHeld(readFileDescriptors);
      OpenFdsAreHeld(writeFileDescriptors);
    }

    // The part of select before the system call.
    method FillMasks() returns (nfds: int)
      modifies `readFdSet, `writeFdSet
      ensures readFdSet == OpenFds(readFileDescriptors) && writeFdSet == OpenFds(writeFileDescriptors)
      ensures IsLeastAbove(nfds, readFdSet + writeFdSet)
    {
      readFdSet, nfds := Collect(readFileDescriptors, 0);
      ghost var readFds := OpenFds(readFileDescriptors);
      writeFdSet, nfds := Collect(writeFileDescriptors, nfds);
      assert readFdSet == readFds;
      LeastAbove(nfds, readFdSet + writeFdSet);
    }

    // timeout = moment - CClock::getMonotonicTime(currentTime)
    method Remaining(moment: Time, currentTime: Time, ghost t: Trace, ghost i: nat)
      returns (timeout: Time, error: Option<Errno>)
      requires moment != currentTime && IsWaitable(moment.Value())
      requires t.clock == os.clock && os.ticks == t.ticks + i
      modifies os`ticks, currentTime
      ensures os.ticks == old(os.ticks) + 1 && fresh(timeout)
      ensures IsRemaining(moment.Value(), t, i, timeout.Value(), error)
    {
      error := os.GetMonotonicTime(currentTime);
      if error.Some? {
        timeout := new Time.Zero();
      } else {
        RemainingTimeFits(moment.Value(), t.Clock(i).at);
        timeout := moment.Minus(currentTime);
      }
    }

    // The open registered descriptors are still those that a wait works with.
    ghost predicate Registered(w: Wait)
      reads `readFileDescriptors, `writeFileDescriptors, readFileDescriptors, writeFileDescriptors
    {
      && w.readFds == OpenFds(readFileDescriptors) && w.writeFds == OpenFds(writeFileDescriptors)
      && AllBelow(w.readFds + w.writeFds, FD_SETSIZE)
    }

    // One select of waitUntil; it ends the wait on a ready descriptor or on an error.
    method SelectOnce(timeout: Time, ghost w: Wait, ghost i: nat)
      returns (verdict: Option<Result<bool>>, ghost call: SelectCall)
      requires Registered(w) && w.t.polls == os.polls && os.polled == w.t.polled + i
      modifies `readFdSet, `writeFdSet, os`polled, os`errno, os`log
      ensures Registered(w) && os.polled == w.t.polled + i + 1 && verdict == PollVerdict(w.t.Poll(i))
      ensures os.log == old(os.log) + [call] && call.timeout == timeout.Value()
      ensures IsSelectOf(call, w.readFds, w.writeFds)
    {
      var result;
      result, call := Select(timeout);
      verdict := None;
      if result == -1 {
        var errorNumber := os.errno;
        if errorNumber != EINTR {
          verdict := Some(Err(Error(Selecting, errorNumber, None)));
          return;
        }
      }
      if result > 0 { verdict := Some(Ok(false)); }
    }

    ghost function Begin(moment: Time): Wait
      reads this, os, moment, readFileDescriptors, writeFileDescriptors
    {
      Wait(moment.Value(), os.Upcoming(), os.log, OpenFds(readFileDescriptors), OpenFds(writeFileDescriptors))
    }

    // The wait ends in every environment that makes some round stop.
    method WaitUntil(moment: Time) returns (r: Result<bool>)
      requires AllBelow(OpenFds(readFileDescriptors) + OpenFds(writeFileDescriptors), FD_SETSIZE)
      requires IsWaitable(moment.Value())
      requires exists i :: i >= 0 && Stops(moment.Value(), os.Upcoming(), i)
      modifies `readFdSet, `writeFdSet, os`polled, os`errno, os`log, os`ticks
      ensures os.ticks > old(os.ticks) && os.polled >= old(os.polled)
      ensures var w, k, selects := old(Begin(moment)), os.ticks - old(os.ticks) - 1, os.polled - old(os.polled);
              && Ended(w.moment, w.t, k, selects, r) && WaitedThrough(w.moment, w.t, k)
              && Concluded(w.moment, w.t.Clock(k), w.t.Poll(k), k, selects, r)
              && Logged(w, os.log, selects) && Bounded(w.moment, w.t, k, selects)
    {
      ghost var w := Begin(moment);
      ghost var goal: nat :| Stops(w.moment, w.t, goal);
      var zeroTime := new Time(0, 1);
      var currentTime := new Time.Zero();
      r := WaitLoop(moment, zeroTime, currentTime, w, goal);
      SelectsAreBounded(w.moment, w.t, os.ticks - w.t.ticks - 1);
      EndedMeans(w.moment, w.t, os.ticks - w.t.ticks - 1, os.polled - w.t.polled, r);
    }

    method WaitLoop(moment: Time, zeroTime: Time, currentTime: Time, ghost w: Wait, ghost goal: nat)
      returns (r: Result<bool>)
      requires moment != currentTime && zeroTime != currentTime && zeroTime.Value() == Stamp(0, 1)
      requires w.moment == moment.Value() && IsWaitable(w.moment) && w.t == os.Upcoming() && w.log0 == os.log
      requires Registered(w) && Stops(w.moment, w.t, goal)
      modifies `readFdSet, `writeFdSet, os`polled, os`errno, os`log, os`ticks, currentTime
      ensures os.ticks > w.t.ticks && os.polled >= w.t.polled
      ensures Ended(w.moment, w.t, os.ticks - w.t.ticks - 1, os.polled - w.t.polled, r)
      ensures Logged(w, os.log, os.polled - w.t.polled)
    {
      var timeout, error := Remaining(moment, currentTime, w.t, 0);
      var verdict: Option<Result<bool>> := None;
      ghost var i := 0;
      while verdict.None? && error.None? && timeout.GreaterThan(zeroTime)
        modifies `readFdSet, `writeFdSet, os`polled, os`errno, os`log, os`ticks, currentTime
        invariant timeout != currentTime && Registered(w) && os.ticks == w.t.ticks + i + 1
        invariant Looping(w, goal, i, os.log, os.polled - w.t.polled, timeout.Value(), error, verdict)
        decreases verdict.None?, goal - i
      {
        timeout, error, verdict, i := Round(moment, currentTime, timeout, w, goal, i);
      }
      LoopEnds(w, goal, i, os.log, os.polled - w.t.polled, timeout.Value(), error, verdict);
      return Finish(verdict, error);
    }

    // One turn of the loop: select, then read the clock unless that ended the wait.
    method Round(moment: Time, currentTime: Time, timeout: Time, ghost w: Wait, ghost goal: nat, ghost i: nat)
      returns (left: Time, error: Option<Errno>, verdict: Option<Result<bool>>, ghost next: nat)
      requires moment != currentTime && timeout != currentTime && Before(Stamp(0, 1), timeout.Value())
      requires w.moment == moment.Value() && IsWaitable(w.moment) && Registered(w)
      requires w.t.clock == os.clock && w.t.polls == os.polls && os.ticks == w.t.ticks + i + 1
      requires Looping(w, goal, i, os.log, os.polled - w.t.polled, timeout.Value(), None, None)
      modifies `readFdSet, `writeFdSet, os`polled, os`errno, os`log, os`ticks, currentTime
      ensures left != currentTime && Registered(w) && os.ticks == w.t.ticks + next + 1
      ensures if verdict.Some? then next == i else next == i + 1 <= goal
      ensures Looping(w, goal, next, os.log, os.polled - w.t.polled, left.Value(), error, verdict)
    {
      ghost var log := os.log;
      ghost var call;
      left, error, next := timeout, None, i;
      verdict, call := SelectOnce(timeout, w, i);
      LoopSelects(w, goal, i, log, timeout.Value(), call);
      if verdict.None? {
        left, error := Remaining(moment, currentTime, w.t, i + 1);
        next := i + 1;
      }
    }
  }
}
