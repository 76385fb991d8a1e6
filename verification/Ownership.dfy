/** Who owns the open descriptors, and what each receiver delivers, over any interleaving of
    operations on any number of sockets and receivers. */
module Ownership {
  import opened Kernel
  import opened Filter
  import opened Sockets
  import opened Receivers
  import Waiters

  // What the OS answers.
  datatype Environment = Environment(answer: Oracle, network: Network, recv: int -> Stream)

  // A live object; `config` and `history` matter for receivers only.  A receiver has no history
  // while it is closed, and none after a member of its base class gave it another socket or took
  // an event of its stream.
  datatype Object = Object(fd: int, config: Config, history: Option<History>)

  // `taken` counts the answered recvfrom calls per descriptor, and `lost` are the descriptors
  // that a destructor failed to close.
  datatype World = World(k: Kernel, taken: map<int, nat>, objects: map<nat, Object>, lost: set<int>)

  // A call of receive or receiveFrom is named with the event that stops it.
  datatype Operation =
    | Construct(id: nat)
    | OpenSocket(id: nat)
    | BindSocket(id: nat, address: Address, port: int)
    | CloseSocket(id: nat)
    | ReceiveFrom(id: nat, last: nat)
    | OpenReceiver(id: nat, config: Config)
    | Receive(id: nat, last: nat)
    | CopyReceiver(id: nat, orig: nat)
    | Destroy(id: nat)

  const NO_CONFIG := Config(INADDR_ANY, 0, INADDR_ANY, 0)
  const START := World(Kernel(map[], {}, 0), map[], map[], {})

  function TakenFrom(w: World, fd: int): nat {
    if fd in w.taken then w.taken[fd] else 0
  }

  function After(w: World, id: nat, e: Effect, c: Config, h: Option<History>): World {
    w.(k := e.k, objects := w.objects[id := Object(e.fd, c, if e.fd >= 0 then h else None)])
  }

  // A member of the base class that keeps the descriptor leaves the history alone.
  function Kept(o: Object, fd: int): Option<History> {
    if fd == o.fd then o.history else None
  }

  // After an open or a copy, a new history begins.
  function Opened(w: World, id: nat, e: Effect, c: Config): World {
    After(w, id, e, c, Some(History(c, TakenFrom(w, e.fd), [])))
  }

  // A copy that throws leaves no object, and what its destructor could not close is lost.
  function Copied(w: World, id: nat, e: Effect, c: Config): World {
    if e.thrown.None? then Opened(w, id, e, c)
    else w.(k := e.k, lost := w.lost + (e.k.socks.Keys - w.k.socks.Keys))
  }

  // A receiving call took the events of its descriptor up to `last`.
  function Took(w: World, id: nat, last: nat, o: Object): World {
    w.(taken := w.taken[o.fd := last + 1], objects := w.objects[id := o])
  }

  // A receiver after a call that was stopped by event `last`.
  function Advanced(ev: Stream, o: Object, last: nat): Object {
    o.(config := o.config.(sourcePort := Latch(o.config.sourcePort, ev.At(last))),
       history := if o.history.Some? then Some(Extended(o.history.value, last)) else None)
  }

  // Whether an operation can happen: its object is live, or not yet if it is to be constructed,
  // and a receiving call names the first event that stops it.
  ghost predicate IsPossible(env: Environment, w: World, op: Operation) {
    match op
    case Construct(id) => id !in w.objects
    case CopyReceiver(id, orig) => id !in w.objects && orig in w.objects
    case ReceiveFrom(id, last) =>
      id in w.objects &&
      var fd := w.objects[id].fd; IsFirstStop(env.recv(fd), INADDR_ANY, 0, TakenFrom(w, fd), last)
    case Receive(id, last) =>
      id in w.objects &&
      var o := w.objects[id];
      IsFirstStop(env.recv(o.fd), o.config.source, o.config.sourcePort, TakenFrom(w, o.fd), last)
    case _ => op.id in w.objects
  }

  function Step(env: Environment, w: World, op: Operation): World
    requires op.Construct? || op.CopyReceiver? || op.id in w.objects
    requires op.CopyReceiver? ==> op.orig in w.objects
  {
    match op
    case Construct(id) => w.(objects := w.objects[id := Object(-1, NO_CONFIG, None)])
    case OpenSocket(id) =>
      After(w, id, OpenSocketEffect(env.answer, w.k, w.objects[id].fd), w.objects[id].config, None)
    case BindSocket(id, address, port) =>
      var o := w.objects[id];
      var e := BindEffect(env.answer, w.k, o.fd, address, port);
      After(w, id, e, o.config, Kept(o, e.fd))
    case CloseSocket(id) =>
      var o := w.objects[id];
      var e := CloseEffect(env.answer, w.k, o.fd);
      After(w, id, e, o.config, Kept(o, e.fd))
    case ReceiveFrom(id, last) => Took(w, id, last, w.objects[id].(history := None))
    case OpenReceiver(id, c) => Opened(w, id, OpenEffect(env.answer, env.network, w.k, w.objects[id].fd, c), c)
    case Receive(id, last) => Took(w, id, last, Advanced(env.recv(w.objects[id].fd), w.objects[id], last))
    case CopyReceiver(id, orig) =>
      var o := w.objects[orig];
      Copied(w, id, CopyEffect(env.answer, env.network, w.k, o.fd, o.config), o.config)
    case Destroy(id) => Destroyed(w, id, DestroyEffect(env.answer, w.k, w.objects[id].fd))
  }

  // An operation that is not possible is no step.
  ghost function Run(env: Environment, w: World, ops: seq<Operation>): World
    decreases |ops|
  {
    if ops == [] then w else Run(env, Next(env, w, ops[0]), ops[1..])
  }

  ghost function Next(env: Environment, w: World, op: Operation): World {
    if IsPossible(env, w, op) then Step(env, w, op) else w
  }

  // The open descriptors are the disjoint union of those that live objects hold and those that
  // were lost, and every interface list has been freed.
  ghost predicate Owned(w: World) {
    && Sane(w.k) && w.k.lists == {}
    && (forall i :: i in w.objects ==> Holds(w.k, w.objects[i].fd) && w.objects[i].fd !in w.lost)
    && (forall i, j :: i in w.objects && j in w.objects && i != j && w.objects[i].fd >= 0 ==>
          w.objects[i].fd != w.objects[j].fd)
    && w.lost <= w.k.socks.Keys
    && (forall d :: d in w.k.socks ==> d in w.lost || IsHeld(w, d))
  }

  ghost predicate IsHeld(w: World, d: int) {
    exists i :: i in w.objects && w.objects[i].fd == d
  }

  // A descriptor that is open after a transfer still has an owner, or was lost before.
  lemma TransferKeepsOwners(w: World, id: nat, e: Effect, c: Config, h: Option<History>, d: int)
    requires Owned(w) && id in w.objects && Transfers(w.k, w.objects[id].fd, e.k, e.fd)
    requires d in e.k.socks && d !in w.lost
    ensures IsHeld(After(w, id, e, c, h), d)
  {
    var w' := After(w, id, e, c, h);
    if d == e.fd {
      assert w'.objects[id].fd == d;
    } else {
      assert d in e.k.socks - {e.fd};
      var i :| i in w.objects && w.objects[i].fd == d;
      assert w'.objects[i].fd == d;
    }
  }

  lemma TransferKeepsOwnership(w: World, id: nat, e: Effect, c: Config, h: Option<History>)
    requires Owned(w) && id in w.objects && Transfers(w.k, w.objects[id].fd, e.k, e.fd)
    ensures Owned(After(w, id, e, c, h))
  {
    var w', fd := After(w, id, e, c, h), w.objects[id].fd;
    assert forall d :: d != fd && d in w.k.socks ==> d in w.k.socks - {fd};
    assert forall d :: d in e.k.socks - {e.fd} <==> d in w.k.socks - {fd};
    forall d | d in e.k.socks && d !in w.lost ensures IsHeld(w', d) {
      TransferKeepsOwners(w, id, e, c, h, d);
    }
  }

  // Replacing an object by one with the same descriptor.
  lemma UpdateKeepsOwnership(w: World, id: nat, taken: map<int, nat>, o: Object)
    requires Owned(w) && id in w.objects && o.fd == w.objects[id].fd
    ensures Owned(w.(taken := taken, objects := w.objects[id := o]))
  {
    var w' := w.(taken := taken, objects := w.objects[id := o]);
    forall d | d in w'.k.socks && d !in w'.lost ensures IsHeld(w', d) {
      var i :| i in w.objects && w.objects[i].fd == d;
      assert w'.objects[i].fd == d;
    }
  }

  lemma ConstructKeepsOwnership(w: World, id: nat)
    requires Owned(w) && id !in w.objects
    ensures Owned(w.(objects := w.objects[id := Object(-1, NO_CONFIG, None)]))
  {
    var w' := w.(objects := w.objects[id := Object(-1, NO_CONFIG, None)]);
    forall d | d in w'.k.socks && d !in w'.lost ensures IsHeld(w', d) {
      var i :| i in w.objects && w.objects[i].fd == d;
      assert w'.objects[i].fd == d;
    }
  }

  function Destroyed(w: World, id: nat, k: Kernel): World
    requires id in w.objects
  {
    var fd := w.objects[id].fd;
    w.(k := k, objects := w.objects - {id}, lost := w.lost + if fd in k.socks then {fd} else {})
  }

  lemma DestroyedKeepsOwnership(w: World, id: nat, k: Kernel)
    requires Owned(w) && id in w.objects && Sane(k) && k.lists == {}
    requires var fd := w.objects[id].fd;
      k.socks == w.k.socks - {fd} || (k.socks == w.k.socks && fd in k.socks)
    ensures Owned(Destroyed(w, id, k))
  {
    var w' := Destroyed(w, id, k);
    forall d | d in w'.k.socks && d !in w'.lost ensures IsHeld(w', d) {
      var i :| i in w.objects && w.objects[i].fd == d;
      assert w'.objects[i].fd == d;
    }
  }

  // Descriptors that appear while no object gets one are lost.
  lemma LosingKeepsOwnership(w: World, k: Kernel)
    requires Owned(w) && Sane(k) && k.lists == {} && w.k.socks.Keys <= k.socks.Keys
    ensures Owned(w.(k := k, lost := w.lost + (k.socks.Keys - w.k.socks.Keys)))
  {
    var w' := w.(k := k, lost := w.lost + (k.socks.Keys - w.k.socks.Keys));
    assert forall d :: IsHeld(w, d) ==> IsHeld(w', d);
  }

  lemma AfterConstruction(w: World, id: nat, e: Effect, c: Config, h: Option<History>)
    ensures After(w.(objects := w.objects[id := Object(-1, NO_CONFIG, None)]), id, e, c, h) == After(w, id, e, c, h)
  {
  }

  // A copy that succeeds is a construction and an open.
  lemma CopiedKeepsOwnership(w: World, id: nat, e: Effect, c: Config)
    requires Owned(w) && id !in w.objects
    requires e.thrown.None? ==> Transfers(w.k, -1, e.k, e.fd)
    requires e.thrown.Some? ==> Sane(e.k) && e.k.lists == {} && w.k.socks.Keys <= e.k.socks.Keys
    ensures Owned(Copied(w, id, e, c))
  {
    if e.thrown.None? {
      var constructed := w.(objects := w.objects[id := Object(-1, NO_CONFIG, None)]);
      ConstructKeepsOwnership(w, id);
      TransferKeepsOwnership(constructed, id, e, c, Some(History(c, TakenFrom(w, e.fd), [])));
      AfterConstruction(w, id, e, c, Some(History(c, TakenFrom(w, e.fd), [])));
    } else {
      LosingKeepsOwnership(w, e.k);
    }
  }

  lemma SocketStepKeepsOwnership(env: Environment, w: World, op: Operation)
    requires Owned(w) && (op.OpenSocket? || op.BindSocket? || op.CloseSocket?) && op.id in w.objects
    ensures Owned(Step(env, w, op)) && w.k.calls <= Step(env, w, op).k.calls
  {
    var o := w.objects[op.id];
    match op
    case OpenSocket(id) =>
      OpenSocketTransfers(env.answer, w.k, o.fd);
      TransferKeepsOwnership(w, id, OpenSocketEffect(env.answer, w.k, o.fd), o.config, None);
    case BindSocket(id, address, port) =>
      var e := BindEffect(env.answer, w.k, o.fd, address, port);
      BindTransfers(env.answer, w.k, o.fd, address, port);
      TransferKeepsOwnership(w, id, e, o.config, Kept(o, e.fd));
    case CloseSocket(id) =>
      var e := CloseEffect(env.answer, w.k, o.fd);
      CloseTransfers(env.answer, w.k, o.fd);
      TransferKeepsOwnership(w, id, e, o.config, Kept(o, e.fd));
  }

  lemma ReceiverStepKeepsOwnership(env: Environment, w: World, op: Operation)
    requires Owned(w) && (op.OpenReceiver? || op.CopyReceiver?) && IsPossible(env, w, op)
    ensures Owned(Step(env, w, op)) && w.k.calls <= Step(env, w, op).k.calls
  {
    match op
    case OpenReceiver(id, c) =>
      var e := OpenEffect(env.answer, env.network, w.k, w.objects[id].fd, c);
      OpenTransfers(env.answer, env.network, w.k, w.objects[id].fd, c);
      TransferKeepsOwnership(w, id, e, c, Some(History(c, TakenFrom(w, e.fd), [])));
    case CopyReceiver(id, orig) =>
      var o := w.objects[orig];
      CopyTransfers(env.answer, env.network, w.k, o.fd, o.config);
      CopiedKeepsOwnership(w, id, CopyEffect(env.answer, env.network, w.k, o.fd, o.config), o.config);
  }

  lemma StepKeepsOwnership(env: Environment, w: World, op: Operation)
    requires Owned(w)
    ensures Owned(Next(env, w, op)) && w.k.calls <= Next(env, w, op).k.calls
  {
    if IsPossible(env, w, op) {
      match op
      case Construct(id) => ConstructKeepsOwnership(w, id);
      case ReceiveFrom(id, last) =>
        var w' := Step(env, w, op);
        UpdateKeepsOwnership(w, id, w'.taken, w'.objects[id]);
      case Receive(id, last) =>
        var w' := Step(env, w, op);
        UpdateKeepsOwnership(w, id, w'.taken, w'.objects[id]);
      case Destroy(id) =>
        DestroyReleases(env.answer, w.k, w.objects[id].fd);
        DestroyedKeepsOwnership(w, id, DestroyEffect(env.answer, w.k, w.objects[id].fd));
      case OpenReceiver(_, _) => ReceiverStepKeepsOwnership(env, w, op);
      case CopyReceiver(_, _) => ReceiverStepKeepsOwnership(env, w, op);
      case _ => SocketStepKeepsOwnership(env, w, op);
    }
  }

  lemma {:induction false} RunsKeepOwnership(env: Environment, w: World, ops: seq<Operation>)
    requires Owned(w)
    ensures Owned(Run(env, w, ops)) && w.k.calls <= Run(env, w, ops).k.calls
    decreases |ops|
  {
    if ops != [] {
      StepKeepsOwnership(env, w, ops[0]);
      RunsKeepOwnership(env, Next(env, w, ops[0]), ops[1..]);
    }
  }

  lemma StepLosesNothing(env: Environment, w: World, op: Operation)
    requires Owned(w) && ClosesSucceed(env.answer, w.k, Next(env, w, op).k)
    ensures Next(env, w, op).lost == w.lost
  {
    if IsPossible(env, w, op) {
      if op.Destroy? { DestroyReleases(env.answer, w.k, w.objects[op.id].fd); }
      if op.CopyReceiver? {
        CopyTransfers(env.answer, env.network, w.k, w.objects[op.orig].fd, w.objects[op.orig].config);
      }
    }
  }

  lemma {:induction false} NothingIsLostIfClosesSucceed(env: Environment, w: World, ops: seq<Operation>)
    requires Owned(w) && ClosesSucceed(env.answer, w.k, Run(env, w, ops).k)
    ensures Run(env, w, ops).lost == w.lost
    decreases |ops|
  {
    if ops != [] {
      var w' := Next(env, w, ops[0]);
      StepKeepsOwnership(env, w, ops[0]);
      RunsKeepOwnership(env, w', ops[1..]);
      StepLosesNothing(env, w, ops[0]);
      NothingIsLostIfClosesSucceed(env, w', ops[1..]);
    }
  }

  // A process that starts with nothing open and ends with every object destroyed leaves open
  // exactly the descriptors whose close failed in a destructor; none if closes succeed.
  lemma NothingLeaks(env: Environment, ops: seq<Operation>)
    requires Run(env, START, ops).objects == map[]
    ensures var w := Run(env, START, ops);
      && w.k.socks.Keys == w.lost && w.k.lists == {}
      && (ClosesSucceed(env.answer, START.k, w.k) ==> w.k.socks == map[])
  {
    RunsKeepOwnership(env, START, ops);
    var w := Run(env, START, ops);
    assert forall d :: d in w.k.socks ==> d in w.lost;
    if ClosesSucceed(env.answer, START.k, w.k) { NothingIsLostIfClosesSucceed(env, START, ops); }
  }

  /* ----- What each receiver delivers ----- */

  // Every receiver with a history is open and in a run over the stream of its descriptor.
  ghost predicate InRuns(env: Environment, w: World) {
    forall i :: i in w.objects && w.objects[i].history.Some? ==>
      var o := w.objects[i];
      o.fd >= 0 && InRun(env.recv(o.fd), o.history.value, o.config, TakenFrom(w, o.fd))
  }

  lemma TookKeepsRuns(env: Environment, w: World, id: nat, last: nat, o: Object)
    requires Owned(w) && InRuns(env, w) && id in w.objects && o.fd == w.objects[id].fd
    requires o.history.Some? ==> o.fd >= 0 && InRun(env.recv(o.fd), o.history.value, o.config, last + 1)
    ensures InRuns(env, Took(w, id, last, o))
  {
    var w' := Took(w, id, last, o);
    forall i | i in w'.objects && w'.objects[i].history.Some? && i != id
      ensures TakenFrom(w', w'.objects[i].fd) == TakenFrom(w, w'.objects[i].fd)
    {
      assert w.objects[i].fd != o.fd;
    }
  }

  // The call of one receiver continues its own run, and no other receiver has its descriptor.
  lemma ReceivingKeepsRuns(env: Environment, w: World, op: Operation)
    requires Owned(w) && InRuns(env, w) && (op.Receive? || op.ReceiveFrom?) && IsPossible(env, w, op)
    ensures InRuns(env, Step(env, w, op))
  {
    var o := w.objects[op.id];
    if op.Receive? {
      if o.history.Some? {
        RunContinues(env.recv(o.fd), o.history.value, o.config, TakenFrom(w, o.fd), op.last);
      }
      TookKeepsRuns(env, w, op.id, op.last, Advanced(env.recv(o.fd), o, op.last));
    } else {
      TookKeepsRuns(env, w, op.id, op.last, o.(history := None));
    }
  }

  // One object was changed by a call that takes no events.
  lemma AfterKeepsRuns(env: Environment, w: World, id: nat, e: Effect, c: Config, h: Option<History>)
    requires InRuns(env, w)
    requires e.fd >= 0 && h.Some? ==> InRun(env.recv(e.fd), h.value, c, TakenFrom(w, e.fd))
    ensures InRuns(env, After(w, id, e, c, h))
  {
  }

  lemma KeptRun(env: Environment, w: World, id: nat, e: Effect)
    requires InRuns(env, w) && id in w.objects
    ensures var o := w.objects[id]; InRuns(env, After(w, id, e, o.config, Kept(o, e.fd)))
  {
    var o := w.objects[id];
    AfterKeepsRuns(env, w, id, e, o.config, Kept(o, e.fd));
  }

  lemma OpenedKeepsRuns(env: Environment, w: World, id: nat, e: Effect, c: Config)
    requires InRuns(env, w)
    ensures InRuns(env, Opened(w, id, e, c))
  {
    AfterKeepsRuns(env, w, id, e, c, Some(History(c, TakenFrom(w, e.fd), [])));
  }

  lemma StepKeepsRuns(env: Environment, w: World, op: Operation)
    requires Owned(w) && InRuns(env, w)
    ensures InRuns(env, Next(env, w, op))
  {
    if IsPossible(env, w, op) {
      match op
      case Receive(_, _) => ReceivingKeepsRuns(env, w, op);
      case ReceiveFrom(_, _) => ReceivingKeepsRuns(env, w, op);
      case OpenSocket(id) =>
        AfterKeepsRuns(env, w, id, OpenSocketEffect(env.answer, w.k, w.objects[id].fd), w.objects[id].config, None);
      case BindSocket(id, address, port) =>
        KeptRun(env, w, id, BindEffect(env.answer, w.k, w.objects[id].fd, address, port));
      case CloseSocket(id) =>
        KeptRun(env, w, id, CloseEffect(env.answer, w.k, w.objects[id].fd));
      case OpenReceiver(id, c) =>
        OpenedKeepsRuns(env, w, id, OpenEffect(env.answer, env.network, w.k, w.objects[id].fd, c), c);
      case CopyReceiver(id, orig) =>
        var o := w.objects[orig];
        OpenedKeepsRuns(env, w, id, CopyEffect(env.answer, env.network, w.k, o.fd, o.config), o.config);
      case _ =>
    }
  }

  lemma {:induction false} RunsKeepRuns(env: Environment, w: World, ops: seq<Operation>)
    requires Owned(w) && InRuns(env, w)
    ensures InRuns(env, Run(env, w, ops))
    decreases |ops|
  {
    if ops != [] {
      StepKeepsOwnership(env, w, ops[0]);
      StepKeepsRuns(env, w, ops[0]);
      RunsKeepRuns(env, Next(env, w, ops[0]), ops[1..]);
    }
  }

  // However the calls of several receivers are interleaved, with each other and with any other
  // operations, each receiver has delivered exactly the wanted events of its own stream since it
  // was opened.
  lemma EachReceiverDeliversItsStream(env: Environment, ops: seq<Operation>, id: nat)
    requires id in Run(env, START, ops).objects && Run(env, START, ops).objects[id].history.Some?
    ensures var w := Run(env, START, ops); var o := w.objects[id]; var h := o.history.value;
      && o.fd in w.k.socks && h.start <= TakenFrom(w, o.fd)
      && (forall i :: i in w.objects && i != id ==> w.objects[i].fd != o.fd)
      && Delivered(env.recv(o.fd), h.stops)
         == Wants(env.recv(o.fd), h.initial.source, h.initial.sourcePort, h.start, TakenFrom(w, o.fd))
  {
    RunsKeepOwnership(env, START, ops);
    RunsKeepRuns(env, START, ops);
    var w := Run(env, START, ops);
    var o := w.objects[id];
    HistoryDelivers(env.recv(o.fd), o.history.value, o.config, TakenFrom(w, o.fd));
  }

  // Each operation can happen when its turn comes.
  ghost predicate ArePossible(env: Environment, w: World, ops: seq<Operation>)
    decreases |ops|
  {
    ops != [] ==> IsPossible(env, w, ops[0]) && ArePossible(env, Step(env, w, ops[0]), ops[1..])
  }

  // The events at which the calls of one receiver stopped, in the order of the calls.
  function CallsOf(id: nat, ops: seq<Operation>): seq<nat>
    decreases |ops|
  {
    if ops == [] then []
    else (if ops[0].Receive? && ops[0].id == id then [ops[0].last] else []) + CallsOf(id, ops[1..])
  }

  predicate OnlyReceives(id: nat, ops: seq<Operation>)
    decreases |ops|
  {
    ops == [] || ((ops[0].id == id ==> ops[0].Receive?) && OnlyReceives(id, ops[1..]))
  }

  function Called(h: History, calls: seq<nat>): History {
    h.(stops := h.stops + calls)
  }

  lemma CallsAreAdded(h: History, ops: seq<Operation>, id: nat)
    requires ops != []
    ensures var op, calls := ops[0], CallsOf(id, ops[1..]);
      Called(h, CallsOf(id, ops))
      == if op.Receive? && op.id == id then Called(Extended(h, op.last), calls) else Called(h, calls)
  {
    if ops[0].Receive? && ops[0].id == id {
      assert h.stops + [ops[0].last] + CallsOf(id, ops[1..]) == h.stops + CallsOf(id, ops);
    } else {
      assert CallsOf(id, ops) == CallsOf(id, ops[1..]);
    }
  }

  // Operations on other objects leave a receiver alone, and a call of its own is added.
  lemma StepExtendsHistory(env: Environment, w: World, op: Operation, id: nat)
    requires id in w.objects && w.objects[id].history.Some? && IsPossible(env, w, op)
    requires op.id == id ==> op.Receive?
    ensures var w' := Step(env, w, op);
      && id in w'.objects && w'.objects[id].fd == w.objects[id].fd
      && w'.objects[id].history
         == if op.id == id then Some(Extended(w.objects[id].history.value, op.last)) else w.objects[id].history
  {
  }

  lemma {:induction false} HistoryIsTheCalls(env: Environment, w: World, ops: seq<Operation>, id: nat)
    requires id in w.objects && w.objects[id].history.Some? && ArePossible(env, w, ops)
    requires OnlyReceives(id, ops)
    ensures var w', h := Run(env, w, ops), w.objects[id].history.value;
      && id in w'.objects && w'.objects[id].fd == w.objects[id].fd
      && w'.objects[id].history == Some(Called(h, CallsOf(id, ops)))
    decreases |ops|
  {
    var h := w.objects[id].history.value;
    if ops == [] {
      assert h.stops + [] == h.stops;
    } else {
      var w' := Step(env, w, ops[0]);
      StepExtendsHistory(env, w, ops[0], id);
      HistoryIsTheCalls(env, w', ops[1..], id);
      CallsAreAdded(h, ops, id);
    }
  }

  // A receiver that was opened delivers, from then on, exactly the wanted events of its stream,
  // as long as only receive is called on it; what happens to other objects does not matter.
  lemma OpenedReceiverDelivers(env: Environment, before: seq<Operation>, id: nat, c: Config, after: seq<Operation>)
    requires IsOpenedBy(env, Run(env, START, before), id, c)
    requires ArePossible(env, Step(env, Run(env, START, before), OpenReceiver(id, c)), after)
    requires OnlyReceives(id, after)
    ensures var w := Step(env, Run(env, START, before), OpenReceiver(id, c));
      DeliversItsCalls(env, w, Run(env, w, after), id, c, CallsOf(id, after))
  {
    RunsKeepOwnership(env, START, before);
    RunsKeepRuns(env, START, before);
    OpenBeginsHistory(env, Run(env, START, before), id, c);
    CallsDeliver(env, Step(env, Run(env, START, before), OpenReceiver(id, c)), id, c, after);
  }

  // So does a copy of an open receiver, with the filters that the original has by then.
  lemma CopiedReceiverDelivers(env: Environment, before: seq<Operation>, id: nat, orig: nat, after: seq<Operation>)
    requires IsPossible(env, Run(env, START, before), CopyReceiver(id, orig))
    requires var w := Run(env, START, before);
      var o := w.objects[orig];
      && o.fd >= 0 && CopyEffect(env.answer, env.network, w.k, o.fd, o.config).thrown.None?
      && ArePossible(env, Step(env, w, CopyReceiver(id, orig)), after)
    requires OnlyReceives(id, after)
    ensures var w0 := Run(env, START, before);
      var w := Step(env, w0, CopyReceiver(id, orig));
      DeliversItsCalls(env, w, Run(env, w, after), id, w0.objects[orig].config, CallsOf(id, after))
  {
    RunsKeepOwnership(env, START, before);
    RunsKeepRuns(env, START, before);
    CopyBeginsHistory(env, Run(env, START, before), id, orig);
    CallsDeliver(env, Step(env, Run(env, START, before), CopyReceiver(id, orig)), id,
                 Run(env, START, before).objects[orig].config, after);
  }

  lemma CopyBeginsHistory(env: Environment, w: World, id: nat, orig: nat)
    requires Owned(w) && InRuns(env, w) && IsPossible(env, w, CopyReceiver(id, orig)) && w.objects[orig].fd >= 0
    requires CopyEffect(env.answer, env.network, w.k, w.objects[orig].fd, w.objects[orig].config).thrown.None?
    ensures var w' := Step(env, w, CopyReceiver(id, orig));
      && Owned(w') && InRuns(env, w') && id in w'.objects
      && w'.objects[id].history
         == Some(History(w.objects[orig].config, TakenFrom(w', w'.objects[id].fd), []))
  {
    var o := w.objects[orig];
    var e := CopyEffect(env.answer, env.network, w.k, o.fd, o.config);
    CopyTransfers(env.answer, env.network, w.k, o.fd, o.config);
    CopiedKeepsOwnership(w, id, e, o.config);
    OpenedKeepsRuns(env, w, id, e, o.config);
  }

  predicate IsOpenedBy(env: Environment, w: World, id: nat, c: Config) {
    id in w.objects && OpenEffect(env.answer, env.network, w.k, w.objects[id].fd, c).thrown.None?
  }

  // From w to w', calls stopping at these events delivered what they should.
  ghost predicate DeliversItsCalls(env: Environment, w: World, w': World, id: nat, c: Config, calls: seq<nat>) {
    && id in w.objects && id in w'.objects && w'.objects[id].fd == w.objects[id].fd
    && var fd := w.objects[id].fd;
      Delivered(env.recv(fd), calls)
      == Wants(env.recv(fd), c.source, c.sourcePort, TakenFrom(w, fd), TakenFrom(w', fd))
  }

  lemma CallsDeliver(env: Environment, w: World, id: nat, c: Config, after: seq<Operation>)
    requires Owned(w) && InRuns(env, w) && ArePossible(env, w, after) && OnlyReceives(id, after)
    requires id in w.objects && w.objects[id].history == Some(History(c, TakenFrom(w, w.objects[id].fd), []))
    ensures DeliversItsCalls(env, w, Run(env, w, after), id, c, CallsOf(id, after))
  {
    RunsKeepRuns(env, w, after);
    HistoryIsTheCalls(env, w, after, id);
    var w' := Run(env, w, after);
    var o, h := w'.objects[id], History(c, TakenFrom(w, w.objects[id].fd), []);
    assert Called(h, CallsOf(id, after)).stops == CallsOf(id, after);
    HistoryDelivers(env.recv(o.fd), o.history.value, o.config, TakenFrom(w', o.fd));
  }

  lemma OpenBeginsHistory(env: Environment, w: World, id: nat, c: Config)
    requires Owned(w) && InRuns(env, w) && IsOpenedBy(env, w, id, c)
    ensures var w' := Step(env, w, OpenReceiver(id, c));
      && Owned(w') && InRuns(env, w')
      && w'.objects[id].history == Some(History(c, TakenFrom(w', w'.objects[id].fd), []))
  {
    var fd := w.objects[id].fd;
    ReceiverStepKeepsOwnership(env, w, OpenReceiver(id, c));
    OpenedKeepsRuns(env, w, id, OpenEffect(env.answer, env.network, w.k, fd, c), c);
    OpenedIsOpen(env, w.k, fd, c);
  }

  lemma OpenedIsOpen(env: Environment, k: Kernel, fd: int, c: Config)
    requires Sane(k) && Holds(k, fd)
    ensures var e := OpenEffect(env.answer, env.network, k, fd, c); e.thrown.None? ==> e.fd >= 0
  {
    OpenTransfers(env.answer, env.network, k, fd, c);
  }

  /* ----- What a wait selects on ----- */

  // Each socket stands for a live object of the world.
  ghost predicate AreLive(w: World, sockets: set<UdpSocket>)
    reads sockets
  {
    forall s :: s in sockets ==> exists id :: id in w.objects && w.objects[id].fd == s.fd
  }

  // After any run, a wait on live sockets selects on exactly their descriptors, and all of them
  // are open in the OS: as waitUntil documents, a bad descriptor is no reason for it to throw.
  lemma WaitsSelectOpenDescriptors(env: Environment, ops: seq<Operation>,
                                   waiter: Waiters.FdWaiter, wait: Waiters.Wait, log: seq<SelectCall>, count: nat)
    requires var w := Run(env, START, ops);
      && AreLive(w, waiter.readFileDescriptors) && AreLive(w, waiter.writeFileDescriptors)
    requires waiter.Registered(wait) && Waiters.Logged(wait, log, count)
    ensures var w := Run(env, START, ops);
      forall j :: |wait.log0| <= j < |log| ==>
        && log[j].readMask + log[j].writeMask <= w.k.socks.Keys
        && Waiters.FdWaiter.AreHeldBy(log[j].readMask, waiter.readFileDescriptors)
        && Waiters.FdWaiter.AreHeldBy(log[j].writeMask, waiter.writeFileDescriptors)
  {
    RunsKeepOwnership(env, START, ops);
    var w := Run(env, START, ops);
    OpenFdsAreOpen(w, waiter.readFileDescriptors);
    OpenFdsAreOpen(w, waiter.writeFileDescriptors);
    Waiters.FdWaiter.OpenFdsAreHeld(waiter.readFileDescriptors);
    Waiters.FdWaiter.OpenFdsAreHeld(waiter.writeFileDescriptors);
    forall j | |wait.log0| <= j < |log|
      ensures log[j].readMask == wait.readFds && log[j].writeMask == wait.writeFds
    {
      assert Waiters.IsSelectOf(log[j], wait.readFds, wait.writeFds);
    }
  }

  lemma OpenFdsAreOpen(w: World, sockets: set<UdpSocket>)
    requires Owned(w) && AreLive(w, sockets)
    ensures Waiters.FdWaiter.OpenFds(sockets) <= w.k.socks.Keys
  {
  }
}
