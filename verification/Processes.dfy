/** The interleavings of Ownership on objects in memory: any sequence of calls of the methods leaves
    the objects, and the OS, as the corresponding run of steps says.

    Every object is a receiver; a plain socket is one of which only the base class is used. */
module Processes {
  import opened Kernel
  import opened Filter
  import opened Sockets
  import opened Receivers
  import opened Ownership

  ghost predicate Describes(o: Object, r: UdpMulticastReceiver, os: Os)
    reads r, r.base
  {
    && r.os == os && r.base.os == os && r.base.fd == o.fd && r.config == o.config
    && (o.history.Some? ==> r.history == o.history.value)
  }

  ghost predicate AreApart(objects: map<nat, UdpMulticastReceiver>) {
    forall i, j :: i in objects && j in objects && i != j ==>
      objects[i] != objects[j] && objects[i].base != objects[j].base
  }

  ghost predicate Represents(w: World, os: Os, objects: map<nat, UdpMulticastReceiver>)
    reads os, objects.Values, set r | r in objects.Values :: r.base
  {
    && os.k == w.k && os.taken == w.taken && objects.Keys == w.objects.Keys && AreApart(objects)
    && forall i :: i in objects ==> Describes(w.objects[i], objects[i], os)
  }

  // Only new objects come to life.
  twostate predicate Grows(objects: map<nat, UdpMulticastReceiver>, new objects': map<nat, UdpMulticastReceiver>) {
    forall i :: i in objects' ==>
      (i in objects && objects'[i] == objects[i]) || (fresh(objects'[i]) && fresh(objects'[i].base))
  }

  function Env(os: Os): Environment {
    Environment(os.answer, os.network, os.recv)
  }

  // The descriptor of a receiving call is the only one of which events were taken.
  lemma OneWasTaken(before: map<int, nat>, after: map<int, nat>, fd: int, n: nat)
    requires after - {fd} == before - {fd} && fd in after && after[fd] == n
    ensures after == before[fd := n]
  {
    forall d ensures d in after <==> d in before[fd := n] {
      assert d != fd ==> (d in after <==> d in after - {fd}) && (d in before <==> d in before - {fd});
    }
    forall d | d in after && d != fd ensures after[d] == before[d] {
      assert after[d] == (after - {fd})[d] && before[d] == (before - {fd})[d];
    }
  }

  lemma FirstStopIsUnique(ev: Stream, source: Address, port: int, from: nat, j: nat, k: nat)
    requires IsFirstStop(ev, source, port, from, j) && IsFirstStop(ev, source, port, from, k)
    ensures j == k
  {
  }

  // Operations of the base class.
  method PerformOnSocket(ghost w: World, os: Os, objects: map<nat, UdpMulticastReceiver>, op: Operation)
    requires Represents(w, os, objects) && IsPossible(Env(os), w, op)
    requires op.OpenSocket? || op.BindSocket? || op.CloseSocket?
    modifies os, objects[op.id], objects[op.id].base
    ensures Represents(Step(Env(os), w, op), os, objects)
  {
    var r := objects[op.id];
    match op {
      case OpenSocket(_) => var _ := r.base.OpenUdpSocket();
      case BindSocket(_, address, port) => var _ := r.base.Bind(address, port);
      case CloseSocket(_) => var _ := r.base.CloseUdpSocket();
    }
  }

  method PerformOpen(ghost w: World, os: Os, objects: map<nat, UdpMulticastReceiver>, id: nat, c: Config)
    requires Represents(w, os, objects) && Sane(w.k) && id in objects
    modifies os, objects[id], objects[id].base
    ensures Represents(Step(Env(os), w, OpenReceiver(id, c)), os, objects)
  {
    var _ := objects[id].Open(c.group, c.groupPort, c.source, c.sourcePort);
  }

  // One call of receive, as a change of the object that describes the receiver.
  method CallReceive(r: UdpMulticastReceiver, ghost o: Object, ghost last: nat, buffer: array<Octet>)
    requires Describes(o, r, r.os)
    requires IsFirstStop(r.os.recv(o.fd), o.config.source, o.config.sourcePort, r.os.Taken(o.fd), last)
    modifies r, r.os`taken, r.os`errno, buffer
    ensures Describes(Advanced(r.os.recv(o.fd), o, last), r, r.os)
    ensures r.os.taken == old(r.os.taken)[o.fd := last + 1]
  {
    ghost var from, taken := r.os.Taken(o.fd), r.os.taken;
    assert Stops(o.config.source, o.config.sourcePort, r.os.Incoming(o.fd).At(last));
    var _ := r.Receive(buffer, buffer.Length);
    FirstStopIsUnique(r.os.recv(o.fd), o.config.source, o.config.sourcePort, from, last, r.os.Taken(o.fd) - 1);
    OneWasTaken(taken, r.os.taken, o.fd, last + 1);
  }

  method CallReceiveFrom(base: UdpSocket, ghost last: nat, buffer: array<Octet>)
    requires IsFirstStop(base.os.recv(base.fd), INADDR_ANY, 0, base.os.Taken(base.fd), last)
    modifies base.os`taken, base.os`errno, buffer
    ensures base.os.taken == old(base.os.taken)[base.fd := last + 1]
  {
    ghost var from, taken := base.os.Taken(base.fd), base.os.taken;
    assert Stops(INADDR_ANY, 0, base.os.Incoming(base.fd).At(last));
    var _, _, _ := base.ReceiveFrom(buffer, buffer.Length);
    FirstStopIsUnique(base.os.recv(base.fd), INADDR_ANY, 0, from, last, base.os.Taken(base.fd) - 1);
    OneWasTaken(taken, base.os.taken, base.fd, last + 1);
  }

  method PerformReceive(ghost w: World, os: Os, objects: map<nat, UdpMulticastReceiver>, id: nat,
                        ghost last: nat, buffer: array<Octet>)
    requires Represents(w, os, objects) && IsPossible(Env(os), w, Receive(id, last))
    modifies os, objects[id], buffer
    ensures Represents(Step(Env(os), w, Receive(id, last)), os, objects)
  {
    CallReceive(objects[id], w.objects[id], last, buffer);
  }

  method PerformReceiveFrom(ghost w: World, os: Os, objects: map<nat, UdpMulticastReceiver>, id: nat,
                            ghost last: nat, buffer: array<Octet>)
    requires Represents(w, os, objects) && IsPossible(Env(os), w, ReceiveFrom(id, last))
    modifies os, buffer
    ensures Represents(Step(Env(os), w, ReceiveFrom(id, last)), os, objects)
  {
    CallReceiveFrom(objects[id].base, last, buffer);
  }

  method PerformConstruct(ghost w: World, os: Os, objects: map<nat, UdpMulticastReceiver>, id: nat)
    returns (objects': map<nat, UdpMulticastReceiver>)
    requires Represents(w, os, objects) && id !in objects
    ensures Represents(Step(Env(os), w, Construct(id)), os, objects') && Grows(objects, objects')
  {
    var r := new UdpMulticastReceiver(os);
    objects' := objects[id := r];
  }

  method PerformCopy(ghost w: World, os: Os, objects: map<nat, UdpMulticastReceiver>, id: nat, orig: nat)
    returns (objects': map<nat, UdpMulticastReceiver>)
    requires Represents(w, os, objects) && Sane(w.k) && id !in objects && orig in objects
    modifies os
    ensures Represents(Step(Env(os), w, CopyReceiver(id, orig)), os, objects') && Grows(objects, objects')
  {
    var r, thrown := UdpMulticastReceiver.Copy(objects[orig]);
    objects' := if r == null then objects else objects[id := r];
  }

  method PerformDestroy(ghost w: World, os: Os, objects: map<nat, UdpMulticastReceiver>, id: nat)
    returns (objects': map<nat, UdpMulticastReceiver>)
    requires Represents(w, os, objects) && id in objects
    modifies os, objects[id].base
    ensures Represents(Step(Env(os), w, Destroy(id)), os, objects') && Grows(objects, objects')
  {
    objects[id].base.Destroy();
    objects' := objects - {id};
  }

  // Any operation that can happen.
  method Perform(ghost w: World, os: Os, objects: map<nat, UdpMulticastReceiver>, op: Operation,
                 buffer: array<Octet>)
    returns (objects': map<nat, UdpMulticastReceiver>)
    requires Represents(w, os, objects) && Sane(w.k) && IsPossible(Env(os), w, op)
    modifies os, objects.Values, set r | r in objects.Values :: r.base, buffer
    ensures Represents(Step(Env(os), w, op), os, objects') && Grows(objects, objects')
  {
    objects' := objects;
    match op {
      case Construct(id) => objects' := PerformConstruct(w, os, objects, id);
      case CopyReceiver(id, orig) => objects' := PerformCopy(w, os, objects, id, orig);
      case Destroy(id) => objects' := PerformDestroy(w, os, objects, id);
      case OpenReceiver(id, c) => PerformOpen(w, os, objects, id, c);
      case Receive(id, last) => PerformReceive(w, os, objects, id, last, buffer);
      case ReceiveFrom(id, last) => PerformReceiveFrom(w, os, objects, id, last, buffer);
      case _ => PerformOnSocket(w, os, objects, op);
    }
  }

  // After i operations of a run in which each can happen.
  ghost predicate IsOnTheWay(env: Environment, w: World, ops: seq<Operation>, i: nat)
    requires i <= |ops|
  {
    && Owned(w) && InRuns(env, w)
    && ArePossible(env, w, ops[i..]) && Run(env, w, ops[i..]) == Run(env, START, ops)
  }

  lemma GoesOn(env: Environment, w: World, ops: seq<Operation>, i: nat)
    requires i < |ops| && IsOnTheWay(env, w, ops, i)
    ensures Sane(w.k) && IsPossible(env, w, ops[i]) && IsOnTheWay(env, Step(env, w, ops[i]), ops, i + 1)
  {
    StepKeepsOwnership(env, w, ops[i]);
    StepKeepsRuns(env, w, ops[i]);
    assert ops[i..][1..] == ops[i + 1..];
  }

  // A process performs any sequence of operations that can happen.  In the end its objects and
  // the OS are what the run says, so the invariants of all runs hold of them.
  method Execute(os: Os, ops: seq<Operation>, buffer: array<Octet>)
    returns (objects: map<nat, UdpMulticastReceiver>)
    requires os.k == START.k && os.taken == START.taken && ArePossible(Env(os), START, ops)
    modifies os, buffer
    ensures var w := Run(Env(os), START, ops);
      Represents(w, os, objects) && Owned(w) && InRuns(Env(os), w)
  {
    objects := map[];
    ghost var w, env := START, Env(os);
    var i := 0;
    while i < |ops|
      invariant 0 <= i <= |ops| && Env(os) == env
      invariant Represents(w, os, objects) && IsOnTheWay(env, w, ops, i)
      invariant forall id :: id in objects ==> fresh(objects[id]) && fresh(objects[id].base)
    {
      GoesOn(env, w, ops, i);
      objects := Perform(w, os, objects, ops[i], buffer);
      w := Step(env, w, ops[i]);
      i := i + 1;
    }
  }

  // What that means for the objects: they hold distinct open descriptors, no other descriptor is
  // open but the lost ones, and every receiver with a history delivers its own stream.
  lemma RepresentedObjects(w: World, os: Os, objects: map<nat, UdpMulticastReceiver>)
    requires Represents(w, os, objects) && Owned(w) && InRuns(Env(os), w)
    ensures forall i :: i in objects ==> Holds(os.k, objects[i].base.fd)
    ensures forall i, j :: i in objects && j in objects && i != j && objects[i].base.fd >= 0 ==>
              objects[i].base.fd != objects[j].base.fd
    ensures forall d :: d in os.k.socks ==> d in w.lost || exists i :: i in objects && objects[i].base.fd == d
    ensures forall i :: i in objects && w.objects[i].history.Some? ==> objects[i].Valid()
  {
    forall d | d in os.k.socks && d !in w.lost ensures exists i :: i in objects && objects[i].base.fd == d {
      assert IsHeld(w, d);
    }
  }

  // Any of them may be registered with a waiter; Ownership shows what a wait then selects on.
  lemma ObjectsAreLive(w: World, os: Os, objects: map<nat, UdpMulticastReceiver>, sockets: set<UdpSocket>)
    requires Represents(w, os, objects) && forall s :: s in sockets ==> exists i :: i in objects && objects[i].base == s
    ensures AreLive(w, sockets)
  {
    forall s | s in sockets ensures exists i :: i in w.objects && w.objects[i].fd == s.fd {
      var i :| i in objects && objects[i].base == s;
      assert Describes(w.objects[i], objects[i], os);
    }
  }
}
