/**
 Successive sessions of one device over its delivery queue. Resume, read and acknowledgement reach
 the store only inside an operation the hub admitted for the session; appends come from any sender.
 A run interleaves the hub's steps with those store calls in any way.
 */
module SessionHandover {
  import opened Base
  import opened Bytes
  import DeliveryQueue
  import DeliverySession
  import HubModel

  datatype Call = Resume(cursor: nat, now: int) | Read(after: nat, now: int) | Acknowledge(cursor: nat)

  /** A store call a session made on its own device's queue. */
  datatype Served = Served(instance: nat, peer: HubModel.Peer, call: Call)

  datatype World = World(hub: HubModel.State, queues: map<HubModel.Peer, DeliveryQueue.Queue>, served: seq<Served>)

  datatype Event =
    | HubStep(action: HubModel.Action)
    | Serve(t: nat, call: Call)
    | Append(peer: HubModel.Peer, envelope: seq<byte>, expiresAt: int, now: int)

  const START := World(HubModel.INITIAL, map[], [])

  function QueueOf(w: World, p: HubModel.Peer): DeliveryQueue.Queue {
    if p in w.queues then w.queues[p] else DeliveryQueue.FRESH
  }

  /** The queue after a session's call; a refused call leaves it alone. */
  function Apply(q: DeliveryQueue.Queue, call: Call): DeliveryQueue.Queue {
    match call
    case Resume(cursor, now) =>
      var r := DeliveryQueue.Resume(q, cursor, now, DeliverySession.DELIVERY_BATCH_SIZE);
      if r.Ok? then r.value.0 else q
    case Read(after, now) => DeliveryQueue.Read(q, after, now, DeliverySession.DELIVERY_BATCH_SIZE).0
    case Acknowledge(cursor) =>
      var r := DeliveryQueue.Acknowledge(q, cursor);
      if r.Ok? then r.value else q
  }

  function Step(w: World, e: Event): World {
    match e
    case HubStep(a) => w.(hub := HubModel.Step(w.hub, a))
    case Serve(t, call) =>
      if t in w.hub.threads && w.hub.threads[t].OperationAdmitted? then
        var th := w.hub.threads[t];
        w.(queues := w.queues[th.peer := Apply(QueueOf(w, th.peer), call)],
           served := w.served + [Served(th.instance, th.peer, call)])
      else w
    case Append(p, envelope, expiresAt, now) =>
      var r := DeliveryQueue.Append(QueueOf(w, p), envelope, expiresAt, now);
      if r.Ok? then w.(queues := w.queues[p := r.value.0]) else w
  }

  function Run(w: World, events: seq<Event>): World
    decreases |events|
  {
    if events == [] then w else Run(Step(w, events[0]), events[1..])
  }

  // ------------------------------------------------------------------- invariant

  /** The call was served for an instance of the device. */
  predicate ServedOk(w: World, d: Served) {
    d.instance < |w.hub.instances| && w.hub.instances[d.instance].peer == d.peer
  }

  /** Calls on one device's queue come in the order its sessions registered. */
  predicate InOrder(served: seq<Served>) {
    forall m, n | 0 <= m < n < |served| && served[m].peer == served[n].peer :: served[m].instance <= served[n].instance
  }

  ghost predicate Invariant(w: World) {
    && HubModel.Invariant(w.hub) && HubModel.Newest(w.hub)
    && (forall p | p in w.queues :: DeliveryQueue.Inv(w.queues[p]))
    && (forall d | d in w.served :: ServedOk(w, d))
    && InOrder(w.served)
  }

  lemma FreshInv()
    ensures DeliveryQueue.Inv(DeliveryQueue.FRESH)
  {
  }

  /** A session's call keeps the queue's invariant and only raises the acknowledged cursor, to its own cursor. */
  lemma ApplyRaises(q: DeliveryQueue.Queue, call: Call)
    requires DeliveryQueue.Inv(q)
    ensures DeliveryQueue.Inv(Apply(q, call))
    ensures Apply(q, call).acknowledged == q.acknowledged
            || (!call.Read? && call.cursor == Apply(q, call).acknowledged > q.acknowledged)
  {
    match call
    case Resume(cursor, now) =>
      if DeliveryQueue.Resume(q, cursor, now, DeliverySession.DELIVERY_BATCH_SIZE).Ok? {
        DeliveryQueue.ResumeInv(q, cursor, now, DeliverySession.DELIVERY_BATCH_SIZE);
      }
    case Read(after, now) => DeliveryQueue.ReadInv(q, after, now, DeliverySession.DELIVERY_BATCH_SIZE);
    case Acknowledge(cursor) =>
      if DeliveryQueue.Acknowledge(q, cursor).Ok? { DeliveryQueue.AcknowledgeInv(q, cursor); }
  }

  lemma AppendKeeps(q: DeliveryQueue.Queue, envelope: seq<byte>, expiresAt: int, now: int)
    requires DeliveryQueue.Inv(q) && DeliveryQueue.Append(q, envelope, expiresAt, now).Ok?
    ensures var n := DeliveryQueue.Append(q, envelope, expiresAt, now).value.0;
            DeliveryQueue.Inv(n) && n.acknowledged == q.acknowledged
  {
    DeliveryQueue.AppendInv(q, envelope, expiresAt, now);
  }

  lemma HubKeeps(w: World, a: HubModel.Action)
    requires Invariant(w)
    ensures Invariant(Step(w, HubStep(a)))
  {
    HubModel.StepPreserves(w.hub, a);
    HubModel.NewestStep(w.hub, a);
    var n := Step(w, HubStep(a));
    forall d | d in n.served ensures ServedOk(n, d) {
      assert ServedOk(w, d);
      HubModel.InstanceStep(w.hub, a, d.instance);
    }
  }

  lemma ServeKeeps(w: World, t: nat, call: Call)
    requires Invariant(w)
    ensures Invariant(Step(w, Serve(t, call)))
  {
    if t in w.hub.threads && w.hub.threads[t].OperationAdmitted? {
      HubModel.AdmittedHolds(w.hub, t);
      var th := w.hub.threads[t];
      FreshInv();
      ApplyRaises(QueueOf(w, th.peer), call);
      OrderGrows(w, th.instance, th.peer, call);
    }
  }

  lemma OrderGrows(w: World, i: nat, p: HubModel.Peer, call: Call)
    requires HubModel.Newest(w.hub) && HubModel.Holds(w.hub, i) && w.hub.instances[i].peer == p
    requires (forall d | d in w.served :: ServedOk(w, d)) && InOrder(w.served)
    ensures InOrder(w.served + [Served(i, p, call)])
  {
    forall d | d in w.served && d.peer == p ensures d.instance <= i { assert ServedOk(w, d); }
  }

  lemma AppendWorldKeeps(w: World, p: HubModel.Peer, envelope: seq<byte>, expiresAt: int, now: int)
    requires Invariant(w)
    ensures Invariant(Step(w, Append(p, envelope, expiresAt, now)))
  {
    FreshInv();
    if DeliveryQueue.Append(QueueOf(w, p), envelope, expiresAt, now).Ok? {
      AppendKeeps(QueueOf(w, p), envelope, expiresAt, now);
    }
  }

  lemma StepKeeps(w: World, e: Event)
    requires Invariant(w)
    ensures Invariant(Step(w, e))
  {
    if e.HubStep? {
      HubKeeps(w, e.action);
    } else if e.Serve? {
      ServeKeeps(w, e.t, e.call);
    } else {
      AppendWorldKeeps(w, e.peer, e.envelope, e.expiresAt, e.now);
    }
  }

  lemma {:induction false} RunKeeps(w: World, events: seq<Event>)
    requires Invariant(w)
    ensures Invariant(Run(w, events))
    decreases |events|
  {
    if events != [] {
      StepKeeps(w, events[0]);
      RunKeeps(Step(w, events[0]), events[1..]);
    }
  }

  // ---------------------------------------------------------------- main theorems

  /**
   Sessions never interleave: in every run the calls that reach one device's queue are those of its
   first session, then those of its second, and so on, in the order the sessions registered.
   */
  lemma SessionsTakeTurns(events: seq<Event>, m: nat, n: nat)
    requires m < n < |Run(START, events).served|
    ensures var served := Run(START, events).served;
            served[m].peer == served[n].peer ==> served[m].instance <= served[n].instance
  {
    RunKeeps(START, events);
  }

  /** What happened to a device's queue since an earlier world, while instance i kept the slot. */
  ghost predicate OwnOnly(w: World, n: World, i: nat)
    requires i < |w.hub.instances|
  {
    var p := w.hub.instances[i].peer;
    && w.served <= n.served
    && (forall d | d in n.served[|w.served|..] && d.peer == p :: d.instance == i)
    && QueueOf(w, p).acknowledged <= QueueOf(n, p).acknowledged
    && (|| QueueOf(n, p).acknowledged == QueueOf(w, p).acknowledged
        || exists d :: d in n.served[|w.served|..] && AckedBy(d, i, p, QueueOf(n, p).acknowledged))
  }

  predicate AckedBy(d: Served, i: nat, p: HubModel.Peer, cursor: int) {
    d.instance == i && d.peer == p && !d.call.Read? && d.call.cursor == cursor
  }

  lemma OwnSame(w: World, n: World, i: nat)
    requires i < |w.hub.instances| && n.served == w.served
    requires QueueOf(n, w.hub.instances[i].peer).acknowledged == QueueOf(w, w.hub.instances[i].peer).acknowledged
    ensures OwnOnly(w, n, i)
  {
  }

  /** One call served for instance i, on its own device's queue. */
  lemma OwnCall(w: World, n: World, i: nat, call: Call)
    requires i < |w.hub.instances|
    requires var p := w.hub.instances[i].peer;
             && n.served == w.served + [Served(i, p, call)]
             && (|| QueueOf(n, p).acknowledged == QueueOf(w, p).acknowledged
                 || (!call.Read? && call.cursor == QueueOf(n, p).acknowledged > QueueOf(w, p).acknowledged))
    ensures OwnOnly(w, n, i)
  {
    var p := w.hub.instances[i].peer;
    var d := Served(i, p, call);
    assert n.served[|w.served|..] == [d];
    if QueueOf(n, p).acknowledged != QueueOf(w, p).acknowledged {
      assert d in n.served[|w.served|..] && AckedBy(d, i, p, QueueOf(n, p).acknowledged);
    }
  }

  /** A call served on another device's queue. */
  lemma OtherCall(w: World, n: World, i: nat, d: Served)
    requires i < |w.hub.instances| && d.peer != w.hub.instances[i].peer && n.served == w.served + [d]
    requires QueueOf(n, w.hub.instances[i].peer) == QueueOf(w, w.hub.instances[i].peer)
    ensures OwnOnly(w, n, i)
  {
    assert n.served[|w.served|..] == [d];
  }

  /** Any device's queue, stored or still fresh, satisfies the queue invariant. */
  lemma QueueOk(w: World, p: HubModel.Peer)
    requires Invariant(w)
    ensures DeliveryQueue.Inv(QueueOf(w, p))
  {
    FreshInv();
  }

  lemma OwnServe(w: World, t: nat, call: Call, i: nat)
    requires HubModel.Invariant(w.hub) && HubModel.Holds(w.hub, i)
    requires t in w.hub.threads && w.hub.threads[t].OperationAdmitted?
    requires DeliveryQueue.Inv(QueueOf(w, w.hub.threads[t].peer))
    ensures OwnOnly(w, Step(w, Serve(t, call)), i)
  {
    hide Apply, OwnOnly;
    HubModel.AdmittedHolds(w.hub, t);
    var th, n := w.hub.threads[t], Step(w, Serve(t, call));
    if th.peer == w.hub.instances[i].peer {
      ApplyRaises(QueueOf(w, th.peer), call);
      OwnCall(w, n, i, call);
    } else {
      OtherCall(w, n, i, Served(th.instance, th.peer, call));
    }
  }

  lemma OwnAppend(w: World, p: HubModel.Peer, envelope: seq<byte>, expiresAt: int, now: int, i: nat)
    requires DeliveryQueue.Inv(QueueOf(w, p)) && i < |w.hub.instances|
    ensures OwnOnly(w, Step(w, Append(p, envelope, expiresAt, now)), i)
  {
    hide OwnOnly;
    if DeliveryQueue.Append(QueueOf(w, p), envelope, expiresAt, now).Ok? {
      AppendKeeps(QueueOf(w, p), envelope, expiresAt, now);
    }
    OwnSame(w, Step(w, Append(p, envelope, expiresAt, now)), i);
  }

  /** A step taken while instance i has its slot. */
  lemma OwnStep(w: World, e: Event, i: nat)
    requires Invariant(w) && HubModel.Holds(w.hub, i)
    ensures OwnOnly(w, Step(w, e), i)
  {
    hide OwnOnly;
    if e.Serve? && e.t in w.hub.threads && w.hub.threads[e.t].OperationAdmitted? {
      QueueOk(w, w.hub.threads[e.t].peer);
      OwnServe(w, e.t, e.call, i);
    } else if e.Append? {
      QueueOk(w, e.peer);
      OwnAppend(w, e.peer, e.envelope, e.expiresAt, e.now, i);
    } else {
      OwnSame(w, Step(w, e), i);
    }
  }

  lemma OwnTransitive(w: World, m: World, n: World, i: nat)
    requires i < |w.hub.instances| && i < |m.hub.instances| && m.hub.instances[i].peer == w.hub.instances[i].peer
    requires OwnOnly(w, m, i) && OwnOnly(m, n, i)
    ensures OwnOnly(w, n, i)
  {
    var p := w.hub.instances[i].peer;
    var early, late := m.served[|w.served|..], n.served[|m.served|..];
    assert n.served[|w.served|..] == early + late;
    if QueueOf(n, p).acknowledged != QueueOf(m, p).acknowledged {
      var d :| d in late && AckedBy(d, i, p, QueueOf(n, p).acknowledged);
      assert d in early + late;
    } else if QueueOf(m, p).acknowledged != QueueOf(w, p).acknowledged {
      var d :| d in early && AckedBy(d, i, p, QueueOf(m, p).acknowledged);
      assert d in early + late;
    }
  }

  lemma {:induction false} HeldThroughout(w: World, events: seq<Event>, i: nat)
    requires Invariant(w) && i < |w.hub.instances| && HubModel.Holds(Run(w, events).hub, i)
    ensures HubModel.Holds(w.hub, i)
    decreases |events|
  {
    if events != [] {
      StepKeeps(w, events[0]);
      if events[0].HubStep? { HubModel.InstanceStep(w.hub, events[0].action, i); }
      HeldThroughout(Step(w, events[0]), events[1..], i);
    }
  }

  lemma {:induction false} OwnRun(w: World, events: seq<Event>, i: nat)
    requires Invariant(w) && i < |w.hub.instances| && HubModel.Holds(Run(w, events).hub, i)
    ensures OwnOnly(w, Run(w, events), i)
    decreases |events|
  {
    if events == [] {
      OwnSame(w, w, i);
    } else {
      HeldThroughout(w, events, i);
      var m := Step(w, events[0]);
      StepKeeps(w, events[0]);
      if events[0].HubStep? { HubModel.InstanceStep(w.hub, events[0].action, i); }
      OwnStep(w, events[0], i);
      OwnRun(m, events[1..], i);
      OwnTransitive(w, m, Run(w, events), i);
    }
  }

  /**
   While a session has its slot, its device's queue is its own: between any two points of a run at
   which instance i exists and still has the slot, every resume, read and acknowledgement served on
   the queue is its own, and the acknowledged cursor is the earlier one or a cursor it gave itself.
   */
  lemma QueueBelongsToSession(first: seq<Event>, second: seq<Event>, i: nat)
    requires i < |Run(START, first).hub.instances| && HubModel.Holds(Run(Run(START, first), second).hub, i)
    ensures OwnOnly(Run(START, first), Run(Run(START, first), second), i)
  {
    RunKeeps(START, first);
    OwnRun(Run(START, first), second, i);
  }
}
