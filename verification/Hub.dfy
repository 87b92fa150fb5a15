/**
 Session handover in the relay hub. Goroutines interleave between lock sections: every
 section under the hub lock, every acquisition or release of an instance's operation lock
 and every observation of a release signal is one step. A run is any sequence of actions,
 so a statement about all runs is a statement about all interleavings.
 */
module HubModel {
  import opened Base

  type Peer = nat

  const MAX_HANDOVER_ATTEMPTS := 2

  datatype Reason = Revoked | Superseded

  /** One connection instance; its id is its index in the hub's list of instances. */
  datatype Instance = Instance(peer: Peer, version: int, retired: Option<Reason>, released: bool)

  datatype RegisterError = BadVersion | BadQueueSize | StaleCredential | HandoverTimeout | AlreadyConnected

  /** Where a goroutine stands inside Register, Disconnect or an operation. */
  datatype Thread =
    | RegisterTry(peer: Peer, version: int, attempt: nat, waited: set<nat>)
    | RegisterWait(peer: Peer, version: int, attempt: nat, waited: set<nat>, on: nat)
    | Registered(peer: Peer, instance: nat, waited: set<nat>)
    | RegisterFailed(error: RegisterError)
    | DisconnectCheck(peer: Peer, instance: nat)
    | DisconnectDrain(peer: Peer, instance: nat, initiated: bool)
    | DisconnectLocked(peer: Peer, instance: nat, initiated: bool)
    | DisconnectDeleted(peer: Peer, instance: nat, initiated: bool)
    | DisconnectMarked(peer: Peer, instance: nat, initiated: bool)
    | Disconnected(peer: Peer, instance: nat, initiated: bool)
    | OperationStart(peer: Peer, instance: nat)
    | OperationLocking(peer: Peer, instance: nat)
    | OperationReading(peer: Peer, instance: nat)
    | OperationAdmitted(peer: Peer, instance: nat)
    | OperationRefused
    | OperationDone

  datatype State = State(devices: map<Peer, nat>, instances: seq<Instance>, threads: map<nat, Thread>)

  datatype Action =
    | CallRegister(t: nat, peer: Peer, version: int, queueSize: int)
    | TryRegister(t: nat)
    | SeeRelease(t: nat)
    | TimeOut(t: nat)
    | CallDisconnect(t: nat, peer: Peer, instance: nat)
    | CheckDisconnect(t: nat)
    | LockOperations(t: nat)
    | DeleteSlot(t: nat)
    | MarkReleased(t: nat)
    | UnlockOperations(t: nat)
    | CallOperation(t: nat, peer: Peer, instance: nat)
    | EnterOperation(t: nat)
    | ReadLock(t: nat)
    | CheckOperation(t: nat)
    | FinishOperation(t: nat)

  const INITIAL := State(map[], [], map[])

  /** The goroutine holds the instance's operation lock for writing. */
  predicate Writes(th: Thread, i: nat) {
    (th.DisconnectLocked? || th.DisconnectDeleted? || th.DisconnectMarked?) && th.instance == i
  }

  /** The goroutine holds the instance's operation lock for reading. */
  predicate Reads(th: Thread, i: nat) {
    (th.OperationReading? || th.OperationAdmitted?) && th.instance == i
  }

  /** Two goroutines may hold operation locks at the same time: different instances, or both reading. */
  predicate Compatible(th: Thread, other: Thread) {
    (th.DisconnectLocked? || th.DisconnectDeleted? || th.DisconnectMarked?) ==>
      !Writes(other, th.instance) && !Reads(other, th.instance)
  }

  /** The instance occupies its device's slot. */
  predicate Holds(s: State, i: nat) {
    i < |s.instances| && s.instances[i].peer in s.devices && s.devices[s.instances[i].peer] == i
  }

  /** retire: the first reason stays. */
  function Retire(x: Instance, reason: Reason): Instance {
    if x.retired.None? then x.(retired := Some(reason)) else x
  }

  function At(s: State, t: nat, th: Thread): State {
    s.(threads := s.threads[t := th])
  }

  // ---------------------------------------------------------------------- steps

  function TryRegisterStep(s: State, t: nat): State
    requires t in s.threads && s.threads[t].RegisterTry?
  {
    var th := s.threads[t];
    if th.attempt >= MAX_HANDOVER_ATTEMPTS then At(s, t, RegisterFailed(AlreadyConnected))
    else if th.peer !in s.devices then
      At(s.(devices := s.devices[th.peer := |s.instances|],
            instances := s.instances + [Instance(th.peer, th.version, None, false)]),
         t, Registered(th.peer, |s.instances|, th.waited))
    else
      var i := s.devices[th.peer];
      if i >= |s.instances| then s
      else if th.version < s.instances[i].version then At(s, t, RegisterFailed(StaleCredential))
      else
        At(s.(instances := s.instances[i := Retire(s.instances[i], Superseded)]),
           t, RegisterWait(th.peer, th.version, th.attempt, th.waited, i))
  }

  function CheckDisconnectStep(s: State, t: nat): State
    requires t in s.threads && s.threads[t].DisconnectCheck?
  {
    var th := s.threads[t];
    if th.peer !in s.devices || s.devices[th.peer] != th.instance || th.instance >= |s.instances| then
      At(s, t, Disconnected(th.peer, th.instance, false))
    else
      var x := s.instances[th.instance];
      At(s.(instances := s.instances[th.instance := Retire(x, Revoked)]),
         t, DisconnectDrain(th.peer, th.instance, x.retired.None?))
  }

  /** The write lock is free only when nobody holds the lock at all. */
  predicate WriteFree(s: State, i: nat) {
    forall u | u in s.threads :: !Writes(s.threads[u], i) && !Reads(s.threads[u], i)
  }

  predicate ReadFree(s: State, i: nat) {
    forall u | u in s.threads :: !Writes(s.threads[u], i)
  }

  function DeleteSlotStep(s: State, t: nat): State
    requires t in s.threads && s.threads[t].DisconnectLocked?
  {
    var th := s.threads[t];
    var kept := if th.peer in s.devices && s.devices[th.peer] == th.instance then s.devices - {th.peer} else s.devices;
    At(s.(devices := kept), t, DisconnectDeleted(th.peer, th.instance, th.initiated))
  }

  function MarkReleasedStep(s: State, t: nat): State
    requires t in s.threads && s.threads[t].DisconnectDeleted?
  {
    var th := s.threads[t];
    if th.instance >= |s.instances| then s
    else
      At(s.(instances := s.instances[th.instance := s.instances[th.instance].(released := true)]),
         t, DisconnectMarked(th.peer, th.instance, th.initiated))
  }

  /** The new position of a goroutine whose step changes nothing shared, if the step is enabled. */
  function Move(s: State, a: Action): Option<Thread> {
    if a.CallRegister? then
      if a.t in s.threads then None
      else if a.version < 1 then Some(RegisterFailed(BadVersion))
      else if a.queueSize < 1 then Some(RegisterFailed(BadQueueSize))
      else Some(RegisterTry(a.peer, a.version, 0, {}))
    else if a.CallDisconnect? then
      if a.t in s.threads then None else Some(DisconnectCheck(a.peer, a.instance))
    else if a.CallOperation? then
      if a.t in s.threads then None else Some(OperationStart(a.peer, a.instance))
    else if a.t !in s.threads then None
    else
      match (a, s.threads[a.t])
      case (SeeRelease(_), RegisterWait(p, v, attempt, waited, on)) =>
        if on < |s.instances| && s.instances[on].released then Some(RegisterTry(p, v, attempt + 1, waited + {on}))
        else None
      case (TimeOut(_), RegisterWait(_, _, _, _, _)) => Some(RegisterFailed(HandoverTimeout))
      case (LockOperations(_), DisconnectDrain(p, i, initiated)) =>
        if WriteFree(s, i) then Some(DisconnectLocked(p, i, initiated)) else None
      case (UnlockOperations(_), DisconnectMarked(p, i, initiated)) => Some(Disconnected(p, i, initiated))
      case (EnterOperation(_), OperationStart(p, i)) =>
        if i < |s.instances| && s.instances[i].retired.None? then Some(OperationLocking(p, i))
        else Some(OperationRefused)
      case (ReadLock(_), OperationLocking(p, i)) => if ReadFree(s, i) then Some(OperationReading(p, i)) else None
      case (CheckOperation(_), OperationReading(p, i)) =>
        if p in s.devices && s.devices[p] == i && i < |s.instances| && s.instances[i].retired.None?
        then Some(OperationAdmitted(p, i))
        else Some(OperationRefused)
      case (FinishOperation(_), OperationAdmitted(_, _)) => Some(OperationDone)
      case _ => None
  }

  function MoveStep(s: State, a: Action): State {
    if Move(s, a).Some? then At(s, a.t, Move(s, a).value) else s
  }

  /** An action that is not enabled leaves the state unchanged. */
  function Step(s: State, a: Action): State {
    if a.TryRegister? then
      if a.t in s.threads && s.threads[a.t].RegisterTry? then TryRegisterStep(s, a.t) else s
    else if a.CheckDisconnect? then
      if a.t in s.threads && s.threads[a.t].DisconnectCheck? then CheckDisconnectStep(s, a.t) else s
    else if a.DeleteSlot? then
      if a.t in s.threads && s.threads[a.t].DisconnectLocked? then DeleteSlotStep(s, a.t) else s
    else if a.MarkReleased? then
      if a.t in s.threads && s.threads[a.t].DisconnectDeleted? then MarkReleasedStep(s, a.t) else s
    else MoveStep(s, a)
  }

  function Run(s: State, actions: seq<Action>): State
    decreases |actions|
  {
    if actions == [] then s else Run(Step(s, actions[0]), actions[1..])
  }

  // ------------------------------------------------------------ inductive invariant

  /** Slots point at instances of their own device. */
  predicate Slots(s: State) {
    forall p | p in s.devices :: s.devices[p] < |s.instances| && s.instances[s.devices[p]].peer == p
  }

  /** An instance that is not in its slot has a retirement reason; a released one is not in any slot. */
  predicate Leaving(s: State) {
    forall i | 0 <= i < |s.instances| ::
      && (!Holds(s, i) ==> s.instances[i].retired.Some?)
      && (s.instances[i].released ==> !Holds(s, i))
  }

  /** The operation lock: a writer excludes everybody else. */
  predicate Exclusive(s: State) {
    forall t, u | t in s.threads && u in s.threads && t != u :: Compatible(s.threads[t], s.threads[u])
  }

  /** Instances a registration waited for: gone for good, of its own device and no newer than it. */
  predicate WaitedOk(s: State, waited: set<nat>, p: Peer, version: int) {
    forall w | w in waited ::
      w < |s.instances| && s.instances[w].released && s.instances[w].peer == p && s.instances[w].version <= version
  }

  predicate ThreadOk(s: State, th: Thread) {
    match th
    case RegisterTry(p, v, attempt, waited) =>
      attempt == |waited| <= MAX_HANDOVER_ATTEMPTS && WaitedOk(s, waited, p, v)
    case RegisterWait(p, v, attempt, waited, on) =>
      && attempt == |waited| < MAX_HANDOVER_ATTEMPTS && WaitedOk(s, waited, p, v) && on !in waited
      && on < |s.instances| && s.instances[on].retired.Some? && s.instances[on].peer == p
      && s.instances[on].version <= v
    case Registered(p, i, waited) =>
      i < |s.instances| && s.instances[i].peer == p && WaitedOk(s, waited, p, s.instances[i].version)
    case DisconnectDrain(p, i, _) => i < |s.instances| && s.instances[i].peer == p && s.instances[i].retired.Some?
    case DisconnectLocked(p, i, _) => i < |s.instances| && s.instances[i].peer == p && s.instances[i].retired.Some?
    case DisconnectDeleted(p, i, _) => i < |s.instances| && s.instances[i].peer == p && !Holds(s, i)
    case DisconnectMarked(p, i, _) => i < |s.instances| && s.instances[i].released
    case OperationAdmitted(p, i) => p in s.devices && s.devices[p] == i
    case _ => true
  }

  predicate ThreadsOk(s: State) {
    forall t | t in s.threads :: ThreadOk(s, s.threads[t])
  }

  predicate Invariant(s: State) {
    Slots(s) && Leaving(s) && Exclusive(s) && ThreadsOk(s)
  }

  // --------------------------------------------------------- every step preserves it

  /** The goroutine's new position holds no lock beyond what its old position held. */
  predicate NoNewLock(s: State, t: nat, th: Thread) {
    && (th.DisconnectLocked? || th.DisconnectDeleted? || th.DisconnectMarked? ==>
          t in s.threads && Writes(s.threads[t], th.instance))
    && (th.OperationReading? || th.OperationAdmitted? ==> t in s.threads && Reads(s.threads[t], th.instance))
  }

  lemma ExclusiveMove(s: State, t: nat, th: Thread)
    requires Exclusive(s) && NoNewLock(s, t, th)
    ensures Exclusive(At(s, t, th))
  {
  }

  /** A change of one goroutine's position that acquires no lock. */
  lemma MovePreserves(s: State, t: nat, th: Thread)
    requires Invariant(s) && ThreadOk(s, th) && NoNewLock(s, t, th)
    ensures Invariant(At(s, t, th))
  {
    ExclusiveMove(s, t, th);
    var n := At(s, t, th);
    forall u | u in n.threads ensures ThreadOk(n, n.threads[u]) {
      assert ThreadOk(s, n.threads[u]);
    }
  }

  lemma MoveIsOk(s: State, a: Action)
    requires ThreadsOk(s) && Move(s, a).Some?
    ensures ThreadOk(s, Move(s, a).value)
    ensures a.LockOperations? || a.ReadLock? || NoNewLock(s, a.t, Move(s, a).value)
  {
    if a.t in s.threads { assert ThreadOk(s, s.threads[a.t]); }
  }

  /** Retirement only adds a reason, so every position stays consistent. */
  lemma RetirePreserves(s: State, i: nat, reason: Reason)
    requires Invariant(s) && i < |s.instances|
    ensures Invariant(s.(instances := s.instances[i := Retire(s.instances[i], reason)]))
  {
    var n := s.(instances := s.instances[i := Retire(s.instances[i], reason)]);
    assert forall k | 0 <= k < |s.instances| :: Holds(n, k) <==> Holds(s, k);
    forall t | t in n.threads ensures ThreadOk(n, n.threads[t]) {
      assert ThreadOk(s, s.threads[t]);
    }
  }

  lemma OccupyPreserves(s: State, p: Peer, version: int)
    requires Invariant(s) && p !in s.devices
    ensures Invariant(s.(devices := s.devices[p := |s.instances|],
                         instances := s.instances + [Instance(p, version, None, false)]))
  {
    var n := s.(devices := s.devices[p := |s.instances|],
                instances := s.instances + [Instance(p, version, None, false)]);
    assert forall k | 0 <= k < |s.instances| :: Holds(n, k) <==> Holds(s, k);
    assert Holds(n, |s.instances|);
    forall t | t in n.threads ensures ThreadOk(n, n.threads[t]) {
      assert ThreadOk(s, s.threads[t]);
    }
  }

  lemma TryRegisterPreserves(s: State, t: nat)
    requires Invariant(s) && t in s.threads && s.threads[t].RegisterTry?
    ensures Invariant(TryRegisterStep(s, t))
  {
    var th := s.threads[t];
    assert ThreadOk(s, th);
    if th.attempt >= MAX_HANDOVER_ATTEMPTS {
      MovePreserves(s, t, RegisterFailed(AlreadyConnected));
    } else if th.peer !in s.devices {
      OccupyPreserves(s, th.peer, th.version);
      var n := s.(devices := s.devices[th.peer := |s.instances|],
                  instances := s.instances + [Instance(th.peer, th.version, None, false)]);
      MovePreserves(n, t, Registered(th.peer, |s.instances|, th.waited));
    } else if th.version < s.instances[s.devices[th.peer]].version {
      MovePreserves(s, t, RegisterFailed(StaleCredential));
    } else {
      var i := s.devices[th.peer];
      RetirePreserves(s, i, Superseded);
      MovePreserves(s.(instances := s.instances[i := Retire(s.instances[i], Superseded)]), t,
                    RegisterWait(th.peer, th.version, th.attempt, th.waited, i));
    }
  }

  lemma CheckDisconnectPreserves(s: State, t: nat)
    requires Invariant(s) && t in s.threads && s.threads[t].DisconnectCheck?
    ensures Invariant(CheckDisconnectStep(s, t))
  {
    var th := s.threads[t];
    if th.peer !in s.devices || s.devices[th.peer] != th.instance {
      MovePreserves(s, t, Disconnected(th.peer, th.instance, false));
    } else {
      RetirePreserves(s, th.instance, Revoked);
      MovePreserves(s.(instances := s.instances[th.instance := Retire(s.instances[th.instance], Revoked)]), t,
                    DisconnectDrain(th.peer, th.instance, s.instances[th.instance].retired.None?));
    }
  }

  /** Taking a free lock keeps exclusion. */
  lemma LockPreserves(s: State, t: nat, th: Thread)
    requires Invariant(s) && t in s.threads && ThreadOk(s, th)
    requires || (th.DisconnectLocked? && WriteFree(s, th.instance))
             || (th.OperationReading? && ReadFree(s, th.instance))
    ensures Invariant(At(s, t, th))
  {
    var n := At(s, t, th);
    forall u | u in n.threads ensures ThreadOk(n, n.threads[u]) {
      assert ThreadOk(s, n.threads[u]);
    }
  }

  /** Deleting under the write lock: nobody else can be admitted on this instance. */
  lemma DeleteSlotPreserves(s: State, t: nat)
    requires Invariant(s) && t in s.threads && s.threads[t].DisconnectLocked?
    ensures Invariant(DeleteSlotStep(s, t))
  {
    var th := s.threads[t];
    assert ThreadOk(s, th);
    var n := DeleteSlotStep(s, t);
    assert forall k | 0 <= k < |s.instances| && k != th.instance :: Holds(n, k) <==> Holds(s, k);
    assert !Holds(n, th.instance);
    ExclusiveMove(s, t, n.threads[t]);
    forall u | u in n.threads ensures ThreadOk(n, n.threads[u]) {
      if u != t {
        assert ThreadOk(s, s.threads[u]) && Compatible(th, s.threads[u]);
      }
    }
  }

  lemma MarkReleasedPreserves(s: State, t: nat)
    requires Invariant(s) && t in s.threads && s.threads[t].DisconnectDeleted?
    ensures Invariant(MarkReleasedStep(s, t))
  {
    var th := s.threads[t];
    assert ThreadOk(s, th);
    var n := MarkReleasedStep(s, t);
    assert forall k | 0 <= k < |s.instances| :: Holds(n, k) <==> Holds(s, k);
    ExclusiveMove(s, t, n.threads[t]);
    forall u | u in n.threads ensures ThreadOk(n, n.threads[u]) {
      if u != t { assert ThreadOk(s, s.threads[u]); }
    }
  }

  lemma MoveStepPreserves(s: State, a: Action)
    requires Invariant(s)
    ensures Invariant(MoveStep(s, a))
  {
    if Move(s, a).Some? {
      MoveIsOk(s, a);
      if a.LockOperations? || a.ReadLock? {
        LockPreserves(s, a.t, Move(s, a).value);
      } else {
        MovePreserves(s, a.t, Move(s, a).value);
      }
    }
  }

  lemma StepPreserves(s: State, a: Action)
    requires Invariant(s)
    ensures Invariant(Step(s, a))
  {
    if a.TryRegister? {
      if a.t in s.threads && s.threads[a.t].RegisterTry? { TryRegisterPreserves(s, a.t); }
    } else if a.CheckDisconnect? {
      if a.t in s.threads && s.threads[a.t].DisconnectCheck? { CheckDisconnectPreserves(s, a.t); }
    } else if a.DeleteSlot? {
      if a.t in s.threads && s.threads[a.t].DisconnectLocked? { DeleteSlotPreserves(s, a.t); }
    } else if a.MarkReleased? {
      if a.t in s.threads && s.threads[a.t].DisconnectDeleted? { MarkReleasedPreserves(s, a.t); }
    } else {
      MoveStepPreserves(s, a);
    }
  }

  lemma {:induction false} RunPreserves(s: State, actions: seq<Action>)
    requires Invariant(s)
    ensures Invariant(Run(s, actions))
    decreases |actions|
  {
    if actions != [] {
      StepPreserves(s, actions[0]);
      RunPreserves(Step(s, actions[0]), actions[1..]);
    }
  }

  // ------------------------------------------------------------------ main theorems

  /** Admitted work belongs to the instance that owns its device's slot. */
  lemma AdmittedHolds(s: State, t: nat)
    requires Invariant(s) && t in s.threads && s.threads[t].OperationAdmitted?
    ensures Holds(s, s.threads[t].instance) && s.instances[s.threads[t].instance].peer == s.threads[t].peer
  {
    assert ThreadOk(s, s.threads[t]);
  }

  /** No goroutine has admitted work on the instance. */
  predicate NoWork(s: State, i: nat) {
    forall u | u in s.threads :: !(s.threads[u].OperationAdmitted? && s.threads[u].instance == i)
  }

  /** The instance has left its slot for good, with a reason and without admitted work. */
  predicate Gone(s: State, i: nat) {
    && i < |s.instances| && s.instances[i].released && s.instances[i].retired.Some?
    && !Holds(s, i) && NoWork(s, i)
  }

  lemma ReleasedIsGone(s: State, w: nat)
    requires Invariant(s) && w < |s.instances| && s.instances[w].released
    ensures Gone(s, w)
  {
    forall u | u in s.threads ensures !(s.threads[u].OperationAdmitted? && s.threads[u].instance == w) {
      assert ThreadOk(s, s.threads[u]);
    }
  }

  /**
   In every interleaving, an instance with admitted work in flight still owns its device's
   slot; so the admitted work of one device always belongs to one instance.
   */
  lemma AdmittedWorkOwnsTheSlot(actions: seq<Action>, t: nat, u: nat)
    ensures var s := Run(INITIAL, actions);
            t in s.threads && s.threads[t].OperationAdmitted? ==>
              && Holds(s, s.threads[t].instance)
              && s.instances[s.threads[t].instance].peer == s.threads[t].peer
              && (u in s.threads && s.threads[u].OperationAdmitted? && s.threads[u].peer == s.threads[t].peer ==>
                    s.threads[u].instance == s.threads[t].instance)
  {
    RunPreserves(INITIAL, actions);
    var s := Run(INITIAL, actions);
    if t in s.threads && s.threads[t].OperationAdmitted? { AdmittedHolds(s, t); }
    if u in s.threads && s.threads[u].OperationAdmitted? { AdmittedHolds(s, u); }
  }

  /**
   A Register that waited for handovers succeeds only after every instance it waited for is
   gone - then and ever after - and none of those was newer than the instance it created.
   */
  lemma HandoverIsComplete(actions: seq<Action>, t: nat, w: nat)
    ensures var s := Run(INITIAL, actions);
            t in s.threads && s.threads[t].Registered? && w in s.threads[t].waited ==>
              && Gone(s, w) && s.threads[t].instance < |s.instances|
              && s.instances[w].peer == s.instances[s.threads[t].instance].peer == s.threads[t].peer
              && s.instances[w].version <= s.instances[s.threads[t].instance].version
  {
    RunPreserves(INITIAL, actions);
    var s := Run(INITIAL, actions);
    if t in s.threads && s.threads[t].Registered? && w in s.threads[t].waited {
      assert ThreadOk(s, s.threads[t]);
      ReleasedIsGone(s, w);
    }
  }

  /** What one step can do to an instance that already exists. */
  predicate Fate(s: State, a: Action, n: State, i: nat)
    requires i < |s.instances|
  {
    && i < |n.instances|
    && n.instances[i].peer == s.instances[i].peer && n.instances[i].version == s.instances[i].version
    && (s.instances[i].retired.Some? ==> n.instances[i].retired == s.instances[i].retired)
    && (s.instances[i].released ==> n.instances[i].released)
    && (Holds(n, i) ==> Holds(s, i))
    && (Holds(s, i) && !Holds(n, i) ==> s.instances[i].retired.Some?)
    // supersession needs a registration for the same device with a version at least as new
    && (s.instances[i].retired.None? && n.instances[i].retired == Some(Superseded) ==>
          && a.TryRegister? && a.t in s.threads && s.threads[a.t].RegisterTry?
          && s.threads[a.t].peer == s.instances[i].peer && s.threads[a.t].version >= s.instances[i].version)
    // revocation needs a Disconnect that observed this very instance
    && (s.instances[i].retired.None? && n.instances[i].retired == Some(Revoked) ==>
          && a.CheckDisconnect? && a.t in s.threads
          && s.threads[a.t] == DisconnectCheck(s.instances[i].peer, i))
  }

  lemma TryRegisterFate(s: State, t: nat, i: nat)
    requires Slots(s) && i < |s.instances| && t in s.threads && s.threads[t].RegisterTry?
    ensures Fate(s, TryRegister(t), TryRegisterStep(s, t), i)
  {
  }

  lemma CheckDisconnectFate(s: State, t: nat, i: nat)
    requires Slots(s) && i < |s.instances| && t in s.threads && s.threads[t].DisconnectCheck?
    ensures Fate(s, CheckDisconnect(t), CheckDisconnectStep(s, t), i)
  {
  }

  lemma DeleteSlotFate(s: State, t: nat, i: nat)
    requires ThreadsOk(s) && i < |s.instances| && t in s.threads && s.threads[t].DisconnectLocked?
    ensures Fate(s, DeleteSlot(t), DeleteSlotStep(s, t), i)
  {
    assert ThreadOk(s, s.threads[t]);
  }

  lemma MarkReleasedFate(s: State, t: nat, i: nat)
    requires i < |s.instances| && t in s.threads && s.threads[t].DisconnectDeleted?
    ensures Fate(s, MarkReleased(t), MarkReleasedStep(s, t), i)
  {
  }

  lemma MoveFate(s: State, a: Action, i: nat)
    requires i < |s.instances|
    ensures Fate(s, a, MoveStep(s, a), i)
  {
  }

  lemma InstanceStep(s: State, a: Action, i: nat)
    requires Invariant(s) && i < |s.instances|
    ensures Fate(s, a, Step(s, a), i)
  {
    if a.TryRegister? {
      if a.t in s.threads && s.threads[a.t].RegisterTry? { TryRegisterFate(s, a.t, i); }
    } else if a.CheckDisconnect? {
      if a.t in s.threads && s.threads[a.t].DisconnectCheck? { CheckDisconnectFate(s, a.t, i); }
    } else if a.DeleteSlot? {
      if a.t in s.threads && s.threads[a.t].DisconnectLocked? { DeleteSlotFate(s, a.t, i); }
    } else if a.MarkReleased? {
      if a.t in s.threads && s.threads[a.t].DisconnectDeleted? { MarkReleasedFate(s, a.t, i); }
    } else {
      MoveFate(s, a, i);
    }
  }

  /** From a reachable state on: the reason stays, and an instance out of its slot never returns. */
  lemma {:induction false} InstanceRun(s: State, actions: seq<Action>, i: nat)
    requires Invariant(s) && i < |s.instances|
    ensures var n := Run(s, actions);
            && i < |n.instances| && n.instances[i].peer == s.instances[i].peer
            && (s.instances[i].retired.Some? ==> n.instances[i].retired == s.instances[i].retired)
            && (s.instances[i].released ==> n.instances[i].released)
            && (!Holds(s, i) ==> !Holds(n, i))
    decreases |actions|
  {
    if actions != [] {
      InstanceStep(s, actions[0], i);
      StepPreserves(s, actions[0]);
      InstanceRun(Step(s, actions[0]), actions[1..], i);
    }
  }

  lemma {:induction false} RunConcat(s: State, first: seq<Action>, second: seq<Action>)
    ensures Run(s, first + second) == Run(Run(s, first), second)
    decreases |first|
  {
    if first != [] {
      assert (first + second)[1..] == first[1..] + second;
      RunConcat(Step(s, first[0]), first[1..], second);
    } else {
      assert first + second == second;
    }
  }

  /**
   Each instance occupies its slot for one contiguous interval of the run, and once it has
   left, its one retirement reason is fixed for good.
   */
  lemma OneIntervalPerInstance(first: seq<Action>, second: seq<Action>, third: seq<Action>, i: nat)
    ensures var s1 := Run(INITIAL, first);
            var s2 := Run(INITIAL, first + second);
            var s3 := Run(INITIAL, first + second + third);
            && (Holds(s1, i) && Holds(s3, i) ==> Holds(s2, i))
            && (i < |s2.instances| && !Holds(s2, i) ==>
                  && s2.instances[i].retired.Some?
                  && i < |s3.instances| && s3.instances[i].retired == s2.instances[i].retired)
  {
    RunConcat(INITIAL, first, second);
    RunConcat(INITIAL, first + second, third);
    var s1 := Run(INITIAL, first);
    RunPreserves(INITIAL, first);
    RunPreserves(INITIAL, first + second);
    if i < |s1.instances| { InstanceRun(s1, second, i); }
    if i < |Run(s1, second).instances| { InstanceRun(Run(s1, second), third, i); }
  }

  /** A Disconnect with an old observation retires and removes nothing but the instance it observed. */
  lemma DisconnectTouchesOnlyItsInstance(s: State, a: Action, i: nat)
    requires Invariant(s) && i < |s.instances|
    requires a.CheckDisconnect? || a.LockOperations? || a.DeleteSlot? || a.MarkReleased? || a.UnlockOperations?
    requires a.t in s.threads && !s.threads[a.t].Disconnected?
    requires s.threads[a.t].DisconnectCheck? || s.threads[a.t].DisconnectDrain? || s.threads[a.t].DisconnectLocked?
             || s.threads[a.t].DisconnectDeleted? || s.threads[a.t].DisconnectMarked?
    requires s.threads[a.t].instance != i
    ensures var n := Step(s, a);
            && |n.instances| == |s.instances| && n.instances[i] == s.instances[i]
            && (Holds(n, i) <==> Holds(s, i))
  {
    assert ThreadOk(s, s.threads[a.t]);
  }

  /** Whoever holds an operation lock has an enabled step. */
  lemma HolderCanStep(s: State, u: nat, i: nat) returns (a: Action)
    requires u in s.threads && ThreadOk(s, s.threads[u]) && (Writes(s.threads[u], i) || Reads(s.threads[u], i))
    ensures a.t == u && Step(s, a).threads.Keys == s.threads.Keys && Step(s, a).threads[u] != s.threads[u]
    ensures Step(s, a).threads == s.threads[u := Step(s, a).threads[u]]
    ensures Left(Step(s, a).threads[u], i, true) < Left(s.threads[u], i, true)
  {
    var th := s.threads[u];
    a := if th.DisconnectLocked? then DeleteSlot(u)
         else if th.DisconnectDeleted? then MarkReleased(u)
         else if th.DisconnectMarked? then UnlockOperations(u)
         else if th.OperationReading? then CheckOperation(u)
         else FinishOperation(u);
  }

  /** A goroutine that waits to drain an instance is never stuck: it, or a holder of the lock, can step. */
  lemma DrainNeverDeadlocks(actions: seq<Action>, t: nat) returns (a: Action)
    requires var s := Run(INITIAL, actions); t in s.threads && s.threads[t].DisconnectDrain?
    ensures var s := Run(INITIAL, actions);
            && Step(s, a) != s && a.t in s.threads
            && (a == LockOperations(t) || Writes(s.threads[a.t], s.threads[t].instance)
                || Reads(s.threads[a.t], s.threads[t].instance))
  {
    RunPreserves(INITIAL, actions);
    var s := Run(INITIAL, actions);
    var i := s.threads[t].instance;
    if WriteFree(s, i) {
      a := LockOperations(t);
      assert Step(s, a).threads[t].DisconnectLocked?;
    } else {
      var u :| u in s.threads && (Writes(s.threads[u], i) || Reads(s.threads[u], i));
      assert ThreadOk(s, s.threads[u]);
      a := HolderCanStep(s, u, i);
    }
  }

  // ------------------------------------------------------------- draining ends

  /** Steps an operation on the instance still has before it lets go of it. */
  function OperationLeft(th: Thread, i: nat): nat {
    if th.OperationLocking? && th.instance == i then 3
    else if th.OperationReading? && th.instance == i then 2
    else if th.OperationAdmitted? && th.instance == i then 1
    else 0
  }

  /** Steps a disconnect that retired the instance still has. */
  function DisconnectLeft(th: Thread, i: nat): nat {
    if th.DisconnectDrain? && th.instance == i then 4
    else if th.DisconnectLocked? && th.instance == i then 3
    else if th.DisconnectDeleted? && th.instance == i then 2
    else if th.DisconnectMarked? && th.instance == i then 1
    else 0
  }

  /** The work left on the instance; the disconnects count only when asked for. */
  function Left(th: Thread, i: nat, disconnects: bool): nat {
    OperationLeft(th, i) + if disconnects then DisconnectLeft(th, i) else 0
  }

  function AtLeast(threads: map<nat, Thread>, i: nat, disconnects: bool, k: nat): set<nat> {
    set u | u in threads && Left(threads[u], i, disconnects) >= k
  }

  /** The sum of what the goroutines have left, level by level. */
  function Work(threads: map<nat, Thread>, i: nat, disconnects: bool): nat {
    |AtLeast(threads, i, disconnects, 1)| + |AtLeast(threads, i, disconnects, 2)|
    + |AtLeast(threads, i, disconnects, 3)| + |AtLeast(threads, i, disconnects, 4)|
  }

  function LeftAt(threads: map<nat, Thread>, t: nat, i: nat, disconnects: bool): nat {
    if t in threads then Left(threads[t], i, disconnects) else 0
  }

  lemma SubsetSize(a: set<nat>, b: set<nat>)
    requires a <= b
    ensures |a| <= |b| && (a != b ==> |a| < |b|)
    decreases |b|
  {
    if x :| x in b && x !in a {
      SubsetSize(a, b - {x});
    } else {
      assert a == b;
    }
  }

  lemma LevelShrinks(threads: map<nat, Thread>, t: nat, th: Thread, i: nat, disconnects: bool, k: nat)
    requires k > 0 && Left(th, i, disconnects) <= LeftAt(threads, t, i, disconnects)
    ensures |AtLeast(threads[t := th], i, disconnects, k)| <= |AtLeast(threads, i, disconnects, k)|
    ensures Left(th, i, disconnects) < k <= LeftAt(threads, t, i, disconnects) ==>
              |AtLeast(threads[t := th], i, disconnects, k)| < |AtLeast(threads, i, disconnects, k)|
  {
    var after, before := AtLeast(threads[t := th], i, disconnects, k), AtLeast(threads, i, disconnects, k);
    assert after <= before;
    assert Left(th, i, disconnects) < k <= LeftAt(threads, t, i, disconnects) ==> t in before && t !in after;
    SubsetSize(after, before);
  }

  /** One goroutine moving on never adds work, and takes some away if it had any and got closer. */
  lemma WorkShrinks(threads: map<nat, Thread>, t: nat, th: Thread, i: nat, disconnects: bool)
    requires Left(th, i, disconnects) <= LeftAt(threads, t, i, disconnects) <= 4
    ensures Work(threads[t := th], i, disconnects) <= Work(threads, i, disconnects)
    ensures Left(th, i, disconnects) < LeftAt(threads, t, i, disconnects) ==>
              Work(threads[t := th], i, disconnects) < Work(threads, i, disconnects)
  {
    LevelShrinks(threads, t, th, i, disconnects, 1);
    LevelShrinks(threads, t, th, i, disconnects, 2);
    LevelShrinks(threads, t, th, i, disconnects, 3);
    LevelShrinks(threads, t, th, i, disconnects, 4);
  }

  /** Nobody new starts: an operation needs an instance not retired, a disconnect one in its slot. */
  predicate Closing(s: State, i: nat, disconnects: bool) {
    i < |s.instances| && s.instances[i].retired.Some? && (disconnects ==> !Holds(s, i))
  }

  /** The step moves one goroutine at most, and never back. */
  predicate MovesOne(s: State, a: Action, n: State, i: nat, disconnects: bool) {
    || n.threads == s.threads
    || (&& a.t in n.threads && n.threads == s.threads[a.t := n.threads[a.t]]
        && Left(n.threads[a.t], i, disconnects) <= LeftAt(s.threads, a.t, i, disconnects))
  }

  lemma MoveMovesOne(s: State, a: Action, i: nat, disconnects: bool)
    requires Closing(s, i, disconnects)
    ensures MovesOne(s, a, MoveStep(s, a), i, disconnects)
  {
  }

  lemma SectionMovesOne(s: State, a: Action, i: nat, disconnects: bool)
    requires Slots(s) && Closing(s, i, disconnects)
    requires a.TryRegister? || a.CheckDisconnect? || a.DeleteSlot? || a.MarkReleased?
    ensures MovesOne(s, a, Step(s, a), i, disconnects)
  {
  }

  lemma StepMovesOne(s: State, a: Action, i: nat, disconnects: bool)
    requires Slots(s) && Closing(s, i, disconnects)
    ensures MovesOne(s, a, Step(s, a), i, disconnects)
  {
    if a.TryRegister? || a.CheckDisconnect? || a.DeleteSlot? || a.MarkReleased? {
      SectionMovesOne(s, a, i, disconnects);
    } else {
      MoveMovesOne(s, a, i, disconnects);
    }
  }

  /** The action moved a goroutine on towards letting go of the instance. */
  predicate Progress(s: State, a: Action, i: nat, disconnects: bool) {
    LeftAt(Step(s, a).threads, a.t, i, disconnects) < LeftAt(s.threads, a.t, i, disconnects)
  }

  lemma StepDrains(s: State, a: Action, i: nat, disconnects: bool)
    requires Slots(s) && Closing(s, i, disconnects)
    ensures Work(Step(s, a).threads, i, disconnects) + (if Progress(s, a, i, disconnects) then 1 else 0)
            <= Work(s.threads, i, disconnects)
  {
    StepMovesOne(s, a, i, disconnects);
    if Step(s, a).threads != s.threads { WorkShrinks(s.threads, a.t, Step(s, a).threads[a.t], i, disconnects); }
  }

  /** The steps of a run that move a goroutine on towards letting go of the instance. */
  function Steps(s: State, actions: seq<Action>, i: nat, disconnects: bool): nat
    decreases |actions|
  {
    if actions == [] then 0
    else (if Progress(s, actions[0], i, disconnects) then 1 else 0)
         + Steps(Step(s, actions[0]), actions[1..], i, disconnects)
  }

  /**
   Draining ends. From any reachable state with the instance retired, every continuation holds
   at most Work steps of operations on it, however the goroutines interleave; once it is out
   of its slot the same bound covers its disconnects.
   */
  lemma {:induction false} DrainEnds(s: State, actions: seq<Action>, i: nat, disconnects: bool)
    requires Invariant(s) && Closing(s, i, disconnects)
    ensures Steps(s, actions, i, disconnects) + Work(Run(s, actions).threads, i, disconnects)
            <= Work(s.threads, i, disconnects)
    decreases |actions|
  {
    if actions != [] {
      StepDrains(s, actions[0], i, disconnects);
      InstanceStep(s, actions[0], i);
      StepPreserves(s, actions[0]);
      DrainEnds(Step(s, actions[0]), actions[1..], i, disconnects);
    }
  }

  /** Whoever holds the operation lock gets closer to letting go by its own next step. */
  lemma HolderProgress(s: State, u: nat, i: nat) returns (a: Action)
    requires u in s.threads && ThreadOk(s, s.threads[u]) && (Writes(s.threads[u], i) || Reads(s.threads[u], i))
    ensures a.t == u && u in Step(s, a).threads && Step(s, a).threads == s.threads[u := Step(s, a).threads[u]]
    ensures Work(Step(s, a).threads, i, true) < Work(s.threads, i, true)
  {
    a := HolderCanStep(s, u, i);
    WorkShrinks(s.threads, u, Step(s, a).threads[u], i, true);
  }

  /** A waiting disconnect gets the operation lock within Work steps, if only the holders move on. */
  lemma {:induction false} DrainCanFinish(s: State, t: nat) returns (actions: seq<Action>)
    requires Invariant(s) && t in s.threads && s.threads[t].DisconnectDrain?
    ensures t in Run(s, actions).threads
    ensures Run(s, actions).threads[t]
            == DisconnectLocked(s.threads[t].peer, s.threads[t].instance, s.threads[t].initiated)
    ensures |actions| <= Work(s.threads, s.threads[t].instance, true)
    decreases Work(s.threads, s.threads[t].instance, true)
  {
    var i := s.threads[t].instance;
    assert t in AtLeast(s.threads, i, true, 1);
    if WriteFree(s, i) {
      actions := [LockOperations(t)];
      assert Run(s, actions) == Run(Step(s, LockOperations(t)), []);
    } else {
      var u :| u in s.threads && (Writes(s.threads[u], i) || Reads(s.threads[u], i));
      assert ThreadOk(s, s.threads[u]);
      var a := HolderProgress(s, u, i);
      StepPreserves(s, a);
      var rest := DrainCanFinish(Step(s, a), t);
      actions := [a] + rest;
    }
  }

  // --------------------------------------------- one session's work before the next's

  /** A retired instance without admitted work stays without, whatever happens next. */
  lemma {:induction false} QuietForever(s: State, more: seq<Action>, i: nat)
    requires Invariant(s) && i < |s.instances| && s.instances[i].retired.Some? && NoWork(s, i)
    ensures NoWork(Run(s, more), i)
    decreases |more|
  {
    if more != [] {
      StaysQuiet(s, more[0], i);
      InstanceStep(s, more[0], i);
      StepPreserves(s, more[0]);
      QuietForever(Step(s, more[0]), more[1..], i);
    }
  }

  lemma StaysQuiet(s: State, a: Action, i: nat)
    requires Slots(s) && i < |s.instances| && s.instances[i].retired.Some? && NoWork(s, i)
    ensures NoWork(Step(s, a), i)
  {
  }

  /** Admitted work ends only by finishing. */
  lemma AdmittedUntilDone(s: State, a: Action, u: nat)
    requires u in s.threads && (s.threads[u].OperationAdmitted? || s.threads[u].OperationDone?)
    ensures var n := Step(s, a);
            u in n.threads && (n.threads[u] == s.threads[u] || n.threads[u].OperationDone?)
  {
  }

  lemma {:induction false} AdmittedRun(s: State, more: seq<Action>, u: nat)
    requires u in s.threads && (s.threads[u].OperationAdmitted? || s.threads[u].OperationDone?)
    ensures var n := Run(s, more);
            u in n.threads && (n.threads[u] == s.threads[u] || n.threads[u].OperationDone?)
    decreases |more|
  {
    if more != [] {
      AdmittedUntilDone(s, more[0], u);
      AdmittedRun(Step(s, more[0]), more[1..], u);
    }
  }

  /**
   Work admitted for one session of a device is finished before the next session of that device
   exists: once a later instance of the device has registered, the earlier one's operation is done.
   */
  lemma WorkFinishesBeforeNext(first: seq<Action>, second: seq<Action>, u: nat, i: nat)
    requires var s := Run(INITIAL, first); u in s.threads && s.threads[u].OperationAdmitted?
    requires var s, n := Run(INITIAL, first), Run(INITIAL, first + second);
             |s.instances| <= i < |n.instances| && n.instances[i].peer == s.threads[u].peer
    ensures u in Run(INITIAL, first + second).threads && Run(INITIAL, first + second).threads[u].OperationDone?
  {
    var s := Run(INITIAL, first);
    RunConcat(INITIAL, first, second);
    RunPreserves(INITIAL, first);
    AdmittedRun(s, second, u);
    AdmittedHolds(s, u);
    var n := Run(s, second);
    RunPreserves(s, second);
    NewestRun(INITIAL, first + second);
    if n.threads[u].OperationAdmitted? { AdmittedHolds(n, u); }
  }

  /** The instance in a slot is the newest of its device. */
  predicate Newest(s: State) {
    forall p, i | p in s.devices && 0 <= i < |s.instances| && s.instances[i].peer == p :: i <= s.devices[p]
  }

  lemma NewestStep(s: State, a: Action)
    requires Slots(s) && Newest(s)
    ensures Newest(Step(s, a))
  {
  }

  lemma {:induction false} NewestRun(s: State, actions: seq<Action>)
    requires Invariant(s) && Newest(s)
    ensures Newest(Run(s, actions))
    decreases |actions|
  {
    if actions != [] {
      NewestStep(s, actions[0]);
      StepPreserves(s, actions[0]);
      NewestRun(Step(s, actions[0]), actions[1..]);
    }
  }

  // ------------------------------------------------- versions along one device's slot

  lemma NewcomersStay(s: State, a: Action, i: nat)
    requires |s.instances| <= i < |Step(s, a).instances|
    ensures Step(s, a).instances[i].retired.None?
  {
  }

  lemma RunSnoc(actions: seq<Action>)
    requires actions != []
    ensures var before := actions[..|actions| - 1];
            Run(INITIAL, actions) == Step(Run(INITIAL, before), actions[|actions| - 1])
  {
    var before, last := actions[..|actions| - 1], actions[|actions| - 1];
    assert actions == before + [last];
    RunConcat(INITIAL, before, [last]);
    assert Run(Run(INITIAL, before), [last]) == Run(Step(Run(INITIAL, before), last), []);
  }

  /** At this point of the run a registration of the instance's device, of no smaller version, made its attempt. */
  predicate ReplacedAt(actions: seq<Action>, n: nat, i: nat)
    requires n < |actions|
  {
    var s, a := Run(INITIAL, actions[..n]), actions[n];
    && i < |s.instances| && Holds(s, i) && s.instances[i].retired.None?
    && a.TryRegister? && a.t in s.threads && s.threads[a.t].RegisterTry?
    && s.threads[a.t].peer == s.instances[i].peer && s.instances[i].version <= s.threads[a.t].version
  }

  /**
   A smaller version never displaces a newer one: in every run, an instance retired as superseded
   was replaced, while it held its slot, by a registration of its device of no smaller version.
   */
  lemma {:induction false} SupersededByNoOlder(actions: seq<Action>, i: nat) returns (n: nat)
    requires var s := Run(INITIAL, actions); i < |s.instances| && s.instances[i].retired == Some(Superseded)
    ensures n < |actions| && ReplacedAt(actions, n, i)
    decreases |actions|
  {
    var before := actions[..|actions| - 1];
    var s, a := Run(INITIAL, before), actions[|actions| - 1];
    RunSnoc(actions);
    RunPreserves(INITIAL, before);
    if i >= |s.instances| { NewcomersStay(s, a, i); }
    InstanceStep(s, a, i);
    if s.instances[i].retired.Some? {
      n := SupersededByNoOlder(before, i);
      assert before[..n] == actions[..n];
    } else {
      n := |actions| - 1;
    }
  }

  /** The step put a new instance of the device into its slot, below the version of an earlier one. */
  predicate Lowers(s: State, n: State, k: nat)
    requires k < |s.instances|
  {
    var p := s.instances[k].peer;
    && p in n.devices && n.devices[p] < |n.instances| && |s.instances| <= n.devices[p]
    && n.instances[n.devices[p]].version < s.instances[k].version
  }

  /**
   When a slot's versions go down. In every run, an action lowers the version below that of an
   earlier instance k of the device exactly when it is an attempt with tries left that finds the
   slot empty and asks for a lower version; and then the attempt had not waited for k, which
   left on its own.
   */
  lemma SlotVersionDropsIff(actions: seq<Action>, a: Action, k: nat)
    requires k < |Run(INITIAL, actions).instances|
    ensures var s := Run(INITIAL, actions);
            && (Lowers(s, Step(s, a), k) <==>
                  && a.TryRegister? && a.t in s.threads && s.threads[a.t].RegisterTry?
                  && s.threads[a.t].attempt < MAX_HANDOVER_ATTEMPTS
                  && s.threads[a.t].peer == s.instances[k].peer && s.instances[k].peer !in s.devices
                  && s.threads[a.t].version < s.instances[k].version)
            && (Lowers(s, Step(s, a), k) ==> k !in s.threads[a.t].waited && s.instances[k].retired.Some?)
  {
    RunPreserves(INITIAL, actions);
    var s := Run(INITIAL, actions);
    if a.t in s.threads { assert ThreadOk(s, s.threads[a.t]); }
    OnlyAttemptsOccupy(s, a, s.instances[k].peer);
  }

  /** Only an attempt that finds the slot empty puts a new instance into it. */
  lemma OnlyAttemptsOccupy(s: State, a: Action, p: Peer)
    requires Slots(s)
    ensures var n := Step(s, a);
            p in n.devices && n.devices[p] >= |s.instances| ==>
              && a.TryRegister? && a.t in s.threads && s.threads[a.t].RegisterTry?
              && s.threads[a.t].attempt < MAX_HANDOVER_ATTEMPTS && s.threads[a.t].peer == p && p !in s.devices
              && n.instances == s.instances + [Instance(p, s.threads[a.t].version, None, false)]
  {
  }

  const CONNECTED := State(map[7 := 0], [Instance(7, 5, None, false)], map[1 := Registered(7, 0, {})])
  const LEAVING := State(map[7 := 0], [Instance(7, 5, Some(Revoked), false)],
                         map[1 := Registered(7, 0, {}), 2 := DisconnectDrain(7, 0, true)])
  const LEFT := State(map[], [Instance(7, 5, Some(Revoked), false)],
                      map[1 := Registered(7, 0, {}), 2 := DisconnectDeleted(7, 0, true)])

  lemma Connects()
    ensures Step(Step(INITIAL, CallRegister(1, 7, 5, 16)), TryRegister(1)) == CONNECTED
  {
  }

  const OBSERVED := State(map[7 := 0], [Instance(7, 5, None, false)],
                          map[1 := Registered(7, 0, {}), 2 := DisconnectCheck(7, 0)])
  const LOCKED := State(map[7 := 0], [Instance(7, 5, Some(Revoked), false)],
                        map[1 := Registered(7, 0, {}), 2 := DisconnectLocked(7, 0, true)])

  lemma Observes()
    ensures Step(CONNECTED, CallDisconnect(2, 7, 0)) == OBSERVED
  {
  }

  lemma Retires()
    ensures Step(OBSERVED, CheckDisconnect(2)) == LEAVING
  {
  }

  lemma Locks()
    ensures Step(LEAVING, LockOperations(2)) == LOCKED
  {
    assert WriteFree(LEAVING, 0);
  }

  lemma Drops()
    ensures Step(LOCKED, DeleteSlot(2)) == LEFT
  {
  }

  lemma Returns()
    ensures var s := Step(Step(LEFT, CallRegister(3, 7, 4, 16)), TryRegister(3));
            s.instances == LEFT.instances + [Instance(7, 4, None, false)] && s.devices == map[7 := 1]
  {
  }

  /**
   Supersession never lowers a version, but the sequence of occupants of a slot is not
   monotone: once the newer instance has left, an older credential takes the free slot.
   */
  lemma VersionCanDrop() returns (actions: seq<Action>)
    ensures var s := Run(INITIAL, actions);
            && |s.instances| == 2 && !Holds(s, 0) && Holds(s, 1)
            && s.instances[0].peer == s.instances[1].peer && s.instances[1].version < s.instances[0].version
  {
    var first := [CallRegister(1, 7, 5, 16), TryRegister(1), CallDisconnect(2, 7, 0), CheckDisconnect(2)];
    var second := [LockOperations(2), DeleteSlot(2), CallRegister(3, 7, 4, 16), TryRegister(3)];
    Connects();
    Observes();
    Retires();
    Locks();
    Drops();
    RunFour(INITIAL, CallRegister(1, 7, 5, 16), TryRegister(1), CallDisconnect(2, 7, 0), CheckDisconnect(2));
    Returns();
    RunFour(LEAVING, LockOperations(2), DeleteSlot(2), CallRegister(3, 7, 4, 16), TryRegister(3));
    RunConcat(INITIAL, first, second);
    actions := first + second;
  }

  lemma RunFour(s: State, a: Action, b: Action, c: Action, d: Action)
    ensures Run(s, [a, b, c, d]) == Step(Step(Step(Step(s, a), b), c), d)
  {
    assert [a, b, c, d][1..] == [b, c, d] && [b, c, d][1..] == [c, d] && [c, d][1..] == [d] && [d][1..] == [];
    var t := Step(Step(s, a), b);
    assert Run(Step(t, c), [d]) == Run(Step(Step(t, c), d), []);
    assert Run(t, [c, d]) == Run(Step(t, c), [d]);
    assert Run(Step(s, a), [b, c, d]) == Run(t, [c, d]);
  }
}
