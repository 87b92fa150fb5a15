/**
 What each call on the hub comes to, over every reachable state: how an attempt to register ends,
 that a handover gets the newcomer its slot, that a live session is admitted, and which disconnect
 reports that it started a retirement.
 */
module HubOutcomes {
  import opened Base
  import opened HubModel

  // ------------------------------------------------------------- attempts to register

  /** The attempt takes the empty slot with a new instance of its own version, and touches nothing else. */
  predicate TakesSlot(s: State, n: State, t: nat)
    requires t in s.threads && s.threads[t].RegisterTry?
  {
    var th := s.threads[t];
    && n.instances == s.instances + [Instance(th.peer, th.version, None, false)]
    && n.devices == s.devices[th.peer := |s.instances|]
    && t in n.threads && n.threads[t] == Registered(th.peer, |s.instances|, th.waited)
  }

  /** The attempt tells the occupant to leave, keeping an earlier reason, and waits for it. */
  predicate Supersedes(s: State, n: State, t: nat, k: nat)
    requires t in s.threads && s.threads[t].RegisterTry? && k < |s.instances|
  {
    && n.devices == s.devices && |n.instances| == |s.instances|
    && (forall j | 0 <= j < |s.instances| && j != k :: n.instances[j] == s.instances[j])
    && n.instances[k].peer == s.instances[k].peer && n.instances[k].version == s.instances[k].version
    && n.instances[k].released == s.instances[k].released
    && n.instances[k].retired ==
         (if s.instances[k].retired.Some? then s.instances[k].retired else Some(Superseded))
    && t in n.threads && n.threads[t].RegisterWait? && n.threads[t].on == k
    && n.threads[t].waited == s.threads[t].waited && n.threads[t].version == s.threads[t].version
  }

  /** The attempt ends in the error and nothing shared has changed. */
  predicate Refuses(s: State, n: State, t: nat, error: RegisterError) {
    n.devices == s.devices && n.instances == s.instances && t in n.threads && n.threads[t] == RegisterFailed(error)
  }

  /**
   How an attempt ends. It gives up exactly after having waited for two instances; with a try left
   it takes an empty slot, supersedes an occupant exactly when its own version is at least the
   occupant's, and is refused as stale exactly when it is smaller.
   */
  ghost predicate Outcome(s: State, n: State, t: nat)
    requires t in s.threads && s.threads[t].RegisterTry?
  {
    var th := s.threads[t];
    && |th.waited| <= 2
    && (Refuses(s, n, t, AlreadyConnected) <==> |th.waited| == 2)
    && (TakesSlot(s, n, t) <==> |th.waited| < 2 && th.peer !in s.devices)
    && (forall k: nat | Holds(s, k) && s.instances[k].peer == th.peer && |th.waited| < 2 ::
          && (Supersedes(s, n, t, k) <==> th.version >= s.instances[k].version)
          && (Refuses(s, n, t, StaleCredential) <==> th.version < s.instances[k].version))
  }

  /** In every interleaving. */
  lemma AttemptOutcome(actions: seq<Action>, t: nat)
    requires var s := Run(INITIAL, actions); t in s.threads && s.threads[t].RegisterTry?
    ensures Outcome(Run(INITIAL, actions), Step(Run(INITIAL, actions), TryRegister(t)), t)
  {
    RunPreserves(INITIAL, actions);
    var s := Run(INITIAL, actions);
    assert ThreadOk(s, s.threads[t]);
  }

  lemma RunTwo(s: State, a: Action, b: Action)
    ensures Run(s, [a, b]) == Step(Step(s, a), b)
  {
    assert [a, b][1..] == [b] && [b][1..] == [];
    assert Run(Step(s, a), [b]) == Run(Step(Step(s, a), b), []);
  }

  /** A wait that sees its release signal counts one instance more. */
  lemma SeesRelease(s: State, t: nat)
    requires ThreadsOk(s) && t in s.threads && s.threads[t].RegisterWait?
    requires s.threads[t].on < |s.instances| && s.instances[s.threads[t].on].released
    ensures var n, th := Step(s, SeeRelease(t)), s.threads[t];
            && n.devices == s.devices && n.instances == s.instances && t in n.threads
            && n.threads[t] == RegisterTry(th.peer, th.version, |th.waited| + 1, th.waited + {th.on})
  {
    assert ThreadOk(s, s.threads[t]);
  }

  lemma TakesFreeSlot(s: State, t: nat)
    requires t in s.threads && s.threads[t].RegisterTry? && s.threads[t].attempt < 2
    requires s.threads[t].peer !in s.devices
    ensures TakesSlot(s, Step(s, TryRegister(t)), t)
  {
  }

  /** A registration whose first wait ends with the slot free gets it. */
  lemma FirstWaitRegisters(actions: seq<Action>, t: nat)
    requires var s := Run(INITIAL, actions);
             && t in s.threads && s.threads[t].RegisterWait? && s.threads[t].waited == {}
             && s.threads[t].on < |s.instances| && s.instances[s.threads[t].on].released
             && s.threads[t].peer !in s.devices
    ensures var s := Run(INITIAL, actions);
            var n, th := Run(s, [SeeRelease(t), TryRegister(t)]), s.threads[t];
            && t in n.threads && n.threads[t] == Registered(th.peer, |s.instances|, {th.on})
            && n.instances == s.instances + [Instance(th.peer, th.version, None, false)]
            && n.devices == s.devices[th.peer := |s.instances|]
  {
    RunPreserves(INITIAL, actions);
    var s := Run(INITIAL, actions);
    hide Step, ThreadOk;
    SeesRelease(s, t);
    TakesFreeSlot(Step(s, SeeRelease(t)), t);
    RunTwo(s, SeeRelease(t), TryRegister(t));
  }

  /** The last two lock sections of a disconnect free the slot and give the signal. */
  lemma Releases(s: State, u: nat)
    requires ThreadsOk(s) && u in s.threads && s.threads[u].DisconnectLocked? && Holds(s, s.threads[u].instance)
    ensures var n, i := Step(Step(s, DeleteSlot(u)), MarkReleased(u)), s.threads[u].instance;
            && |n.instances| == |s.instances| && n.instances[i] == s.instances[i].(released := true)
            && n.devices == s.devices - {s.threads[u].peer}
            && (forall t | t in s.threads && t != u :: t in n.threads && n.threads[t] == s.threads[t])
  {
    assert ThreadOk(s, s.threads[u]);
  }

  /**
   The handover itself. A registration in its first wait for the occupant of its slot owns the
   slot, with its own version, once the occupant's disconnect has run its last two lock sections
   and the registration has seen the signal and tried again.
   */
  lemma HandoverRegisters(actions: seq<Action>, t: nat, u: nat)
    requires var s := Run(INITIAL, actions);
             && t in s.threads && s.threads[t].RegisterWait? && s.threads[t].waited == {} && Holds(s, s.threads[t].on)
             && u in s.threads && s.threads[u].DisconnectLocked? && s.threads[u].instance == s.threads[t].on
    ensures var s := Run(INITIAL, actions);
            var th := s.threads[t];
            var n := Run(s, [DeleteSlot(u), MarkReleased(u), SeeRelease(t), TryRegister(t)]);
            && t in n.threads && n.threads[t] == Registered(th.peer, |s.instances|, {th.on})
            && Holds(n, |s.instances|) && n.instances[|s.instances|] == Instance(th.peer, th.version, None, false)
            && !Holds(n, th.on) && n.instances[th.on].version <= th.version
  {
    RunPreserves(INITIAL, actions);
    var s := Run(INITIAL, actions);
    assert ThreadOk(s, s.threads[t]) && ThreadOk(s, s.threads[u]);
    var m := Step(Step(s, DeleteSlot(u)), MarkReleased(u));
    StepPreserves(s, DeleteSlot(u));
    StepPreserves(Step(s, DeleteSlot(u)), MarkReleased(u));
    hide Step, ThreadOk;
    Releases(s, u);
    SeesRelease(m, t);
    TakesFreeSlot(Step(m, SeeRelease(t)), t);
    RunFour(s, DeleteSlot(u), MarkReleased(u), SeeRelease(t), TryRegister(t));
  }

  // ---------------------------------------------------------------------- operations

  /** Nobody disconnects an instance that has its slot and no retirement reason. */
  lemma LiveIsUnlocked(s: State, i: nat)
    requires Invariant(s) && Holds(s, i) && s.instances[i].retired.None?
    ensures ReadFree(s, i)
  {
    forall u | u in s.threads ensures !Writes(s.threads[u], i) { assert ThreadOk(s, s.threads[u]); }
  }

  lemma Enters(s: State, t: nat, i: nat)
    requires t in s.threads && s.threads[t].OperationStart? && s.threads[t].instance == i
    requires i < |s.instances| && s.instances[i].retired.None?
    ensures Step(s, EnterOperation(t)) == At(s, t, OperationLocking(s.threads[t].peer, i))
  {
  }

  lemma ReadLocks(s: State, t: nat, i: nat)
    requires t in s.threads && s.threads[t].OperationLocking? && s.threads[t].instance == i && ReadFree(s, i)
    ensures Step(s, ReadLock(t)) == At(s, t, OperationReading(s.threads[t].peer, i))
  {
  }

  lemma Admits(s: State, t: nat, i: nat)
    requires t in s.threads && s.threads[t].OperationReading? && s.threads[t].instance == i
    requires Holds(s, i) && s.instances[i].peer == s.threads[t].peer && s.instances[i].retired.None?
    ensures Step(s, CheckOperation(t)) == At(s, t, OperationAdmitted(s.threads[t].peer, i))
  {
  }

  lemma RunThree(s: State, a: Action, b: Action, c: Action)
    ensures Run(s, [a, b, c]) == Step(Step(Step(s, a), b), c)
  {
    assert [a, b, c][1..] == [b, c];
    RunTwo(Step(s, a), b, c);
  }

  /**
   A live session works: in every reachable state the operations of an instance that owns its
   device's slot and has not been retired are admitted, whoever else is at work on it.
   */
  lemma LiveSessionIsAdmitted(actions: seq<Action>, t: nat)
    requires var s := Run(INITIAL, actions);
             && t in s.threads && s.threads[t].OperationStart? && Holds(s, s.threads[t].instance)
             && s.instances[s.threads[t].instance].peer == s.threads[t].peer
             && s.instances[s.threads[t].instance].retired.None?
    ensures var s := Run(INITIAL, actions);
            Run(s, [EnterOperation(t), ReadLock(t), CheckOperation(t)])
            == At(s, t, OperationAdmitted(s.threads[t].peer, s.threads[t].instance))
  {
    RunPreserves(INITIAL, actions);
    var s := Run(INITIAL, actions);
    var i, p := s.threads[t].instance, s.threads[t].peer;
    LiveIsUnlocked(s, i);
    hide Step;
    Enters(s, t, i);
    var entered := At(s, t, OperationLocking(p, i));
    assert ReadFree(entered, i);
    ReadLocks(entered, t, i);
    var reading := At(s, t, OperationReading(p, i));
    assert Step(entered, ReadLock(t)) == reading;
    Admits(reading, t, i);
    assert Step(reading, CheckOperation(t)) == At(s, t, OperationAdmitted(p, i));
    RunThree(s, EnterOperation(t), ReadLock(t), CheckOperation(t));
  }

  // ------------------------------------------------------ who started a retirement

  /** A disconnect that reports, or will report, that it started the instance's retirement. */
  predicate Initiates(th: Thread, i: nat) {
    && (th.DisconnectDrain? || th.DisconnectLocked? || th.DisconnectDeleted? || th.DisconnectMarked?
        || th.Disconnected?)
    && th.instance == i && th.initiated
  }

  /** An instance is retired as revoked exactly if some disconnect started that, and then only one did. */
  ghost predicate OneInitiator(s: State, i: nat) {
    && ((exists t :: t in s.threads && Initiates(s.threads[t], i)) <==>
        i < |s.instances| && s.instances[i].retired == Some(Revoked))
    && (forall t, u | t in s.threads && u in s.threads && Initiates(s.threads[t], i) && Initiates(s.threads[u], i) ::
          t == u)
  }

  predicate RevokedAt(s: State, i: nat) {
    i < |s.instances| && s.instances[i].retired == Some(Revoked)
  }

  predicate InitiatesAt(s: State, t: nat, i: nat) {
    t in s.threads && Initiates(s.threads[t], i)
  }

  /** The step moves the goroutine of its action at most. */
  predicate OnlyMoves(s: State, n: State, t: nat) {
    n.threads == s.threads || (t in n.threads && n.threads == s.threads[t := n.threads[t]])
  }

  /** Apart from the first lock section of a disconnect, no step changes who initiated what. */
  predicate Neutral(s: State, n: State, t: nat, i: nat) {
    OnlyMoves(s, n, t) && (RevokedAt(n, i) <==> RevokedAt(s, i)) && (InitiatesAt(n, t, i) <==> InitiatesAt(s, t, i))
  }

  lemma MoveIsNeutral(s: State, a: Action, i: nat)
    ensures Neutral(s, MoveStep(s, a), a.t, i)
  {
  }

  lemma SectionIsNeutral(s: State, a: Action, i: nat)
    requires Slots(s) && (a.TryRegister? || a.DeleteSlot? || a.MarkReleased?)
    ensures Neutral(s, Step(s, a), a.t, i)
  {
  }

  lemma NeutralKeeps(s: State, n: State, t: nat, i: nat)
    requires OneInitiator(s, i) && Neutral(s, n, t, i)
    ensures OneInitiator(n, i)
  {
    assert forall u :: u in n.threads && Initiates(n.threads[u], i) <==> u in s.threads && Initiates(s.threads[u], i);
  }

  /** A disconnect either finds nothing new to retire, or is the first to retire the instance. */
  lemma CheckDecides(s: State, t: nat, i: nat)
    requires Slots(s) && t in s.threads && s.threads[t].DisconnectCheck?
    ensures var n := CheckDisconnectStep(s, t);
            && OnlyMoves(s, n, t) && !InitiatesAt(s, t, i)
            && (InitiatesAt(n, t, i) ==> RevokedAt(n, i) && !RevokedAt(s, i))
            && (!InitiatesAt(n, t, i) ==> (RevokedAt(n, i) <==> RevokedAt(s, i)))
  {
  }

  lemma CheckKeeps(s: State, t: nat, i: nat)
    requires Slots(s) && OneInitiator(s, i) && t in s.threads && s.threads[t].DisconnectCheck?
    ensures OneInitiator(CheckDisconnectStep(s, t), i)
  {
    hide CheckDisconnectStep;
    var n := CheckDisconnectStep(s, t);
    CheckDecides(s, t, i);
    if InitiatesAt(n, t, i) {
      assert forall u | u != t :: !InitiatesAt(n, u, i);
    } else {
      NeutralKeeps(s, n, t, i);
    }
  }

  lemma OneInitiatorStep(s: State, a: Action, i: nat)
    requires Slots(s) && OneInitiator(s, i)
    ensures OneInitiator(Step(s, a), i)
  {
    hide OneInitiator, Slots;
    if a.CheckDisconnect? {
      if a.t in s.threads && s.threads[a.t].DisconnectCheck? { CheckKeeps(s, a.t, i); }
    } else if a.TryRegister? || a.DeleteSlot? || a.MarkReleased? {
      SectionIsNeutral(s, a, i);
      NeutralKeeps(s, Step(s, a), a.t, i);
    } else {
      MoveIsNeutral(s, a, i);
      NeutralKeeps(s, MoveStep(s, a), a.t, i);
    }
  }

  lemma {:induction false} OneInitiatorRun(s: State, actions: seq<Action>, i: nat)
    requires Invariant(s) && OneInitiator(s, i)
    ensures OneInitiator(Run(s, actions), i)
    decreases |actions|
  {
    if actions != [] {
      OneInitiatorStep(s, actions[0], i);
      StepPreserves(s, actions[0]);
      OneInitiatorRun(Step(s, actions[0]), actions[1..], i);
    }
  }

  /** Over every run, of all disconnects exactly one reports the retirement of a revoked instance, none of another. */
  lemma ExactlyOneInitiator(actions: seq<Action>, i: nat)
    ensures OneInitiator(Run(INITIAL, actions), i)
  {
    OneInitiatorRun(INITIAL, actions, i);
  }
}
