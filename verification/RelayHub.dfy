/**
 The relay hub as an object. Each method is one lock section of one goroutine; the ghost list of
 actions is the interleaving so far, so the object is always in a state the machine can reach.
 */
module RelayHub {
  import opened Base
  import opened HubModel
  import opened HubOutcomes

  lemma OneMore(actions: seq<Action>, a: Action)
    ensures Run(INITIAL, actions + [a]) == Step(Run(INITIAL, actions), a)
  {
    RunConcat(INITIAL, actions, [a]);
    var s := Run(INITIAL, actions);
    assert Run(s, [a]) == Run(Step(s, a), []);
  }

  // ---------------------------------------------- what the steps of a run bring about

  lemma SlotsHold(actions: seq<Action>)
    ensures Slots(Run(INITIAL, actions))
  {
    RunPreserves(INITIAL, actions);
  }

  /** A registered goroutine owns a new instance, and all it waited for are gone and no newer. */
  lemma AttemptMeans(actions: seq<Action>, t: nat)
    requires var s := Run(INITIAL, actions); t in s.threads && s.threads[t].RegisterTry?
    ensures var s := Run(INITIAL, actions);
            var n := Step(s, TryRegister(t));
            && t in n.threads
            && (n.threads[t].Registered? ==>
                  && Holds(n, n.threads[t].instance) && n.threads[t].instance == |s.instances|
                  && forall w | w in n.threads[t].waited ::
                       Gone(n, w) && n.instances[w].version <= n.instances[n.threads[t].instance].version)
            && (n.threads[t].RegisterWait? ==> Holds(n, n.threads[t].on) && n.instances[n.threads[t].on].retired.Some?)
  {
    var s := Run(INITIAL, actions);
    var n := Step(s, TryRegister(t));
    RunPreserves(INITIAL, actions);
    StepPreserves(s, TryRegister(t));
    assert ThreadOk(n, n.threads[t]);
    if n.threads[t].Registered? {
      forall w | w in n.threads[t].waited ensures Gone(n, w) { ReleasedIsGone(n, w); }
    }
  }

  /** A released instance is gone, now and after any step. */
  lemma ReleasedMeans(actions: seq<Action>, a: Action, i: nat)
    requires var s := Step(Run(INITIAL, actions), a); i < |s.instances| && s.instances[i].released
    ensures Gone(Step(Run(INITIAL, actions), a), i)
  {
    RunPreserves(INITIAL, actions);
    StepPreserves(Run(INITIAL, actions), a);
    ReleasedIsGone(Step(Run(INITIAL, actions), a), i);
  }

  /** A disconnect past its check has a real instance of its own device. */
  lemma DisconnectMeans(actions: seq<Action>, t: nat)
    requires var s := Run(INITIAL, actions);
             t in s.threads && (s.threads[t].DisconnectLocked? || s.threads[t].DisconnectDeleted?)
    ensures var s := Run(INITIAL, actions);
            s.threads[t].instance < |s.instances| && s.instances[s.threads[t].instance].peer == s.threads[t].peer
  {
    RunPreserves(INITIAL, actions);
    assert ThreadOk(Run(INITIAL, actions), Run(INITIAL, actions).threads[t]);
  }

  lemma MarkedMeans(actions: seq<Action>, t: nat)
    requires var s := Run(INITIAL, actions); t in s.threads && s.threads[t].DisconnectMarked?
    ensures var s := Run(INITIAL, actions);
            s.threads[t].instance < |s.instances| && s.instances[s.threads[t].instance].released
  {
    RunPreserves(INITIAL, actions);
    assert ThreadOk(Run(INITIAL, actions), Run(INITIAL, actions).threads[t]);
  }

  /** Under the operation lock of a retired instance, no continuation of the run admits work on it. */
  lemma LockMeans(actions: seq<Action>, t: nat)
    requires var s := Run(INITIAL, actions);
             t in s.threads && s.threads[t].DisconnectDrain? && WriteFree(s, s.threads[t].instance)
    ensures var s := Run(INITIAL, actions);
            var n, i := Step(s, LockOperations(t)), s.threads[t].instance;
            && i < |n.instances| && n.instances[i].retired.Some?
            && (forall more: seq<Action> :: NoWork(Run(n, more), i))
  {
    var s := Run(INITIAL, actions);
    var n, i := Step(s, LockOperations(t)), s.threads[t].instance;
    RunPreserves(INITIAL, actions);
    StepPreserves(s, LockOperations(t));
    assert ThreadOk(s, s.threads[t]);
    assert NoWork(n, i);
    forall more: seq<Action> ensures NoWork(Run(n, more), i) { QuietForever(n, more, i); }
  }

  /** Finished work is work the drain of its instance no longer has to wait for. */
  lemma FinishMeans(actions: seq<Action>, t: nat)
    requires var s := Run(INITIAL, actions); t in s.threads && s.threads[t].OperationAdmitted?
    ensures var s := Run(INITIAL, actions);
            var n, i := Step(s, FinishOperation(t)), s.threads[t].instance;
            && i < |n.instances|
            && (n.instances[i].retired.Some? ==>
                  forall more: seq<Action> :: Steps(n, more, i, false) < Work(s.threads, i, false))
  {
    var s := Run(INITIAL, actions);
    var n, i := Step(s, FinishOperation(t)), s.threads[t].instance;
    RunPreserves(INITIAL, actions);
    AdmittedHolds(s, t);
    if n.instances[i].retired.Some? {
      StepPreserves(s, FinishOperation(t));
      assert Progress(s, FinishOperation(t), i, false);
      StepDrains(s, FinishOperation(t), i, false);
      forall more: seq<Action> ensures Steps(n, more, i, false) < Work(s.threads, i, false) {
        DrainEnds(n, more, i, false);
      }
    }
  }

  class Hub {
    var devices: map<Peer, nat>
    var instances: seq<Instance>
    var threads: map<nat, Thread>
    /** Every step so far. */
    ghost var actions: seq<Action>

    function Current(): State
      reads this
    {
      State(devices, instances, threads)
    }

    ghost predicate Valid()
      reads this
    {
      Current() == Run(INITIAL, actions)
    }

    constructor ()
      ensures Valid() && Current() == INITIAL
    {
      devices, instances, threads, actions := map[], [], map[], [];
    }

    /** retire: the first reason stays, and only the call that set it reports so. */
    method RetireOnce(i: nat, reason: Reason) returns (initiated: bool)
      requires i < |instances|
      modifies this`instances
      ensures instances == old(instances)[i := Retire(old(instances[i]), reason)]
      ensures initiated <==> old(instances[i].retired) != instances[i].retired
      ensures instances[i].retired == if initiated then Some(reason) else old(instances[i].retired)
    {
      initiated := instances[i].retired.None?;
      if initiated {
        instances := instances[i := instances[i].(retired := Some(reason))];
      }
    }

    /** Register is called: only positive versions and queue sizes get to try. */
    method CallRegister(t: nat, peer: Peer, version: int, queueSize: int)
      requires Valid() && t !in threads
      modifies this
      ensures Valid() && actions == old(actions) + [Action.CallRegister(t, peer, version, queueSize)]
      ensures Current() == Step(old(Current()), Action.CallRegister(t, peer, version, queueSize))
      ensures devices == old(devices) && instances == old(instances)
      ensures version < 1 ==> threads[t] == RegisterFailed(BadVersion)
      ensures version >= 1 && queueSize < 1 ==> threads[t] == RegisterFailed(BadQueueSize)
      ensures version >= 1 && queueSize >= 1 ==> threads[t] == RegisterTry(peer, version, 0, {})
    {
      OneMore(actions, Action.CallRegister(t, peer, version, queueSize));
      actions := actions + [Action.CallRegister(t, peer, version, queueSize)];
      threads := threads[t := if version < 1 then RegisterFailed(BadVersion)
                              else if queueSize < 1 then RegisterFailed(BadQueueSize)
                              else RegisterTry(peer, version, 0, {})];
    }

    /** One attempt of Register under the hub lock. */
    method RegisterAttempt(t: nat)
      requires Valid() && t in threads && threads[t].RegisterTry?
      modifies this
      ensures Valid() && actions == old(actions) + [TryRegister(t)] && Current() == Step(old(Current()), TryRegister(t))
      ensures Outcome(old(Current()), Current(), t)
      ensures threads[t].Registered? <==> old(|threads[t].waited| < 2 && threads[t].peer !in devices)
      ensures threads[t].Registered? ==>
                && Holds(Current(), threads[t].instance) && threads[t].instance == old(|instances|)
                && forall w | w in threads[t].waited ::
                     Gone(Current(), w) && instances[w].version <= instances[threads[t].instance].version
      ensures threads[t].RegisterFailed? ==> devices == old(devices) && instances == old(instances)
      ensures threads[t].RegisterWait? ==>
                Holds(Current(), threads[t].on) && instances[threads[t].on].retired.Some?
    {
      SlotsHold(actions);
      AttemptMeans(actions, t);
      AttemptOutcome(actions, t);
      OneMore(actions, TryRegister(t));
      actions := actions + [TryRegister(t)];
      var th := threads[t];
      if th.attempt >= MAX_HANDOVER_ATTEMPTS {
        threads := threads[t := RegisterFailed(AlreadyConnected)];
      } else if th.peer !in devices {
        devices := devices[th.peer := |instances|];
        threads := threads[t := Registered(th.peer, |instances|, th.waited)];
        instances := instances + [Instance(th.peer, th.version, None, false)];
      } else {
        var i := devices[th.peer];
        if th.version < instances[i].version {
          threads := threads[t := RegisterFailed(StaleCredential)];
        } else {
          var _ := RetireOnce(i, Superseded);
          threads := threads[t := RegisterWait(th.peer, th.version, th.attempt, th.waited, i)];
        }
      }
    }

    /** awaitRelease sees the release signal: the instance waited for is gone. */
    method SeeRelease(t: nat)
      requires Valid() && t in threads && threads[t].RegisterWait? && threads[t].on < |instances|
      requires instances[threads[t].on].released
      modifies this
      ensures Valid() && actions == old(actions) + [Action.SeeRelease(t)]
      ensures Current() == Step(old(Current()), Action.SeeRelease(t))
      ensures threads[t].RegisterTry? && threads[t].waited == old(threads[t].waited + {threads[t].on})
      ensures threads[t].peer == old(threads[t].peer) && threads[t].version == old(threads[t].version)
      ensures Gone(Current(), old(threads[t].on)) && devices == old(devices) && instances == old(instances)
    {
      ReleasedMeans(actions, Action.SeeRelease(t), threads[t].on);
      OneMore(actions, Action.SeeRelease(t));
      actions := actions + [Action.SeeRelease(t)];
      var th := threads[t];
      threads := threads[t := RegisterTry(th.peer, th.version, th.attempt + 1, th.waited + {th.on})];
    }

    /** awaitRelease runs out of time; the occupant keeps the slot until its own work is done. */
    method TimeOut(t: nat)
      requires Valid() && t in threads && threads[t].RegisterWait?
      modifies this
      ensures Valid() && actions == old(actions) + [Action.TimeOut(t)]
      ensures Current() == Step(old(Current()), Action.TimeOut(t))
      ensures threads[t] == RegisterFailed(HandoverTimeout) && devices == old(devices) && instances == old(instances)
    {
      OneMore(actions, Action.TimeOut(t));
      actions := actions + [Action.TimeOut(t)];
      threads := threads[t := RegisterFailed(HandoverTimeout)];
    }

    /** Disconnect is called with an observation, old or new. */
    method CallDisconnect(t: nat, peer: Peer, instance: nat)
      requires Valid() && t !in threads
      modifies this
      ensures Valid() && actions == old(actions) + [Action.CallDisconnect(t, peer, instance)]
      ensures Current() == Step(old(Current()), Action.CallDisconnect(t, peer, instance))
      ensures devices == old(devices) && instances == old(instances)
    {
      OneMore(actions, Action.CallDisconnect(t, peer, instance));
      actions := actions + [Action.CallDisconnect(t, peer, instance)];
      threads := threads[t := DisconnectCheck(peer, instance)];
    }

    /** The first lock section of Disconnect retires the instance observed, if it still has the slot, and no other. */
    method CheckDisconnect(t: nat) returns (found: bool)
      requires Valid() && t in threads && threads[t].DisconnectCheck?
      modifies this
      ensures Valid() && actions == old(actions) + [Action.CheckDisconnect(t)]
      ensures Current() == Step(old(Current()), Action.CheckDisconnect(t))
      ensures found <==> old(threads[t].peer in devices && devices[threads[t].peer] == threads[t].instance)
      ensures found ==> Holds(Current(), old(threads[t].instance)) && instances[old(threads[t].instance)].retired.Some?
      ensures threads[t].DisconnectDrain? <==> found
      ensures found ==> (threads[t].initiated <==> old(instances)[threads[t].instance].retired.None?)
      ensures |instances| == old(|instances|) && devices == old(devices)
              && forall j | 0 <= j < |instances| && (!found || j != old(threads[t].instance)) ::
                   instances[j] == old(instances[j])
    {
      SlotsHold(actions);
      OneMore(actions, Action.CheckDisconnect(t));
      actions := actions + [Action.CheckDisconnect(t)];
      var th := threads[t];
      found := th.peer in devices && devices[th.peer] == th.instance;
      if found {
        var initiated := RetireOnce(th.instance, Revoked);
        threads := threads[t := DisconnectDrain(th.peer, th.instance, initiated)];
      } else {
        threads := threads[t := Disconnected(th.peer, th.instance, false)];
      }
    }

    /** The operation lock is granted once nobody holds it: no work on the instance is admitted then or ever after. */
    method LockOperations(t: nat)
      requires Valid() && t in threads && threads[t].DisconnectDrain? && WriteFree(Current(), threads[t].instance)
      modifies this
      ensures Valid() && actions == old(actions) + [Action.LockOperations(t)]
      ensures Current() == Step(old(Current()), Action.LockOperations(t))
      ensures threads[t].DisconnectLocked? && threads[t].instance == old(threads[t].instance) < |instances|
      ensures instances[threads[t].instance].retired.Some?
      ensures forall more: seq<Action> :: NoWork(Run(Current(), more), threads[t].instance)
    {
      LockMeans(actions, t);
      OneMore(actions, Action.LockOperations(t));
      actions := actions + [Action.LockOperations(t)];
      var th := threads[t];
      threads := threads[t := DisconnectLocked(th.peer, th.instance, th.initiated)];
    }

    /** The second lock section of Disconnect frees the slot of its own instance and of no other. */
    method DeleteSlot(t: nat)
      requires Valid() && t in threads && threads[t].DisconnectLocked?
      modifies this
      ensures Valid() && actions == old(actions) + [Action.DeleteSlot(t)]
      ensures Current() == Step(old(Current()), Action.DeleteSlot(t))
      ensures !Holds(Current(), old(threads[t].instance)) && instances == old(instances)
      ensures forall k | 0 <= k < |instances| && k != old(threads[t].instance) ::
                Holds(Current(), k) <==> old(Holds(Current(), k))
    {
      DisconnectMeans(actions, t);
      OneMore(actions, Action.DeleteSlot(t));
      actions := actions + [Action.DeleteSlot(t)];
      var th := threads[t];
      if th.peer in devices && devices[th.peer] == th.instance {
        devices := devices - {th.peer};
      }
      threads := threads[t := DisconnectDeleted(th.peer, th.instance, th.initiated)];
    }

    /** markReleased: whoever waits may go on, for the instance is gone. */
    method MarkReleased(t: nat)
      requires Valid() && t in threads && threads[t].DisconnectDeleted?
      modifies this
      ensures Valid() && actions == old(actions) + [Action.MarkReleased(t)]
      ensures Current() == Step(old(Current()), Action.MarkReleased(t))
      ensures Gone(Current(), old(threads[t].instance))
    {
      DisconnectMeans(actions, t);
      ReleasedMeans(actions, Action.MarkReleased(t), threads[t].instance);
      OneMore(actions, Action.MarkReleased(t));
      actions := actions + [Action.MarkReleased(t)];
      var th := threads[t];
      instances := instances[th.instance := instances[th.instance].(released := true)];
      threads := threads[t := DisconnectMarked(th.peer, th.instance, th.initiated)];
    }

    /** Disconnect returns: the instance it retired is gone. */
    method UnlockOperations(t: nat) returns (initiated: bool)
      requires Valid() && t in threads && threads[t].DisconnectMarked?
      modifies this
      ensures Valid() && actions == old(actions) + [Action.UnlockOperations(t)]
      ensures Current() == Step(old(Current()), Action.UnlockOperations(t))
      ensures Gone(Current(), old(threads[t].instance)) && initiated == old(threads[t].initiated)
      ensures threads[t] == Disconnected(old(threads[t].peer), old(threads[t].instance), initiated)
    {
      MarkedMeans(actions, t);
      ReleasedMeans(actions, Action.UnlockOperations(t), threads[t].instance);
      OneMore(actions, Action.UnlockOperations(t));
      actions := actions + [Action.UnlockOperations(t)];
      var th := threads[t];
      initiated := th.initiated;
      threads := threads[t := Disconnected(th.peer, th.instance, initiated)];
    }

    /** An operation is called with an observation, old or new. */
    method CallOperation(t: nat, peer: Peer, instance: nat)
      requires Valid() && t !in threads
      modifies this
      ensures Valid() && actions == old(actions) + [Action.CallOperation(t, peer, instance)]
      ensures Current() == Step(old(Current()), Action.CallOperation(t, peer, instance))
      ensures devices == old(devices) && instances == old(instances)
    {
      OneMore(actions, Action.CallOperation(t, peer, instance));
      actions := actions + [Action.CallOperation(t, peer, instance)];
      threads := threads[t := OperationStart(peer, instance)];
    }

    /** The first check of beginOperation: a retired instance takes no further work. */
    method EnterOperation(t: nat)
      requires Valid() && t in threads && threads[t].OperationStart?
      modifies this
      ensures Valid() && actions == old(actions) + [Action.EnterOperation(t)]
      ensures Current() == Step(old(Current()), Action.EnterOperation(t))
      ensures threads[t].OperationLocking? <==>
              old(threads[t].instance < |instances| && instances[threads[t].instance].retired.None?)
      ensures !threads[t].OperationLocking? ==> threads[t].OperationRefused?
    {
      OneMore(actions, Action.EnterOperation(t));
      actions := actions + [Action.EnterOperation(t)];
      var th := threads[t];
      if th.instance < |instances| && instances[th.instance].retired.None? {
        threads := threads[t := OperationLocking(th.peer, th.instance)];
      } else {
        threads := threads[t := OperationRefused];
      }
    }

    /** The read lock is granted while no disconnect holds the lock. */
    method ReadLock(t: nat)
      requires Valid() && t in threads && threads[t].OperationLocking? && ReadFree(Current(), threads[t].instance)
      modifies this
      ensures Valid() && actions == old(actions) + [Action.ReadLock(t)]
      ensures Current() == Step(old(Current()), Action.ReadLock(t))
      ensures Reads(threads[t], old(threads[t].instance)) && !WriteFree(Current(), old(threads[t].instance))
    {
      OneMore(actions, Action.ReadLock(t));
      actions := actions + [Action.ReadLock(t)];
      var th := threads[t];
      threads := threads[t := OperationReading(th.peer, th.instance)];
    }

    /** The second check of beginOperation, under the read lock: work is admitted only on the owner of the slot. */
    method CheckOperation(t: nat) returns (admitted: bool)
      requires Valid() && t in threads && threads[t].OperationReading?
      modifies this
      ensures Valid() && actions == old(actions) + [Action.CheckOperation(t)]
      ensures Current() == Step(old(Current()), Action.CheckOperation(t))
      ensures admitted <==> threads[t].OperationAdmitted?
      ensures admitted <==>
              && Holds(Current(), old(threads[t].instance))
              && instances[old(threads[t].instance)].peer == old(threads[t].peer)
              && instances[old(threads[t].instance)].retired.None?
      ensures !admitted ==> threads[t].OperationRefused?
    {
      SlotsHold(actions);
      OneMore(actions, Action.CheckOperation(t));
      actions := actions + [Action.CheckOperation(t)];
      var th := threads[t];
      admitted := th.peer in devices && devices[th.peer] == th.instance && instances[th.instance].retired.None?;
      threads := threads[t := if admitted then OperationAdmitted(th.peer, th.instance) else OperationRefused];
    }

    /** The admitted work returns: on a retired instance, one step less is left in every continuation. */
    method FinishOperation(t: nat)
      requires Valid() && t in threads && threads[t].OperationAdmitted?
      modifies this
      ensures old(threads[t].instance) < |instances|
      ensures Valid() && actions == old(actions) + [Action.FinishOperation(t)]
      ensures Current() == Step(old(Current()), Action.FinishOperation(t))
      ensures threads[t].OperationDone?
      ensures instances[old(threads[t].instance)].retired.Some? ==>
                forall more: seq<Action> ::
                  Steps(Current(), more, old(threads[t].instance), false)
                  < Work(old(threads), old(threads[t].instance), false)
    {
      FinishMeans(actions, t);
      OneMore(actions, Action.FinishOperation(t));
      actions := actions + [Action.FinishOperation(t)];
      threads := threads[t := OperationDone];
    }
  }
}
