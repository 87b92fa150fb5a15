/** Promises that span a run: one use per code, stale sessions, permanent revocation, rotation recovery. */
module AdmissionTheorems {
  import opened Base
  import opened Membership
  import opened Workspace
  import opened WorkspaceLaws
  import opened AuthorityRotation
  import opened Admission
  import opened AdmissionLaws
  import opened AdmissionRuns
  import opened AdmissionHistory
  import opened MembershipRead
  import opened MembershipReadLaws

  // ----------------------------------------------------------------- one use per code

  /** The devices a pairing code has registered. */
  function Registrations(run: Run, code: nat, rank: Rank): nat {
    if run.Start? then 0
    else Registrations(run.earlier, code, rank)
         + (if Succeeded(run, rank) && run.command.RegisterPending? && run.command.code == code then 1 else 0)
  }

  /** The credentials a rotation code has rotated. */
  function Uses(run: Run, code: nat, rank: Rank): nat {
    if run.Start? then 0
    else Uses(run.earlier, code, rank)
         + (if Succeeded(run, rank) && run.command.RotateCredential? && run.command.code == code then 1 else 0)
  }

  predicate PairingSpent(s: State, code: nat) {
    Hash(code) in s.pairing && s.pairing[Hash(code)].consumedAt.Some?
  }

  predicate RotationSpent(s: State, code: nat) {
    Hash(code) in s.rotation && s.rotation[Hash(code)].consumedAt.Some?
  }

  lemma PairingStep(s: State, c: Command, code: nat, rank: Rank)
    requires Step(s, c, rank).Ok?
    ensures var n := Step(s, c, rank).value;
            if c.RegisterPending? && c.code == code then !PairingSpent(s, code) && PairingSpent(n, code)
            else PairingSpent(n, code) <==> PairingSpent(s, code)
  {
  }

  lemma RotationStep(s: State, c: Command, code: nat, rank: Rank)
    requires Step(s, c, rank).Ok?
    ensures var n := Step(s, c, rank).value;
            if c.RotateCredential? && c.code == code then !RotationSpent(s, code) && RotationSpent(n, code)
            else RotationSpent(n, code) <==> RotationSpent(s, code)
  {
  }

  /** Over any run a pairing code registers at most one device, and it is spent exactly when it has. */
  lemma {:induction false} PairingCodeOnce(run: Run, code: nat, rank: Rank)
    ensures Registrations(run, code, rank) <= 1
    ensures Registrations(run, code, rank) == 1 <==> PairingSpent(After(run, rank), code)
  {
    if run.Then? {
      PairingCodeOnce(run.earlier, code, rank);
      if Succeeded(run, rank) { PairingStep(After(run.earlier, rank), run.command, code, rank); }
    }
  }

  /** Over any run a rotation code succeeds at most once, and it is spent exactly when it has. */
  lemma {:induction false} RotationCodeOnce(run: Run, code: nat, rank: Rank)
    ensures Uses(run, code, rank) <= 1
    ensures Uses(run, code, rank) == 1 <==> RotationSpent(After(run, rank), code)
  {
    if run.Then? {
      RotationCodeOnce(run.earlier, code, rank);
      if Succeeded(run, rank) { RotationStep(After(run.earlier, rank), run.command, code, rank); }
    }
  }

  // ------------------------------------------------------------------------- sessions

  /** A session's version is authorized exactly while the device is approved and has not rotated since. */
  lemma AuthorizedIff(run: Run, id: nat, x: nat, version: int, rank: Rank)
    requires Injective(rank)
    ensures SessionAuthorized(After(run, rank), id, x, version) <==>
            && Exists(After(run, rank), id, x) && Row(After(run, rank), id, x).status == Approved
            && version == 1 + Rotations(run, id, x, rank)
  {
    HistoryHolds(run, id, x, rank);
    AlwaysGood(run, rank);
    if Exists(After(run, rank), id, x) {
      assert DeviceOk(id, After(run, rank).workspaces[id], x, Row(After(run, rank), id, x));
    }
  }

  /** The version a fresh session gets is the one version authorized at that moment. */
  lemma AuthenticatedIsAuthorized(run: Run, id: nat, x: nat, token: nat, version: int, rank: Rank)
    requires Injective(rank) && Authenticate(After(run, rank), id, x, token).Some?
    ensures SessionAuthorized(After(run, rank), id, x, version) <==>
            Authenticate(After(run, rank), id, x, token) == Some(version)
  {
    AuthorizedIff(run, id, x, version, rank);
    HistoryHolds(run, id, x, rank);
  }

  /** Once a rotation commits, every version issued before it stays unauthorized. */
  lemma StaleSessions(a: Run, b: Run, id: nat, x: nat, version: int, rank: Rank)
    requires Injective(rank) && Within(a, b) && Succeeded(a, rank) && IsTokenRotation(a.command, id, x)
    requires version <= 1 + Rotations(a.earlier, id, x, rank)
    ensures !SessionAuthorized(After(b, rank), id, x, version)
  {
    HistoryHolds(a, id, x, rank);
    AlwaysGood(a.earlier, rank);
    StepEffect(After(a.earlier, rank), a.command, id, x, rank);
    OnlyForward(a, b, id, rank);
    var w, n := After(a, rank).workspaces[id], After(b, rank).workspaces[id];
    assert x in w.devices && Since(w.devices[x], n.devices[x]);
  }

  // ---------------------------------------------------------------------- revocation

  lemma RevokedAbsent(id: nat, w: Tables, x: nat, j: nat, c: SignedCertificate, rank: Rank)
    requires DevicesOk(id, w) && PermanentOk(w) && Listed(w)
    requires x in w.devices && w.devices[x].status == Revoked && j < |w.rosters| && c in w.rosters[j].roster.active
    requires w.devices[x].revokedEpoch.Some? ==> w.devices[x].revokedEpoch.value <= j + 1
    ensures c.certificate.device != x
  {
    var d := w.devices[x];
    assert DeviceOk(id, w, x, d);
    assert ListedIn(w.rosters[j], w.devices);
    if d.certificate.Some? {
      var e := d.revokedEpoch.value;
      assert RevokedAt(w, x, d.certificate.value, e);
      assert Gone(w.rosters[e - 1], w.rosters[j]);
    }
  }

  /** After a device is revoked, no roster published later in any run lists it as active. */
  lemma RevokedForever(a: Run, b: Run, id: nat, x: nat, j: nat, c: SignedCertificate, rank: Rank)
    requires Injective(rank) && Within(a, b) && Exists(After(a, rank), id, x)
    requires Row(After(a, rank), id, x).status == Revoked
    requires Exists(After(b, rank), id, x)
    requires |After(a, rank).workspaces[id].rosters| <= j < |After(b, rank).workspaces[id].rosters|
    requires c in After(b, rank).workspaces[id].rosters[j].roster.active
    ensures c.certificate.device != x
  {
    AlwaysGood(a, rank);
    AlwaysGood(b, rank);
    OnlyForward(a, b, id, rank);
    var w, n := After(a, rank).workspaces[id], After(b, rank).workspaces[id];
    assert DeviceOk(id, w, x, w.devices[x]);
    assert Since(w.devices[x], n.devices[x]);
    RevokedAbsent(id, n, x, j, c, rank);
  }

  /** A revocation stays in every later roster, and no roster lists a revoked certificate as active. */
  lemma RevocationsGrow(run: Run, id: nat, i: nat, j: nat, v: Revocation, rank: Rank)
    requires Injective(rank) && id in After(run, rank).workspaces
    requires i <= j < |After(run, rank).workspaces[id].rosters|
    requires v in After(run, rank).workspaces[id].rosters[i].roster.revocations
    ensures var r := After(run, rank).workspaces[id].rosters[j].roster;
            && v in r.revocations
            && forall c | c in r.active :: c.id != v.certificateId && c.certificate.device != v.device
  {
    AlwaysGood(run, rank);
    RevocationsGrowIn(id, After(run, rank).workspaces[id], i, j, v, rank);
  }

  lemma RevocationsGrowIn(id: nat, w: Tables, i: nat, j: nat, v: Revocation, rank: Rank)
    requires ChainOk(id, w, rank) && GrowsOk(w) && PermanentOk(w)
    requires i <= j < |w.rosters| && v in w.rosters[i].roster.revocations
    ensures var r := w.rosters[j].roster;
            && v in r.revocations
            && forall c | c in r.active :: c.id != v.certificateId && c.certificate.device != v.device
  {
    GrowsTransitive(w, i, j, v);
    assert RosterLinked(id, w, j, rank);
    assert Gone(w.rosters[j], w.rosters[j]);
  }

  // ---------------------------------------------------------------- rotation recovery

  /** What RotateWorkspaceAuthority returns, from the tables it started on. */
  function Report(w: Tables, id: nat, newKey: Key, now: int): Rotated
    requires ReissueAll(w.devices, Active(w), newKey, |w.rosters| + 1, now).Ok?
  {
    var t := SignKeyTransition(RotatedTransition(w, id, newKey, now));
    var r := RotatedRoster(w, id, ReissueAll(w.devices, Active(w), newKey, |w.rosters| + 1, now).value.1);
    Rotated(w.authorityEpoch + 1, t.digest, |w.rosters| + 1, DigestOf(r), t)
  }

  /** The lookup never finds contradicting rows: it answers for the current authority once it was rotated to. */
  lemma CompletedExact(id: nat, w: Tables, expected: Key, rank: Rank)
    requires ChainOk(id, w, rank) && KeysOk(id, w)
    ensures Completed(w, expected) ==
            if w.transitions == [] || expected != w.authorityKey then Ok(None)
            else
              var t := w.transitions[|w.transitions| - 1];
              var e := t.transition.activationEpoch;
              if 1 <= e <= |w.rosters| then Ok(Some(Rotated(w.authorityEpoch, t.digest, e, w.rosters[e - 1].digest, t)))
              else Err(MissingRoster)
    ensures Completed(w, expected).Ok?
  {
    if w.transitions != [] { assert TransitionLinked(id, w, |w.transitions| - 1); }
  }

  lemma RotationReported(id: nat, w: Tables, newKey: Key, now: int, rank: Rank)
    requires Sound(id, w, rank) && RotateAllowed(w, w.authorityKey, newKey, now)
    requires ReissueAll(w.devices, Active(w), newKey, |w.rosters| + 1, now).Ok?
    ensures Completed(RotatedTables(w, id, newKey, now), newKey) == Ok(Some(Report(w, id, newKey, now)))
  {
    TransitionValid(id, w, newKey, now, rank);
  }

  lemma CompletedKeeps(w: Tables, n: Tables, expected: Key)
    requires SameAuthority(w, n) && Completed(w, expected).Ok?
    ensures Completed(n, expected) == Completed(w, expected)
  {
  }

  /** No rotation of this workspace succeeds between the two runs. */
  predicate NoRotation(a: Run, b: Run, id: nat, rank: Rank) {
    || a == b
    || (b.Then? && NoRotation(a, b.earlier, id, rank)
        && !(Succeeded(b, rank) && b.command.RotateAuthority? && b.command.workspace == id))
  }

  /** The commands on codes and single rows leave authorities and rosters alone. */
  lemma RowsKeepAuthority(s: State, c: Command, id: nat, rank: Rank)
    requires id in s.workspaces && Step(s, c, rank).Ok? && !IsMembership(c)
    ensures id in Step(s, c, rank).value.workspaces
    ensures SameAuthority(s.workspaces[id], Step(s, c, rank).value.workspaces[id])
  {
  }

  lemma AuthorityStays(s: State, c: Command, id: nat, rank: Rank)
    requires Good(s, rank) && id in s.workspaces && Step(s, c, rank).Ok? && !(c.RotateAuthority? && c.workspace == id)
    ensures id in Step(s, c, rank).value.workspaces
    ensures SameAuthority(s.workspaces[id], Step(s, c, rank).value.workspaces[id])
  {
    if IsMembership(c) {
      MembershipMoves(s, c, rank);
    } else {
      RowsKeepAuthority(s, c, id, rank);
    }
  }

  lemma {:induction false} AuthorityStaysOver(a: Run, b: Run, id: nat, expected: Key, rank: Rank)
    requires Injective(rank) && id in After(a, rank).workspaces && NoRotation(a, b, id, rank)
    requires Completed(After(a, rank).workspaces[id], expected).Ok?
    ensures id in After(b, rank).workspaces
    ensures Completed(After(b, rank).workspaces[id], expected) == Completed(After(a, rank).workspaces[id], expected)
  {
    if a != b {
      AuthorityStaysOver(a, b.earlier, id, expected, rank);
      if Succeeded(b, rank) {
        AlwaysGood(b.earlier, rank);
        AuthorityStays(After(b.earlier, rank), b.command, id, rank);
        CompletedKeeps(After(b.earlier, rank).workspaces[id], After(b, rank).workspaces[id], expected);
      }
    }
  }

  /**
   After a rotation commits, the recovery lookup for its new key returns exactly what the
   rotation returned, through any later commands, until the next rotation of that workspace.
   */
  lemma RotationRecovered(a: Run, b: Run, id: nat, rank: Rank)
    requires Injective(rank) && Succeeded(a, rank) && a.command.RotateAuthority? && a.command.workspace == id
    requires NoRotation(a, b, id, rank)
    ensures id in After(a.earlier, rank).workspaces && id in After(b, rank).workspaces
    ensures var w, now := After(a.earlier, rank).workspaces[id], Millis(a.command.now);
            && ReissueAll(w.devices, Active(w), a.command.newKey, |w.rosters| + 1, now).Ok?
            && Completed(After(b, rank).workspaces[id], a.command.newKey)
            == Ok(Some(Report(w, id, a.command.newKey, now)))
  {
    hide ReissueAll, RotatedTables, Report, Completed;
    hide ChainOk, KeysOk, DevicesOk, ActiveOk, RevokedOk, GrowsOk, PermanentOk;
    AlwaysGood(a.earlier, rank);
    var w, now := After(a.earlier, rank).workspaces[id], Millis(a.command.now);
    RotateExact(id, w, a.command.key, a.command.newKey, now, rank);
    RotationReported(id, w, a.command.newKey, now, rank);
    AuthorityStaysOver(a, b, id, a.command.newKey, rank);
  }

  // -------------------------------------------------------------------------- reading

  /**
   In every reachable state a certified device, revoked or not, reads its membership from 0:
   its stored certificate decodes under the key it is handed.
   */
  lemma AlwaysReadable(run: Run, id: nat, x: nat, token: nat, size: Size, r: Result<View, ReadError>, rank: Rank)
    requires Injective(rank) && Exists(After(run, rank), id, x)
    requires IsCertified(After(run, rank).workspaces[id], x) && Row(After(run, rank), id, x).tokenHash == Hash(token)
    requires Answer(After(run, rank).workspaces[id], x, token, 0, size, r)
    ensures r.Ok? && r.value.certificate.Some? && r.value.certificate == Row(After(run, rank), id, x).certificate
    ensures SignedCertificateValid(r.value.certificate.value, r.value.key)
    ensures |r.value.transitions| <= 1 && r.value.rosters != []
  {
    AlwaysGood(run, rank);
    FirstRead(id, After(run, rank).workspaces[id], x, token, size, r, rank);
  }

  /** In every reachable state a certified device that follows its pages collects its whole chain. */
  method FollowChain(ghost run: Run, s: State, id: nat, x: nat, token: nat, size: Size, ghost rank: Rank)
    returns (all: seq<SignedRoster>)
    requires Injective(rank) && s == After(run, rank) && Exists(s, id, x)
    requires IsCertified(s.workspaces[id], x) && Row(s, id, x).tokenHash == Hash(token)
    ensures Row(s, id, x).certificate.Some?
    ensures var w, start := s.workspaces[id], Row(s, id, x).certificate.value.certificate.membershipEpoch - 1;
            0 <= start < FinalEpoch(w, x) <= |w.rosters| && all == w.rosters[start..FinalEpoch(w, x)]
  {
    hide Sound;
    AlwaysGood(run, rank);
    all := ReadChain(id, s.workspaces[id], x, token, size, rank);
  }
}
