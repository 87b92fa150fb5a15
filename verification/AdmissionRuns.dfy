/** Every run of admission commands from an empty store, failed commands included. */
module AdmissionRuns {
  import opened Base
  import opened Membership
  import opened Workspace
  import opened WorkspaceLaws
  import opened WorkspaceOps
  import opened AuthorityRotation
  import opened Admission
  import opened AdmissionLaws

  /** Newest command outermost. */
  datatype Run = Start | Then(earlier: Run, command: Command)

  /** A failed transaction rolls back. */
  function After(run: Run, rank: Rank): State {
    match run
    case Start => EMPTY
    case Then(earlier, c) =>
      match Step(After(earlier, rank), c, rank)
      case Ok(n) => n
      case Err(_) => After(earlier, rank)
  }

  /** The newest command of the run succeeded. */
  predicate Succeeded(run: Run, rank: Rank) {
    run.Then? && Step(After(run.earlier, rank), run.command, rank).Ok?
  }

  predicate Within(a: Run, b: Run) {
    a == b || (b.Then? && Within(a, b.earlier))
  }

  // ------------------------------------------------------------- one command at a time

  ghost predicate Good(s: State, rank: Rank) {
    Injective(rank) && forall id | id in s.workspaces :: Sound(id, s.workspaces[id], rank) && Listed(s.workspaces[id])
  }

  /** How any command may change a row. */
  predicate RowStep(o: Device, d: Device) {
    Forward(o.status, d.status) && (o.status == Revoked ==> d == o) && o.credentialVersion <= d.credentialVersion
  }

  predicate Kept(w: Tables, n: Tables) {
    && w.rosters <= n.rosters
    && (forall x | x in w.devices :: x in n.devices && RowStep(w.devices[x], n.devices[x]))
  }

  /** The workspace's tables after a command that may have replaced them. */
  ghost predicate Replaced(s: State, n: State, id: nat, rank: Rank) {
    && id in n.workspaces && n.workspaces == s.workspaces[id := n.workspaces[id]]
    && Sound(id, n.workspaces[id], rank) && Listed(n.workspaces[id])
    && (id in s.workspaces ==> Kept(s.workspaces[id], n.workspaces[id]))
  }

  ghost predicate StepOk(s: State, n: State, rank: Rank) {
    && Good(n, rank)
    && (forall id | id in s.workspaces :: id in n.workspaces && Kept(s.workspaces[id], n.workspaces[id]))
  }

  lemma KeptSame(w: Tables)
    ensures Kept(w, w)
  {
  }

  lemma ReplacedOk(s: State, n: State, id: nat, rank: Rank)
    requires Good(s, rank) && Replaced(s, n, id, rank)
    ensures StepOk(s, n, rank)
  {
    forall i | i in s.workspaces ensures i in n.workspaces && Kept(s.workspaces[i], n.workspaces[i]) {
      if i != id { KeptSame(s.workspaces[i]); }
    }
  }

  lemma AdvancesKept(id: nat, w: Tables, n: Tables, rank: Rank)
    requires Advances(id, w, n, rank)
    ensures Kept(w, n)
  {
  }

  /** A row added, or changed without touching what rosters say about the device. */
  lemma RowKept(s: State, id: nat, x: nat, d: Device, rank: Rank)
    requires Good(s, rank) && id in s.workspaces && DeviceOk(id, s.workspaces[id], x, d)
    requires x in s.workspaces[id].devices ==>
               var o := s.workspaces[id].devices[x];
               o.status != Revoked && RowStep(o, d) && d.certificate == o.certificate
               && (o.status == Approved ==> d.status == Approved)
    ensures Replaced(s, WithRow(s, id, x, d), id, rank)
  {
    var w := s.workspaces[id];
    var n := w.(devices := w.devices[x := d]);
    RowSound(id, w, x, d, rank);
    forall i | 0 <= i < |n.rosters| ensures ListedIn(n.rosters[i], n.devices) {
      assert ListedIn(w.rosters[i], w.devices);
    }
  }

  lemma CreateOk(s: State, id: nat, key: Key, rank: Rank)
    requires Good(s, rank) && Create(s, id, key).Ok?
    ensures StepOk(s, Create(s, id, key).value, rank)
  {
    ReplacedOk(s, Create(s, id, key).value, id, rank);
  }

  lemma RegisterOk(s: State, t: DeviceType, name: string, identity: Option<nat>, code: nat, x: nat, token: nat,
                   challenge: Option<Challenge>, now: Instant, rank: Rank)
    requires Good(s, rank) && Register(s, t, name, identity, code, x, token, challenge, now).Ok?
    ensures StepOk(s, Register(s, t, name, identity, code, x, token, challenge, now).value, rank)
  {
    var n := Register(s, t, name, identity, code, x, token, challenge, now).value;
    var id := s.pairing[Hash(code)].workspace;
    var d := PendingDevice(t, name, identity.value, token, challenge.value);
    RowKept(s, id, x, d, rank);
    ReplacedOk(s, n, id, rank);
  }

  lemma ProveOk(s: State, id: nat, x: nat, token: nat, digest: nat, secret: nat, now: Instant, rank: Rank)
    requires Good(s, rank) && Prove(s, id, x, token, digest, secret, now).Ok?
    ensures StepOk(s, Prove(s, id, x, token, digest, secret, now).value, rank)
  {
    var n := Prove(s, id, x, token, digest, secret, now).value;
    assert DeviceOk(id, s.workspaces[id], x, Row(s, id, x));
    RowKept(s, id, x, Row(n, id, x), rank);
    ReplacedOk(s, n, id, rank);
  }

  lemma TokenDeviceOk(id: nat, w: Tables, x: nat, o: Device, d: Device)
    requires DeviceOk(id, w, x, o) && d == o.(tokenHash := d.tokenHash, credentialVersion := d.credentialVersion)
    requires o.status == Approved
    ensures DeviceOk(id, w, x, d)
  {
  }

  lemma RotateTokenOk(s: State, id: nat, x: nat, code: nat, token: nat, newToken: nat, now: Instant, rank: Rank)
    requires Good(s, rank) && RotateToken(s, id, x, code, token, newToken, now).Ok?
    ensures StepOk(s, RotateToken(s, id, x, code, token, newToken, now).value, rank)
  {
    var n := RotateToken(s, id, x, code, token, newToken, now).value;
    TokenDeviceOk(id, s.workspaces[id], x, Row(s, id, x), Row(n, id, x));
    RowKept(s, id, x, Row(n, id, x), rank);
    ReplacedOk(s, n, id, rank);
  }

  lemma MembershipOk(s: State, id: nat, r: Result<Tables, AdmissionError>, rank: Rank)
    requires Good(s, rank) && id in s.workspaces
    requires r.Ok? ==> Advances(id, s.workspaces[id], r.value, rank)
    requires r.Err? ==> !Inconsistency(r.error)
    ensures InWorkspace(s, id, r).Ok? ==> StepOk(s, InWorkspace(s, id, r).value, rank)
    ensures InWorkspace(s, id, r).Err? ==> Explained(InWorkspace(s, id, r).error)
  {
    if r.Ok? {
      AdvancesKept(id, s.workspaces[id], r.value, rank);
      ReplacedOk(s, InWorkspace(s, id, r).value, id, rank);
    }
  }

  /** The error does not report tables contradicting each other. */
  predicate Explained(e: StoreError) {
    !(e.Refused? && Inconsistency(e.reason))
  }

  lemma MembershipStepOk(s: State, c: Command, rank: Rank)
    requires Good(s, rank) && (c.ApproveDevice? || c.RenameDevice? || c.RevokeDevice? || c.RotateAuthority?)
    ensures var r := Step(s, c, rank); (r.Ok? ==> StepOk(s, r.value, rank)) && (r.Err? ==> Explained(r.error))
  {
    var id := c.workspace;
    if id in s.workspaces {
      var w := s.workspaces[id];
      if c.ApproveDevice? {
        ApproveAdvances(id, w, c.device, c.roles, c.key, Millis(c.now), rank);
        MembershipOk(s, id, Approve(w, id, c.device, c.roles, c.key, Millis(c.now), rank), rank);
      } else if c.RenameDevice? {
        RenameAdvances(id, w, c.device, c.name, c.key, Millis(c.now), rank);
        MembershipOk(s, id, Rename(w, id, c.device, c.name, c.key, Millis(c.now), rank), rank);
      } else if c.RevokeDevice? {
        RevokeAdvances(id, w, c.device, c.key, Millis(c.now), rank);
        MembershipOk(s, id, Revoke(w, id, c.device, c.key, Millis(c.now), rank), rank);
      } else {
        RotateAdvances(id, w, c.key, c.newKey, Millis(c.now), rank);
        MembershipOk(s, id, Rotate(w, id, c.key, c.newKey, Millis(c.now), rank), rank);
      }
    }
  }

  lemma CodesOk(s: State, n: State, rank: Rank)
    requires Good(s, rank) && n.workspaces == s.workspaces
    ensures StepOk(s, n, rank)
  {
    forall id | id in s.workspaces ensures Kept(s.workspaces[id], n.workspaces[id]) { KeptSame(s.workspaces[id]); }
  }

  /** Every command keeps the store sound and moves rows forward only. */
  lemma StepKeeps(s: State, c: Command, rank: Rank)
    requires Good(s, rank)
    ensures var r := Step(s, c, rank); (r.Ok? ==> StepOk(s, r.value, rank)) && (r.Err? ==> Explained(r.error))
  {
    if c.ApproveDevice? || c.RenameDevice? || c.RevokeDevice? || c.RotateAuthority? {
      MembershipStepOk(s, c, rank);
    } else if Step(s, c, rank).Ok? {
      if c.CreateWorkspace? {
        CreateOk(s, c.workspace, c.key, rank);
      } else if c.RegisterPending? {
        RegisterOk(s, c.deviceType, c.name, c.identityKey, c.code, c.device, c.token, c.challenge, c.now, rank);
      } else if c.CompleteProof? {
        ProveOk(s, c.workspace, c.device, c.token, c.digest, c.secret, c.now, rank);
      } else if c.RotateCredential? {
        RotateTokenOk(s, c.workspace, c.device, c.code, c.token, c.newToken, c.now, rank);
      } else {
        CodesOk(s, Step(s, c, rank).value, rank);
      }
    }
  }

  // ---------------------------------------------------------------------- all runs

  lemma {:induction false} AlwaysGood(run: Run, rank: Rank)
    requires Injective(rank)
    ensures Good(After(run, rank), rank)
  {
    if run.Then? {
      AlwaysGood(run.earlier, rank);
      StepKeeps(After(run.earlier, rank), run.command, rank);
    }
  }

  /** No command of any run ever reports tables that contradict each other. */
  lemma NeverInconsistent(run: Run, c: Command, rank: Rank)
    requires Injective(rank)
    ensures Step(After(run, rank), c, rank).Err? ==> Explained(Step(After(run, rank), c, rank).error)
  {
    AlwaysGood(run, rank);
    StepKeeps(After(run, rank), c, rank);
  }

  /** The newest roster's active certificates are exactly the stored certificates of the approved devices. */
  lemma ActiveIsApproved(run: Run, id: nat, c: SignedCertificate, rank: Rank)
    requires Injective(rank) && id in After(run, rank).workspaces
    ensures var w := After(run, rank).workspaces[id];
            c in Active(w) <==>
            exists x :: x in w.devices && w.devices[x].status == Approved && w.devices[x].certificate == Some(c)
  {
    AlwaysGood(run, rank);
    var w := After(run, rank).workspaces[id];
    if x :| x in w.devices && w.devices[x].status == Approved && w.devices[x].certificate == Some(c) {
      assert DeviceOk(id, w, x, w.devices[x]);
      ApprovedActive(id, w, x);
    }
    if c in Active(w) { assert w.devices[c.certificate.device].certificate == Some(c); }
  }

  lemma ChainAt(id: nat, w: Tables, i: nat, rank: Rank)
    requires ChainOk(id, w, rank) && KeysOk(id, w) && i < |w.rosters|
    ensures var s := w.rosters[i];
            && s.roster.workspace == id && s.roster.epoch == i + 1
            && (i == 0 <==> s.roster.previousDigest == ZeroRoster)
            && (i > 0 ==> s.roster.previousDigest == DigestOf(w.rosters[i - 1].roster))
            && SignedRosterValid(s, KeyAt(w.transitions, w.authorityKey, i + 1), rank)
            && (i == |w.rosters| - 1 ==> SignedRosterValid(s, w.authorityKey, rank))
  {
    assert RosterLinked(id, w, i, rank);
    if i > 0 { assert RosterLinked(id, w, i - 1, rank); }
    if i == |w.rosters| - 1 { KeyAtLatest(id, w, |w.rosters|); }
  }

  /**
   The roster chain: contiguous from epoch 1, linked by digests with zero only at the start,
   each roster valid under the key the transitions give for its epoch, and the newest one
   readable under the current key.
   */
  lemma ChainHolds(run: Run, id: nat, i: nat, rank: Rank)
    requires Injective(rank) && id in After(run, rank).workspaces && i < |After(run, rank).workspaces[id].rosters|
    ensures var w := After(run, rank).workspaces[id];
            var s := w.rosters[i];
            && s.roster.workspace == id && s.roster.epoch == i + 1
            && (i == 0 <==> s.roster.previousDigest == ZeroRoster)
            && (i > 0 ==> s.roster.previousDigest == DigestOf(w.rosters[i - 1].roster))
            && SignedRosterValid(s, KeyAt(w.transitions, w.authorityKey, i + 1), rank)
            && (i == |w.rosters| - 1 ==> SignedRosterValid(s, w.authorityKey, rank))
  {
    AlwaysGood(run, rank);
    ChainAt(id, After(run, rank).workspaces[id], i, rank);
  }

  predicate KeptOver(w: Tables, n: Tables) {
    && w.rosters <= n.rosters
    && (forall x | x in w.devices :: x in n.devices && Since(w.devices[x], n.devices[x]))
  }

  predicate Reaches(o: Status, d: Status) {
    || d == o || d == Revoked || (o != Revoked && d == Approved) || (o == PendingProof && d == PendingApproval)
  }

  predicate Since(o: Device, d: Device) {
    Reaches(o.status, d.status) && (o.status == Revoked ==> d == o) && o.credentialVersion <= d.credentialVersion
  }

  lemma KeptTransitive(w: Tables, m: Tables, n: Tables)
    requires KeptOver(w, m) && Kept(m, n)
    ensures KeptOver(w, n)
  {
    forall x | x in w.devices ensures x in n.devices && Since(w.devices[x], n.devices[x]) {
      assert Since(w.devices[x], m.devices[x]) && RowStep(m.devices[x], n.devices[x]);
    }
  }

  /** Rosters are only appended, rows are never dropped, and a device only moves forward. */
  lemma {:induction false} OnlyForward(a: Run, b: Run, id: nat, rank: Rank)
    requires Injective(rank) && Within(a, b) && id in After(a, rank).workspaces
    ensures id in After(b, rank).workspaces
    ensures KeptOver(After(a, rank).workspaces[id], After(b, rank).workspaces[id])
  {
    if a != b {
      OnlyForward(a, b.earlier, id, rank);
      AlwaysGood(b.earlier, rank);
      StepKeeps(After(b.earlier, rank), b.command, rank);
      var w, m := After(a, rank).workspaces[id], After(b.earlier, rank).workspaces[id];
      if Succeeded(b, rank) { KeptTransitive(w, m, After(b, rank).workspaces[id]); }
    }
  }

  // -------------------------------------------------- what a call on a run comes to

  /** Every call leaves the store sound, and a refusal never reports contradicting tables. */
  lemma CallKeeps(run: Run, c: Command, rank: Rank)
    requires Injective(rank)
    ensures Good(After(Then(run, c), rank), rank)
    ensures Step(After(run, rank), c, rank).Err? ==> Explained(Step(After(run, rank), c, rank).error)
  {
    AlwaysGood(Then(run, c), rank);
    NeverInconsistent(run, c, rank);
  }

  lemma ApproveOutcome(run: Run, id: nat, x: nat, roles: seq<int>, key: Key, now: Instant, rank: Rank)
    requires Injective(rank)
    ensures var s := After(run, rank);
            Step(s, ApproveDevice(id, x, roles, key, now), rank).Ok? <==>
            id in s.workspaces && ApproveAllowed(s.workspaces[id], id, x, roles, key, Millis(now))
  {
    hide Approve, ApproveAllowed, Sound;
    AlwaysGood(run, rank);
    var s := After(run, rank);
    if id in s.workspaces { ApproveExact(id, s.workspaces[id], x, roles, key, Millis(now), rank); }
  }

  lemma RenameOutcome(run: Run, id: nat, x: nat, name: string, key: Key, now: Instant, rank: Rank)
    requires Injective(rank)
    ensures var s := After(run, rank);
            Step(s, RenameDevice(id, x, name, key, now), rank).Ok? <==>
            id in s.workspaces && RenameAllowed(s.workspaces[id], x, name, key, Millis(now))
  {
    hide Rename, RenameAllowed, Sound;
    AlwaysGood(run, rank);
    var s := After(run, rank);
    if id in s.workspaces { RenameExact(id, s.workspaces[id], x, name, key, Millis(now), rank); }
  }

  /** A device can be revoked unless it is certified and the roster transaction is not allowed. */
  predicate RevokeOpen(w: Tables, x: nat, key: Key, now: int) {
    x in w.devices && (w.devices[x].status == Approved ==> RevokeAllowed(w, x, key, now))
  }

  lemma RevokeOutcome(run: Run, id: nat, x: nat, key: Key, now: Instant, rank: Rank)
    requires Injective(rank)
    ensures var s := After(run, rank);
            Step(s, RevokeDevice(id, x, key, now), rank).Ok? <==>
            id in s.workspaces && RevokeOpen(s.workspaces[id], x, key, Millis(now))
  {
    hide Revoke, RevokeAllowed, Sound;
    AlwaysGood(run, rank);
    var s := After(run, rank);
    if id in s.workspaces { RevokeExact(id, s.workspaces[id], x, key, Millis(now), rank); }
  }

  /** A device that could be revoked is revoked, and the tables change exactly when it was not before. */
  lemma RevokeLeavesRevoked(run: Run, id: nat, x: nat, key: Key, now: Instant, rank: Rank)
    requires Injective(rank)
    ensures var s := After(run, rank);
            var r := Step(s, RevokeDevice(id, x, key, now), rank);
            r.Ok? ==>
              && Exists(s, id, x) && Exists(r.value, id, x) && Row(r.value, id, x).status == Revoked
              && (r.value != s <==> Row(s, id, x).revokedAt.None?)
  {
    hide Revoke, RevokeAllowed, ChainOk, KeysOk, ActiveOk, RevokedOk, GrowsOk, PermanentOk;
    AlwaysGood(run, rank);
    var s := After(run, rank);
    if id in s.workspaces {
      RevokeExact(id, s.workspaces[id], x, key, Millis(now), rank);
      if Exists(s, id, x) { assert DeviceOk(id, s.workspaces[id], x, Row(s, id, x)); }
    }
  }

  lemma RotateOutcome(run: Run, id: nat, key: Key, newKey: Key, now: Instant, rank: Rank)
    requires Injective(rank)
    ensures var s := After(run, rank);
            Step(s, RotateAuthority(id, key, newKey, now), rank).Ok? <==>
            id in s.workspaces && RotateAllowed(s.workspaces[id], key, newKey, Millis(now))
  {
    var s := After(run, rank);
    assert now == ZERO_INSTANT ==> !Timestamp(Millis(now));
    assert now == ZERO_INSTANT && id in s.workspaces ==> !RotateAllowed(s.workspaces[id], key, newKey, Millis(now));
    hide Rotate, RotateAllowed, Sound;
    AlwaysGood(run, rank);
    if id in s.workspaces { RotateExact(id, s.workspaces[id], key, newKey, Millis(now), rank); }
  }

  // --------------------------------------------------------- what a call reports

  /** The newest roster lists the device's certificate, one roster further than before. */
  predicate Publishes(w: Tables, n: Tables, x: nat) {
    && |n.rosters| == |w.rosters| + 1
    && n.rosters[|w.rosters|].roster.epoch == |n.rosters|
    && n.rosters[|w.rosters|].digest == DigestOf(n.rosters[|w.rosters|].roster)
    && x in n.devices && n.devices[x].certificate.Some?
    && n.devices[x].certificateId == Some(n.devices[x].certificate.value.id)
    && n.devices[x].certificate.value in Active(n)
  }

  lemma NewestPublishes(id: nat, w: Tables, n: Tables, x: nat, rank: Rank)
    requires Sound(id, n, rank) && |n.rosters| == |w.rosters| + 1 && x in n.devices && n.devices[x].status == Approved
    ensures Publishes(w, n, x)
  {
    ApprovedCertificate(id, n, x, rank);
    LatestValid(id, n, rank);
  }

  lemma ApprovePublishes(run: Run, id: nat, x: nat, roles: seq<int>, key: Key, now: Instant, rank: Rank)
    requires Injective(rank)
    ensures var s := After(run, rank);
            var r := Step(s, ApproveDevice(id, x, roles, key, now), rank);
            r.Ok? ==> id in s.workspaces && id in r.value.workspaces && x in s.workspaces[id].devices
                      && Publishes(s.workspaces[id], r.value.workspaces[id], x)
                      && Grants(r.value.workspaces[id], x, s.workspaces[id].devices[x].name, roles, Millis(now))
  {
    hide Grants, Approve, ChainOk, KeysOk, DevicesOk, ActiveOk, RevokedOk, GrowsOk, PermanentOk;
    var s, c := After(run, rank), ApproveDevice(id, x, roles, key, now);
    AlwaysGood(run, rank);
    AlwaysGood(Then(run, c), rank);
    if Step(s, c, rank).Ok? {
      ApproveExact(id, s.workspaces[id], x, roles, key, Millis(now), rank);
      NewestPublishes(id, s.workspaces[id], Step(s, c, rank).value.workspaces[id], x, rank);
    }
  }

  lemma RenamePublishes(run: Run, id: nat, x: nat, name: string, key: Key, now: Instant, rank: Rank)
    requires Injective(rank)
    ensures var s := After(run, rank);
            var r := Step(s, RenameDevice(id, x, name, key, now), rank);
            r.Ok? ==> id in s.workspaces && id in r.value.workspaces
                      && Publishes(s.workspaces[id], r.value.workspaces[id], x)
                      && Exists(s, id, x) && Row(s, id, x).certificate.Some?
                      && Grants(r.value.workspaces[id], x, name, Row(s, id, x).certificate.value.certificate.roles,
                                Millis(now))
  {
    hide Grants, Rename, ChainOk, KeysOk, DevicesOk, ActiveOk, RevokedOk, GrowsOk, PermanentOk;
    var s, c := After(run, rank), RenameDevice(id, x, name, key, now);
    AlwaysGood(run, rank);
    AlwaysGood(Then(run, c), rank);
    if Step(s, c, rank).Ok? {
      RenameExact(id, s.workspaces[id], x, name, key, Millis(now), rank);
      NewestPublishes(id, s.workspaces[id], Step(s, c, rank).value.workspaces[id], x, rank);
    }
  }

  /** A certified device's revocation is in the next roster, with its time; any other leaves the rosters alone. */
  predicate Revokes(w: Tables, n: Tables, x: nat, now: int) {
    && x in w.devices && x in n.devices
    && (w.devices[x].status != Revoked ==> n.devices[x].revokedAt == Some(now))
    && if w.devices[x].status == Approved then
         && |n.rosters| == |w.rosters| + 1
         && n.rosters[|w.rosters|].roster.epoch == |n.rosters|
         && n.rosters[|w.rosters|].digest == DigestOf(n.rosters[|w.rosters|].roster)
         && w.devices[x].certificate.Some?
         && Revocation(w.devices[x].certificate.value.id, x, now) in Revocations(n)
       else n.rosters == w.rosters
  }

  lemma RevokedTablesRevoke(id: nat, w: Tables, x: nat, now: int, rank: Rank)
    requires x in w.devices && w.devices[x].status == Approved && w.devices[x].certificate.Some?
    requires TakeOut(Active(w), x, w.devices[x].certificate.value).Ok?
    ensures Revokes(w, RevokedTables(w, id, x, now, rank), x, now)
  {
  }

  lemma RevokePublishes(run: Run, id: nat, x: nat, key: Key, now: Instant, rank: Rank)
    requires Injective(rank)
    ensures var s := After(run, rank);
            var r := Step(s, RevokeDevice(id, x, key, now), rank);
            r.Ok? ==> id in s.workspaces && id in r.value.workspaces
                      && Revokes(s.workspaces[id], r.value.workspaces[id], x, Millis(now))
  {
    hide Revoke, RevokedTables, ChainOk, KeysOk, DevicesOk, ActiveOk, RevokedOk, GrowsOk, PermanentOk;
    var s := After(run, rank);
    AlwaysGood(run, rank);
    if Step(s, RevokeDevice(id, x, key, now), rank).Ok? {
      var w := s.workspaces[id];
      RevokeExact(id, w, x, key, Millis(now), rank);
      if w.devices[x].status == Approved { RevokedTablesRevoke(id, w, x, Millis(now), rank); }
    }
  }
}
