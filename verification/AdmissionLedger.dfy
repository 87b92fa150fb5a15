/**
 The store refines a ledger. A device's story is told from the commands that succeeded, one after
 the other and without rosters, lists or loops; every row of the store is exactly what its story says.
 */
module AdmissionLedger {
  import opened Base
  import opened Membership
  import opened Workspace
  import opened WorkspaceOps
  import opened AuthorityRotation
  import opened Admission
  import opened AdmissionLaws
  import opened AdmissionRuns
  import opened AdmissionHistory

  /** What the device's certificate says that its record does not. */
  datatype Certification = Certification(roles: seq<int>, issuedAt: int, epoch: int, key: Key)

  datatype Story = Story(
    deviceType: DeviceType,
    name: string,
    identityKey: nat,
    token: nat,
    version: int,
    status: Status,
    challenge: Challenge,
    provedAt: Option<int>,
    certified: Option<Certification>,
    revokedAt: Option<int>,
    revokedEpoch: Option<int>)

  // ------------------------------------------------------------------ telling a story

  /** The command is about this one device. */
  predicate Targets(c: Command, id: nat, x: nat) {
    && (c.CompleteProof? || c.ApproveDevice? || c.RenameDevice? || c.RevokeDevice? || c.RotateCredential?)
    && c.workspace == id && c.device == x
  }

  /** The certificate is issued again: the roles stay. */
  function Again(st: Story, now: int, epoch: int, key: Key): Story {
    if st.certified.None? then st
    else st.(certified := Some(Certification(st.certified.value.roles, now, epoch, key)))
  }

  function Told(st: Story, c: Command, epoch: int): Story {
    match c
    case CompleteProof(_, _, _, _, _, now) => st.(status := PendingApproval, provedAt := Some(Millis(now)))
    case ApproveDevice(_, _, roles, key, now) =>
      st.(status := Approved, certified := Some(Certification(roles, Millis(now), epoch, key)))
    case RenameDevice(_, _, name, key, now) => Again(st, Millis(now), epoch, key).(name := name)
    case RevokeDevice(_, _, _, now) =>
      if st.status == Revoked then st
      else st.(status := Revoked, revokedAt := Some(Millis(now)),
               revokedEpoch := if st.status == Approved then Some(epoch) else None)
    case RotateCredential(_, _, _, _, newToken, _) => st.(token := newToken, version := st.version + 1)
    case _ => st
  }

  /** The story after a successful command that leaves the workspace with this many rosters. */
  function Continued(st: Option<Story>, c: Command, registers: bool, epoch: int, id: nat, x: nat): Option<Story> {
    if registers && c.RegisterPending? && c.identityKey.Some? && c.challenge.Some? then
      Some(Story(c.deviceType, c.name, c.identityKey.value, c.token, 1, PendingProof, c.challenge.value, None, None,
                 None, None))
    else if st.None? then None
    else if c.RotateAuthority? && c.workspace == id && st.value.status == Approved then
      Some(Again(st.value, Millis(c.now), epoch, c.newKey))
    else if Targets(c, id, x) then Some(Told(st.value, c, epoch))
    else st
  }

  /** A command that publishes a roster: revoking does for a certified device only. */
  predicate Publishing(c: Command, id: nat, revoked: Option<Story>) {
    || ((c.ApproveDevice? || c.RenameDevice? || c.RotateAuthority?) && c.workspace == id)
    || (c.RevokeDevice? && c.workspace == id && revoked.Some? && revoked.value.status == Approved)
  }

  /** The story of the device a revocation is about. */
  function Target(run: Run, c: Command, id: nat, rank: Rank): Option<Story>
    decreases run, 2
  {
    if c.RevokeDevice? then StoryOf(run, id, c.device, rank) else None
  }

  /** The rosters published for the workspace. */
  function Published(run: Run, id: nat, rank: Rank): nat
    decreases run, 0
  {
    if run.Start? then 0
    else
      var before := Published(run.earlier, id, rank);
      if Succeeded(run, rank) && Publishing(run.command, id, Target(run.earlier, run.command, id, rank)) then before + 1
      else before
  }

  function StoryOf(run: Run, id: nat, x: nat, rank: Rank): Option<Story>
    decreases run, 1
  {
    if run.Start? then None
    else
      var before := StoryOf(run.earlier, id, x, rank);
      if !Succeeded(run, rank) then before
      else Continued(before, run.command, Registers(After(run.earlier, rank), run.command, id, x),
                     Published(run, id, rank), id, x)
  }

  // ---------------------------------------------------------------- what a row holds

  function CertificateOf(st: Story, id: nat, x: nat): SignedCertificate
    requires st.certified.Some?
  {
    var k := st.certified.value;
    SignCertificate(Certificate(id, x, st.deviceType, st.name, k.roles, st.identityKey, k.issuedAt, 0, k.epoch), k.key)
  }

  /** The row: the challenge is kept until its secret is proved and its device approved. */
  function RowOf(st: Story, id: nat, x: nat): Device {
    Device(st.deviceType, st.name, Hash(st.token), st.identityKey, st.status,
           if st.certified.Some? then None else Some(st.challenge.digest),
           if st.provedAt.Some? then None else Some(Hash(st.challenge.secret)),
           if st.certified.Some? then None else Some(Millis(st.challenge.expiresAt)),
           st.provedAt,
           if st.certified.Some? then Some(CertificateOf(st, id, x).id) else None,
           if st.certified.Some? then Some(CertificateOf(st, id, x)) else None,
           st.revokedAt, st.revokedEpoch, st.version)
  }

  predicate Recorded(s: State, st: Option<Story>, id: nat, x: nat) {
    && (Exists(s, id, x) <==> st.Some?)
    && (st.Some? ==> Row(s, id, x) == RowOf(st.value, id, x))
  }

  function Rosters(s: State, id: nat): nat {
    if id in s.workspaces then |s.workspaces[id].rosters| else 0
  }

  // ------------------------------------------------- what the transactions do to a row

  /** The row with a certificate in it. */
  function Holding(d: Device, c: SignedCertificate): Device {
    d.(certificateId := Some(c.id), certificate := Some(c))
  }

  /** An approval certifies the record as it stands, with the roles and the time asked for. */
  lemma ApproveRow(id: nat, w: Tables, x: nat, roles: seq<int>, key: Key, now: int, rank: Rank)
    requires Sound(id, w, rank) && Approve(w, id, x, roles, key, now, rank).Ok?
    ensures var n := Approve(w, id, x, roles, key, now, rank).value;
            && x in w.devices && |n.rosters| == |w.rosters| + 1
            && var d := w.devices[x];
               var c := Certificate(id, x, d.deviceType, d.name, roles, d.identityKey, now, 0, |w.rosters| + 1);
               && d.status == PendingApproval && d.certificate.None?
               && n.devices == w.devices[x := Holding(d, SignCertificate(c, key))
                                                .(status := Approved, challengeDigest := None, proofExpiresAt := None)]
  {
    hide Approve, ChainOk, KeysOk, ActiveOk, RevokedOk, GrowsOk, PermanentOk;
    ApproveExact(id, w, x, roles, key, now, rank);
    assert DeviceOk(id, w, x, w.devices[x]);
  }

  /** A rename changes the name, the issue time and the epoch of the certificate, and the name of the record. */
  lemma RenameRow(id: nat, w: Tables, x: nat, name: string, key: Key, now: int, rank: Rank)
    requires Sound(id, w, rank) && Rename(w, id, x, name, key, now, rank).Ok?
    ensures var n := Rename(w, id, x, name, key, now, rank).value;
            && x in w.devices && |n.rosters| == |w.rosters| + 1
            && var d := w.devices[x];
               && d.status == Approved && d.certificate.Some?
               && var c := d.certificate.value.certificate
                           .(displayName := name, issuedAt := now, membershipEpoch := |w.rosters| + 1);
                  n.devices == w.devices[x := Holding(d, SignCertificate(c, key)).(name := name)]
  {
    hide Rename, ChainOk, KeysOk, ActiveOk, RevokedOk, GrowsOk, PermanentOk;
    RenameExact(id, w, x, name, key, now, rank);
  }

  /** A revocation closes the record and leaves its certificate in place. */
  lemma RevokeRow(id: nat, w: Tables, x: nat, key: Key, now: int, rank: Rank)
    requires Sound(id, w, rank) && Revoke(w, id, x, key, now, rank).Ok?
    ensures var n := Revoke(w, id, x, key, now, rank).value;
            && x in w.devices
            && var d := w.devices[x];
               && |n.rosters| == |w.rosters| + (if d.status == Approved then 1 else 0)
               && if d.status == Revoked then n == w
                  else n.devices == w.devices[x := d.(status := Revoked, revokedAt := Some(now), revokedEpoch :=
                                                      if d.status == Approved then Some(|n.rosters|) else None)]
  {
    hide Revoke, ChainOk, KeysOk, ActiveOk, RevokedOk, GrowsOk, PermanentOk;
    RevokeExact(id, w, x, key, now, rank);
    assert x in w.devices ==> DeviceOk(id, w, x, w.devices[x]);
  }

  /** A rotation adds no row and drops none. */
  lemma RotateKeys(id: nat, w: Tables, key: Key, newKey: Key, now: int, rank: Rank)
    requires Sound(id, w, rank) && Rotate(w, id, key, newKey, now, rank).Ok?
    ensures var n := Rotate(w, id, key, newKey, now, rank).value;
            |n.rosters| == |w.rosters| + 1 && n.devices.Keys == w.devices.Keys
  {
    RotateExact(id, w, key, newKey, now, rank);
    RotateReady(id, w, newKey, now, rank);
  }

  /** A rotation issues the certificates of all approved devices again, and touches no other row. */
  lemma RotateRow(id: nat, w: Tables, x: nat, key: Key, newKey: Key, now: int, rank: Rank)
    requires Sound(id, w, rank) && Rotate(w, id, key, newKey, now, rank).Ok? && x in w.devices
    ensures var n := Rotate(w, id, key, newKey, now, rank).value;
            && |n.rosters| == |w.rosters| + 1 && n.devices.Keys == w.devices.Keys
            && var d := w.devices[x];
               if d.status != Approved then n.devices[x] == d
               else
                 && d.certificate.Some?
                 && var c := d.certificate.value.certificate.(issuedAt := now, membershipEpoch := |w.rosters| + 1);
                    n.devices[x] == Holding(d, SignCertificate(c, newKey))
  {
    RotateExact(id, w, key, newKey, now, rank);
    RotateReady(id, w, newKey, now, rank);
    var d := w.devices[x];
    assert DeviceOk(id, w, x, d);
    if d.status == Approved {
      ApprovedActive(id, w, x);
      assert Renewed(w.devices, Rotate(w, id, key, newKey, now, rank).value.devices, d.certificate.value, newKey,
                     |w.rosters| + 1, now);
    } else {
      assert forall c | c in Active(w) :: c.certificate.device != x;
    }
  }

  // --------------------------------------------------------- every command keeps it

  /** The story after the command fits the row after it. */
  predicate Follows(s: State, c: Command, n: State, st: Option<Story>, id: nat, x: nat) {
    Recorded(n, Continued(st, c, Registers(s, c, id, x), Rosters(n, id), id, x), id, x)
  }

  lemma ApproveFollows(s: State, c: Command, st: Option<Story>, id: nat, x: nat, rank: Rank)
    requires Good(s, rank) && Recorded(s, st, id, x) && c.ApproveDevice? && Step(s, c, rank).Ok?
    ensures Follows(s, c, Step(s, c, rank).value, st, id, x)
  {
    hide Approve, Sound, Listed;
    ApproveRow(c.workspace, s.workspaces[c.workspace], c.device, c.roles, c.key, Millis(c.now), rank);
  }

  lemma RenameFollows(s: State, c: Command, st: Option<Story>, id: nat, x: nat, rank: Rank)
    requires Good(s, rank) && Recorded(s, st, id, x) && c.RenameDevice? && Step(s, c, rank).Ok?
    ensures Follows(s, c, Step(s, c, rank).value, st, id, x)
  {
    hide Rename, Sound, Listed;
    RenameRow(c.workspace, s.workspaces[c.workspace], c.device, c.name, c.key, Millis(c.now), rank);
  }

  lemma RevokeFollows(s: State, c: Command, st: Option<Story>, id: nat, x: nat, rank: Rank)
    requires Good(s, rank) && Recorded(s, st, id, x) && c.RevokeDevice? && Step(s, c, rank).Ok?
    ensures Follows(s, c, Step(s, c, rank).value, st, id, x)
  {
    hide Revoke, Sound, Listed;
    RevokeRow(c.workspace, s.workspaces[c.workspace], c.device, c.key, Millis(c.now), rank);
  }

  lemma RotateFollows(s: State, c: Command, st: Option<Story>, id: nat, x: nat, rank: Rank)
    requires Good(s, rank) && Recorded(s, st, id, x) && c.RotateAuthority? && Step(s, c, rank).Ok?
    ensures Follows(s, c, Step(s, c, rank).value, st, id, x)
  {
    hide Rotate, Sound, Listed;
    if c.workspace == id {
      if x in s.workspaces[id].devices {
        RotateRow(id, s.workspaces[id], x, c.key, c.newKey, Millis(c.now), rank);
      } else {
        RotateKeys(id, s.workspaces[id], c.key, c.newKey, Millis(c.now), rank);
      }
    }
  }

  lemma RegisterFollows(s: State, c: Command, st: Option<Story>, id: nat, x: nat, rank: Rank)
    requires Recorded(s, st, id, x) && c.RegisterPending? && Step(s, c, rank).Ok?
    ensures Follows(s, c, Step(s, c, rank).value, st, id, x)
  {
    hide TokenTaken, ValidName, ChallengeOk;
  }

  lemma RowFollows(s: State, c: Command, st: Option<Story>, id: nat, x: nat, rank: Rank)
    requires Recorded(s, st, id, x) && (c.CompleteProof? || c.RotateCredential?) && Step(s, c, rank).Ok?
    ensures Follows(s, c, Step(s, c, rank).value, st, id, x)
  {
    hide TokenTaken, Usable;
  }

  lemma CodeFollows(s: State, c: Command, st: Option<Story>, id: nat, x: nat, rank: Rank)
    requires Recorded(s, st, id, x) && (c.CreateWorkspace? || c.IssuePairingCode? || c.IssueRotationCode?)
    requires Step(s, c, rank).Ok?
    ensures Follows(s, c, Step(s, c, rank).value, st, id, x)
  {
    hide ValidName;
  }

  lemma StepFollows(s: State, c: Command, st: Option<Story>, id: nat, x: nat, rank: Rank)
    requires Good(s, rank) && Recorded(s, st, id, x) && Step(s, c, rank).Ok?
    ensures Follows(s, c, Step(s, c, rank).value, st, id, x)
  {
    hide Follows, Recorded, Step;
    if c.ApproveDevice? {
      ApproveFollows(s, c, st, id, x, rank);
    } else if c.RenameDevice? {
      RenameFollows(s, c, st, id, x, rank);
    } else if c.RevokeDevice? {
      RevokeFollows(s, c, st, id, x, rank);
    } else if c.RotateAuthority? {
      RotateFollows(s, c, st, id, x, rank);
    } else if c.RegisterPending? {
      RegisterFollows(s, c, st, id, x, rank);
    } else if c.CompleteProof? || c.RotateCredential? {
      RowFollows(s, c, st, id, x, rank);
    } else {
      CodeFollows(s, c, st, id, x, rank);
    }
  }

  /** A transaction on one workspace leaves the others alone, and the other commands leave all rosters alone. */
  lemma OthersPublishNothing(s: State, c: Command, id: nat, rank: Rank)
    requires Step(s, c, rank).Ok? && !(IsMembership(c) && c.workspace == id)
    ensures Rosters(Step(s, c, rank).value, id) == Rosters(s, id)
  {
    hide Approve, Rename, Revoke, Rotate, Redeemable, Usable, Proves, TokenTaken, ValidName;
  }

  lemma MembershipPublishes(s: State, c: Command, id: nat, revoked: Option<Story>, rank: Rank)
    requires Good(s, rank) && Step(s, c, rank).Ok? && IsMembership(c) && c.workspace == id
    requires c.RevokeDevice? ==> Recorded(s, revoked, id, c.device)
    ensures Rosters(Step(s, c, rank).value, id) == Rosters(s, id) + if Publishing(c, id, revoked) then 1 else 0
  {
    hide Approve, Rename, Revoke, Rotate, Sound, Listed;
    var w, now := s.workspaces[id], Millis(c.now);
    if c.ApproveDevice? {
      ApproveRow(id, w, c.device, c.roles, c.key, now, rank);
    } else if c.RenameDevice? {
      RenameRow(id, w, c.device, c.name, c.key, now, rank);
    } else if c.RevokeDevice? {
      RevokeRow(id, w, c.device, c.key, now, rank);
    } else {
      RotateKeys(id, w, c.key, c.newKey, now, rank);
    }
  }

  /** Each publishing command adds one roster to its own workspace; nothing else adds or drops any. */
  lemma StepPublishes(s: State, c: Command, id: nat, revoked: Option<Story>, rank: Rank)
    requires Good(s, rank) && Step(s, c, rank).Ok? && (c.RevokeDevice? ==> Recorded(s, revoked, id, c.device))
    ensures Rosters(Step(s, c, rank).value, id) == Rosters(s, id) + if Publishing(c, id, revoked) then 1 else 0
  {
    hide Step, Good, Recorded, Rosters;
    if IsMembership(c) && c.workspace == id {
      MembershipPublishes(s, c, id, revoked, rank);
    } else {
      OthersPublishNothing(s, c, id, rank);
    }
  }

  // ---------------------------------------------------------------------- all runs

  /** The store after the run holds what the ledger of the run says. */
  predicate Agrees(run: Run, id: nat, x: nat, rank: Rank) {
    && Recorded(After(run, rank), StoryOf(run, id, x, rank), id, x)
    && Rosters(After(run, rank), id) == Published(run, id, rank)
  }

  lemma AgreesStep(run: Run, id: nat, x: nat, rank: Rank)
    requires Succeeded(run, rank) && Good(After(run.earlier, rank), rank) && Agrees(run.earlier, id, x, rank)
    requires run.command.RevokeDevice? ==> Agrees(run.earlier, id, run.command.device, rank)
    ensures Agrees(run, id, x, rank)
  {
    var s, c := After(run.earlier, rank), run.command;
    hide Step, Good, Recorded, Publishing, Rosters, Continued, Registers;
    StepPublishes(s, c, id, Target(run.earlier, c, id, rank), rank);
    StepFollows(s, c, StoryOf(run.earlier, id, x, rank), id, x, rank);
  }

  /**
   In every run every row is exactly what the device's story says - name, token, roles, issue time,
   epoch, signing key, revocation - and a workspace has as many rosters as publishing commands.
   */
  lemma {:induction false} LedgerHolds(run: Run, id: nat, x: nat, rank: Rank)
    requires Injective(rank)
    ensures Recorded(After(run, rank), StoryOf(run, id, x, rank), id, x)
    ensures Rosters(After(run, rank), id) == Published(run, id, rank)
  {
    if run.Then? {
      LedgerHolds(run.earlier, id, x, rank);
      if run.command.RevokeDevice? { LedgerHolds(run.earlier, id, run.command.device, rank); }
      AlwaysGood(run.earlier, rank);
      hide Step, Good, Recorded, Publishing, Rosters, Continued, Registers;
      if Succeeded(run, rank) { AgreesStep(run, id, x, rank); }
    }
  }
}
