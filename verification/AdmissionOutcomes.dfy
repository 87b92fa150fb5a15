/**
 When the admission commands succeed, over every run and in terms of the commands before them:
 what a device's token and roles are, whom a token authenticates, and which codes can be used.
 */
module AdmissionOutcomes {
  import opened Base
  import opened Membership
  import opened Workspace
  import opened WorkspaceOps
  import opened AuthorityRotation
  import opened Admission
  import opened AdmissionRuns
  import opened AdmissionHistory
  import opened AdmissionCredentials
  import opened AdmissionLedger
  import opened AdmissionTheorems

  // ------------------------------------------------------------------ roles and approvals

  /** The approvals of the device that succeeded. */
  function Approvals(run: Run, id: nat, x: nat, rank: Rank): seq<Command> {
    if run.Start? then []
    else
      var before := Approvals(run.earlier, id, x, rank);
      var c := run.command;
      if Succeeded(run, rank) && c.ApproveDevice? && c.workspace == id && c.device == x then before + [c] else before
  }

  /** A device is certified by one approval, and its certificate names that approval's roles. */
  predicate RolesOf(st: Option<Story>, approvals: seq<Command>) {
    if st.None? || st.value.certified.None? then approvals == []
    else |approvals| == 1 && approvals[0].ApproveDevice? && st.value.certified.value.roles == approvals[0].roles
  }

  lemma RolesContinue(st: Option<Story>, approvals: seq<Command>, c: Command, registers: bool, epoch: int, id: nat,
                      x: nat)
    requires RolesOf(st, approvals) && (registers ==> st.None? && c.RegisterPending?)
    requires c.ApproveDevice? && Targets(c, id, x) ==> st.Some? && st.value.certified.None?
    ensures RolesOf(Continued(st, c, registers, epoch, id, x),
                    if c.ApproveDevice? && Targets(c, id, x) then approvals + [c] else approvals)
  {
  }

  lemma {:induction false} RolesTold(run: Run, id: nat, x: nat, rank: Rank)
    requires Injective(rank)
    ensures RolesOf(StoryOf(run, id, x, rank), Approvals(run, id, x, rank))
  {
    if run.Then? {
      RolesTold(run.earlier, id, x, rank);
      if Succeeded(run, rank) {
        LedgerHolds(run.earlier, id, x, rank);
        AlwaysGood(run.earlier, rank);
        var s, c, st := After(run.earlier, rank), run.command, StoryOf(run.earlier, id, x, rank);
        StepEffect(s, c, id, x, rank);
        if c.ApproveDevice? && Targets(c, id, x) {
          ApproveRow(id, s.workspaces[id], x, c.roles, c.key, Millis(c.now), rank);
        }
        hide Continued, RolesOf, Step, Good, Published;
        RolesContinue(st, Approvals(run.earlier, id, x, rank), c, Registers(s, c, id, x), Published(run, id, rank), id,
                      x);
      }
    }
  }

  /**
   In every run a certified device, revoked or not, was approved exactly once, and its certificate
   carries the roles of that approval through all renames and rotations since.
   */
  lemma RolesOfTheApproval(run: Run, id: nat, x: nat, rank: Rank)
    requires Injective(rank) && Exists(After(run, rank), id, x)
    ensures var d, approvals := Row(After(run, rank), id, x), Approvals(run, id, x, rank);
            && (d.certificate.Some? <==> approvals != [])
            && (d.certificate.Some? ==>
                  && |approvals| == 1 && approvals[0].ApproveDevice?
                  && d.certificate.value.certificate.roles == approvals[0].roles)
  {
    RolesTold(run, id, x, rank);
    LedgerHolds(run, id, x, rank);
  }

  // ------------------------------------------------------------------------------ tokens

  /** The token of the device's last successful registration or credential rotation. */
  function TokenOf(run: Run, id: nat, x: nat, rank: Rank): Option<nat> {
    if run.Start? then None
    else if Succeeded(run, rank) && Registers(After(run.earlier, rank), run.command, id, x) then
      Some(run.command.token)
    else if Succeeded(run, rank) && IsTokenRotation(run.command, id, x) then Some(run.command.newToken)
    else TokenOf(run.earlier, id, x, rank)
  }

  lemma {:induction false} TokenStored(run: Run, id: nat, x: nat, rank: Rank)
    requires Injective(rank)
    ensures Exists(After(run, rank), id, x) <==> TokenOf(run, id, x, rank).Some?
    ensures Exists(After(run, rank), id, x) ==>
              Row(After(run, rank), id, x).tokenHash == Hash(TokenOf(run, id, x, rank).value)
  {
    if run.Then? {
      TokenStored(run.earlier, id, x, rank);
      if Succeeded(run, rank) {
        AlwaysGood(run.earlier, rank);
        StepEffect(After(run.earlier, rank), run.command, id, x, rank);
      }
    }
  }

  /**
   Whom a token authenticates: in every run exactly the approved device whose last registration or
   rotation set that token, with one version more than its rotations.
   */
  lemma AuthenticateIff(run: Run, id: nat, x: nat, token: nat, version: int, rank: Rank)
    requires Injective(rank)
    ensures Authenticate(After(run, rank), id, x, token) == Some(version) <==>
            && Exists(After(run, rank), id, x) && Row(After(run, rank), id, x).status == Approved
            && TokenOf(run, id, x, rank) == Some(token)
            && version == 1 + Rotations(run, id, x, rank)
  {
    hide After, StoryOf, Rotations, TokenOf;
    TokenStored(run, id, x, rank);
    ApprovedIff(run, id, x, rank);
    AuthorizedIff(run, id, x, version, rank);
  }

  /** No device of any workspace has the token now. */
  ghost predicate TokenFree(run: Run, token: nat, rank: Rank) {
    forall id: nat, x: nat :: TokenOf(run, id, x, rank) != Some(token)
  }

  lemma TokenFreeIff(run: Run, token: nat, rank: Rank)
    requires Injective(rank)
    ensures TokenTaken(After(run, rank).workspaces, Hash(token)) <==> !TokenFree(run, token, rank)
  {
    var s := After(run, rank);
    if TokenTaken(s.workspaces, Hash(token)) {
      var id :| id in s.workspaces && HasToken(s.workspaces[id], Hash(token));
      var x :| x in s.workspaces[id].devices && s.workspaces[id].devices[x].tokenHash == Hash(token);
      TokenStored(run, id, x, rank);
      assert TokenOf(run, id, x, rank) == Some(token);
    }
    if !TokenFree(run, token, rank) {
      var id: nat, x: nat :| TokenOf(run, id, x, rank) == Some(token);
      TokenStored(run, id, x, rank);
      assert s.workspaces[id].devices[x].tokenHash == Hash(token);
      assert HasToken(s.workspaces[id], Hash(token));
    }
  }

  // -------------------------------------------------------------------------- workspaces

  /** The key and the epoch of the workspace's authority. */
  function AuthorityOf(run: Run, id: nat, rank: Rank): Option<(Key, int)> {
    if run.Start? then None
    else
      var before, c := AuthorityOf(run.earlier, id, rank), run.command;
      if !Succeeded(run, rank) then before
      else if c.CreateWorkspace? && c.workspace == id then Some((c.key, 1))
      else if c.RotateAuthority? && c.workspace == id && before.Some? then Some((c.newKey, before.value.1 + 1))
      else before
  }

  predicate AuthorityStored(s: State, id: nat, a: Option<(Key, int)>) {
    && (id in s.workspaces <==> a.Some?)
    && (a.Some? ==> s.workspaces[id].authorityKey == a.value.0 && s.workspaces[id].authorityEpoch == a.value.1)
  }

  /** In every run the authority of a workspace is that of its last rotation, or the one it was created with. */
  lemma {:induction false} AuthorityHolds(run: Run, id: nat, rank: Rank)
    requires Injective(rank)
    ensures AuthorityStored(After(run, rank), id, AuthorityOf(run, id, rank))
  {
    if run.Then? {
      AuthorityHolds(run.earlier, id, rank);
      AlwaysGood(run.earlier, rank);
      var s, c := After(run.earlier, rank), run.command;
      if Succeeded(run, rank) {
        if c.RotateAuthority? && c.workspace == id {
          RotateExact(id, s.workspaces[id], c.key, c.newKey, Millis(c.now), rank);
        } else if id in s.workspaces {
          AuthorityStays(s, c, id, rank);
        } else {
          OnlyCreates(s, c, id, rank);
        }
      }
    }
  }

  lemma OnlyCreates(s: State, c: Command, id: nat, rank: Rank)
    requires id !in s.workspaces && Step(s, c, rank).Ok?
    ensures id in Step(s, c, rank).value.workspaces <==> c.CreateWorkspace? && c.workspace == id
    ensures c.CreateWorkspace? && c.workspace == id ==>
              Step(s, c, rank).value.workspaces[id] == Tables(c.key, 1, ZeroTransition, [], [], map[])
  {
  }

  /** A workspace is created once, under a key that is not zero. */
  predicate CreateOpen(run: Run, id: nat, key: Key, rank: Rank) {
    key != 0 && AuthorityOf(run, id, rank).None?
  }

  lemma {:induction false} CreateIff(run: Run, id: nat, key: Key, rank: Rank)
    requires Injective(rank)
    ensures var r := Step(After(run, rank), CreateWorkspace(id, key), rank);
            && (r.Ok? <==> CreateOpen(run, id, key, rank))
            && (r.Err? ==> r.error == if key == 0 then Refused(InvalidInput) else Conflict)
  {
    AuthorityHolds(run, id, rank);
  }

  // ------------------------------------------------------------------------------- codes

  const TEN_MINUTES: int := 600_000_000_000
  const ONE_DAY: int := 86_400_000_000_000

  /** A pairing code is issued once, for a workspace there is, for at most a day. */
  predicate IssuePairingOpen(run: Run, c: Command, rank: Rank)
    requires c.IssuePairingCode?
  {
    && c.deviceType != Unspecified && (c.boundName == "" || ValidName(c.boundName)) && 0 < c.ttl <= ONE_DAY
    && PairingIssuer(run, c.code, rank).None? && AuthorityOf(run, c.workspace, rank).Some?
  }

  lemma IssuePairingIff(run: Run, c: Command, rank: Rank)
    requires Injective(rank) && c.IssuePairingCode?
    ensures var r := Step(After(run, rank), c, rank);
            && (r.Ok? <==> IssuePairingOpen(run, c, rank))
            && (r.Err? ==> r.error == Conflict || r.error == Refused(InvalidInput))
            && (r == Err(Conflict) ==>
                  PairingIssuer(run, c.code, rank).Some? || AuthorityOf(run, c.workspace, rank).None?)
  {
    AuthorityHolds(run, c.workspace, rank);
    PairingCodesAsIssued(run, c.code, rank);
  }

  /** A pairing code as the commands tell it. */
  function PairingOf(run: Run, code: nat, rank: Rank): Option<PairingCode> {
    if run.Start? then None
    else
      var before, c := PairingOf(run.earlier, code, rank), run.command;
      if !Succeeded(run, rank) then before
      else if c.IssuePairingCode? && c.code == code then
        Some(PairingCode(c.workspace, c.deviceType, if c.boundName == "" then None else Some(c.boundName),
                         Millis(c.now + c.ttl), None))
      else if c.RegisterPending? && c.code == code && before.Some? then
        Some(before.value.(consumedAt := Some(Millis(c.now))))
      else before
  }

  /** A rotation code as the commands tell it. */
  function RotationOf(run: Run, code: nat, rank: Rank): Option<RotationCode> {
    if run.Start? then None
    else
      var before, c := RotationOf(run.earlier, code, rank), run.command;
      if !Succeeded(run, rank) then before
      else if c.IssueRotationCode? && c.code == code then
        Some(RotationCode(c.workspace, c.device, Millis(c.now + c.ttl), None))
      else if c.RotateCredential? && c.code == code && before.Some? then
        Some(before.value.(consumedAt := Some(Millis(c.now))))
      else before
  }

  function Entry<V>(codes: map<Hash, V>, code: nat): Option<V> {
    if Hash(code) in codes then Some(codes[Hash(code)]) else None
  }

  lemma PairingRow(s: State, c: Command, code: nat, rank: Rank)
    requires Step(s, c, rank).Ok?
    ensures Entry(Step(s, c, rank).value.pairing, code) ==
            if c.IssuePairingCode? && c.code == code then
              Some(PairingCode(c.workspace, c.deviceType, if c.boundName == "" then None else Some(c.boundName),
                               Millis(c.now + c.ttl), None))
            else if c.RegisterPending? && c.code == code && Entry(s.pairing, code).Some? then
              Some(Entry(s.pairing, code).value.(consumedAt := Some(Millis(c.now))))
            else Entry(s.pairing, code)
  {
    hide Approve, Rename, Revoke, Rotate, TokenTaken, Usable, Proves, ValidName;
  }

  lemma RotationRow(s: State, c: Command, code: nat, rank: Rank)
    requires Step(s, c, rank).Ok?
    ensures Entry(Step(s, c, rank).value.rotation, code) ==
            if c.IssueRotationCode? && c.code == code then
              Some(RotationCode(c.workspace, c.device, Millis(c.now + c.ttl), None))
            else if c.RotateCredential? && c.code == code && Entry(s.rotation, code).Some? then
              Some(Entry(s.rotation, code).value.(consumedAt := Some(Millis(c.now))))
            else Entry(s.rotation, code)
  {
    hide Approve, Rename, Revoke, Rotate, TokenTaken, Redeemable, Proves, ValidName;
  }

  /** In every run the pairing codes are what the commands say: issued as asked, consumed by the registration. */
  lemma {:induction false} PairingLedger(run: Run, code: nat, rank: Rank)
    ensures Entry(After(run, rank).pairing, code) == PairingOf(run, code, rank)
  {
    if run.Then? {
      PairingLedger(run.earlier, code, rank);
      if Succeeded(run, rank) { PairingRow(After(run.earlier, rank), run.command, code, rank); }
      hide Step;
    }
  }

  lemma {:induction false} RotationLedger(run: Run, code: nat, rank: Rank)
    ensures Entry(After(run, rank).rotation, code) == RotationOf(run, code, rank)
  {
    if run.Then? {
      RotationLedger(run.earlier, code, rank);
      if Succeeded(run, rank) { RotationRow(After(run.earlier, rank), run.command, code, rank); }
      hide Step;
    }
  }

  /** Codes name workspaces there are. */
  lemma {:induction false} PairingWorkspace(run: Run, code: nat, rank: Rank)
    requires Injective(rank)
    ensures var s := After(run, rank); Hash(code) in s.pairing ==> s.pairing[Hash(code)].workspace in s.workspaces
  {
    if run.Then? {
      PairingWorkspace(run.earlier, code, rank);
      AlwaysGood(run.earlier, rank);
      var s, c := After(run.earlier, rank), run.command;
      StepKeeps(s, c, rank);
      if Succeeded(run, rank) { PairingKept(s, c, code, rank); }
    }
  }

  lemma PairingKept(s: State, c: Command, code: nat, rank: Rank)
    requires Step(s, c, rank).Ok?
    ensures var n := Step(s, c, rank).value;
            Hash(code) in n.pairing ==>
              || (Hash(code) in s.pairing && n.pairing[Hash(code)].workspace == s.pairing[Hash(code)].workspace)
              || n.pairing[Hash(code)].workspace in n.workspaces
  {
  }

  /** The code was issued for such a device, has registered none yet and has not expired. */
  predicate Invited(run: Run, c: Command, rank: Rank)
    requires c.RegisterPending?
  {
    var issuer := PairingIssuer(run, c.code, rank);
    && issuer.Some? && issuer.value.IssuePairingCode? && Registrations(run, c.code, rank) == 0
    && var i := issuer.value;
       && i.deviceType == c.deviceType && (i.boundName == "" || i.boundName == c.name)
       && Millis(c.now) < Millis(i.now + i.ttl)
  }

  /** The challenge is not all zero and is open for at most ten minutes. */
  predicate Challenged(c: Challenge, now: Instant) {
    c.digest != 0 && c.secret != 0 && now < c.expiresAt <= now + TEN_MINUTES
  }

  lemma InvitedIff(run: Run, c: Command, rank: Rank)
    requires Injective(rank) && c.RegisterPending?
    ensures Redeemable(After(run, rank), c.code, c.deviceType, c.name, c.now) <==> Invited(run, c, rank)
  {
    PairingCodesAsIssued(run, c.code, rank);
    PairingCodeOnce(run, c.code, rank);
  }

  /**
   A device registers exactly when its type, name and key are given, its code was issued for such a
   device and is neither used nor expired, it has a fresh challenge, and its id and token are new.
   */
  ghost predicate RegisterOpen(run: Run, c: Command, rank: Rank)
    requires c.RegisterPending?
  {
    && c.deviceType != Unspecified && ValidName(c.name) && c.identityKey.Some?
    && Invited(run, c, rank) && c.challenge.Some? && Challenged(c.challenge.value, c.now)
    && TokenOf(run, PairingIssuer(run, c.code, rank).value.workspace, c.device, rank).None?
    && TokenFree(run, c.token, rank)
  }

  /** The first thing wrong with a registration. */
  function RegisterFault(run: Run, c: Command, rank: Rank): StoreError
    requires c.RegisterPending?
  {
    if c.deviceType == Unspecified then InvalidPairingCode
    else if !ValidName(c.name) || c.identityKey.None? then InvalidRegistration
    else if !Invited(run, c, rank) then InvalidPairingCode
    else if c.challenge.None? then ChallengeFailed
    else if !Challenged(c.challenge.value, c.now) then InvalidRegistration
    else Conflict
  }

  lemma RegisterIff(run: Run, c: Command, rank: Rank)
    requires Injective(rank) && c.RegisterPending?
    ensures var r := Step(After(run, rank), c, rank);
            && (r.Ok? <==> RegisterOpen(run, c, rank))
            && (r.Err? ==> r.error == RegisterFault(run, c, rank))
  {
    hide TokenTaken, TokenFree, Redeemable, Invited, ValidName;
    InvitedIff(run, c, rank);
    TokenFreeIff(run, c.token, rank);
    PairingWorkspace(run, c.code, rank);
    PairingCodesAsIssued(run, c.code, rank);
    if Invited(run, c, rank) {
      InvitedHas(run, c, rank);
      TokenStored(run, PairingIssuer(run, c.code, rank).value.workspace, c.device, rank);
    }
  }

  lemma InvitedHas(run: Run, c: Command, rank: Rank)
    requires Injective(rank) && c.RegisterPending? && Invited(run, c, rank)
    ensures Hash(c.code) in After(run, rank).pairing && PairingIssuer(run, c.code, rank).Some?
    ensures PairingIssuer(run, c.code, rank).value.IssuePairingCode?
  {
    InvitedIff(run, c, rank);
  }

  lemma OwesProof(run: Run, id: nat, x: nat, rank: Rank)
    requires Injective(rank)
    ensures var st := StoryOf(run, id, x, rank);
            st.Some? && st.value.status == PendingProof ==>
              st.value.provedAt.None? && st.value.certified.None? && st.value.revokedAt.None?
  {
    hide After, StoryOf;
    LedgerHolds(run, id, x, rank);
    HistoryHolds(run, id, x, rank);
  }

  /** A proof is accepted exactly from a device that still owes one, for its own challenge and token, in time. */
  predicate ProofOpen(run: Run, c: Command, rank: Rank)
    requires c.CompleteProof?
  {
    var st := StoryOf(run, c.workspace, c.device, rank);
    && st.Some? && st.value.status == PendingProof && c.token == st.value.token
    && c.digest == st.value.challenge.digest && c.secret == st.value.challenge.secret
    && Millis(c.now) < Millis(st.value.challenge.expiresAt)
  }

  lemma ProofIff(run: Run, c: Command, rank: Rank)
    requires Injective(rank) && c.CompleteProof?
    ensures var r := Step(After(run, rank), c, rank);
            (r.Ok? <==> ProofOpen(run, c, rank)) && (r.Err? ==> r.error == InvalidProof)
  {
    hide After, StoryOf;
    LedgerHolds(run, c.workspace, c.device, rank);
    OwesProof(run, c.workspace, c.device, rank);
  }

  /** The device is approved now. */
  predicate IsApproved(run: Run, id: nat, x: nat, rank: Rank) {
    StoryOf(run, id, x, rank).Some? && StoryOf(run, id, x, rank).value.status == Approved
  }

  lemma ApprovedIff(run: Run, id: nat, x: nat, rank: Rank)
    requires Injective(rank)
    ensures var s := After(run, rank);
            && (Exists(s, id, x) <==> StoryOf(run, id, x, rank).Some?)
            && (IsApproved(run, id, x, rank) <==> Exists(s, id, x) && Row(s, id, x).status == Approved)
            && (IsApproved(run, id, x, rank) ==> Row(s, id, x).revokedAt.None? && Row(s, id, x).credentialVersion >= 1)
  {
    LedgerHolds(run, id, x, rank);
    HistoryHolds(run, id, x, rank);
    AlwaysGood(run, rank);
    var s := After(run, rank);
    if Exists(s, id, x) { assert DeviceOk(id, s.workspaces[id], x, Row(s, id, x)); }
  }

  /** A rotation code is issued once, for an approved device, for at most a day. */
  predicate IssueRotationOpen(run: Run, c: Command, rank: Rank)
    requires c.IssueRotationCode?
  {
    && 0 < c.ttl <= ONE_DAY && IsApproved(run, c.workspace, c.device, rank)
    && RotationIssuer(run, c.code, rank).None?
  }

  lemma IssueRotationIff(run: Run, c: Command, rank: Rank)
    requires Injective(rank) && c.IssueRotationCode?
    ensures var r := Step(After(run, rank), c, rank);
            && (r.Ok? <==> IssueRotationOpen(run, c, rank))
            && (r.Err? ==>
                  r.error == if c.ttl <= 0 || c.ttl > ONE_DAY then Refused(InvalidInput)
                             else if !IsApproved(run, c.workspace, c.device, rank) then Refused(DeviceNotFound)
                             else Conflict)
  {
    ApprovedIff(run, c.workspace, c.device, rank);
    RotationCodesAsIssued(run, c.code, rank);
  }

  /** The rotation code was issued for this device, has not been used and has not expired. */
  predicate Offered(run: Run, c: Command, rank: Rank)
    requires c.RotateCredential?
  {
    var issuer := RotationIssuer(run, c.code, rank);
    && issuer.Some? && issuer.value.IssueRotationCode? && Uses(run, c.code, rank) == 0
    && issuer.value.workspace == c.workspace && issuer.value.device == c.device
    && Millis(c.now) < Millis(issuer.value.now + issuer.value.ttl)
  }

  lemma OfferedIff(run: Run, c: Command, rank: Rank)
    requires Injective(rank) && c.RotateCredential?
    ensures Usable(After(run, rank), c.code, c.workspace, c.device, c.now) <==> Offered(run, c, rank)
  {
    RotationCodesAsIssued(run, c.code, rank);
    RotationCodeOnce(run, c.code, rank);
  }

  /**
   A credential rotates exactly for an approved device that presents its current token and a code
   issued for it that is neither used nor expired, to a token no device has.
   */
  ghost predicate RotateCredentialOpen(run: Run, c: Command, rank: Rank)
    requires c.RotateCredential?
  {
    && IsApproved(run, c.workspace, c.device, rank)
    && TokenOf(run, c.workspace, c.device, rank) == Some(c.token)
    && Offered(run, c, rank) && TokenFree(run, c.newToken, rank)
  }

  lemma RotateCredentialIff(run: Run, c: Command, rank: Rank)
    requires Injective(rank) && c.RotateCredential?
    ensures var r := Step(After(run, rank), c, rank);
            && (r.Ok? <==> RotateCredentialOpen(run, c, rank))
            && (r.Err? ==> r.error == InvalidRotation || r.error == Conflict)
            && (r == Err(Conflict) ==> !TokenFree(run, c.newToken, rank))
  {
    hide TokenTaken, Usable, Offered;
    ApprovedIff(run, c.workspace, c.device, rank);
    TokenStored(run, c.workspace, c.device, rank);
    OfferedIff(run, c, rank);
    TokenFreeIff(run, c.newToken, rank);
  }

  // ---------------------------------------------------------------- roster transactions

  /** The key signs for the workspace now, and another roster can be published at this time. */
  predicate MaySign(run: Run, id: nat, key: Key, now: Instant, rank: Rank) {
    && AuthorityOf(run, id, rank).Some? && AuthorityOf(run, id, rank).value.0 == key
    && 1 <= Millis(now) <= MAX_INT64 && Published(run, id, rank) < MAX_INT64
  }

  function StatusOf(run: Run, id: nat, x: nat, rank: Rank): Option<Status> {
    var st := StoryOf(run, id, x, rank);
    if st.Some? then Some(st.value.status) else None
  }

  lemma StatusStored(run: Run, id: nat, x: nat, rank: Rank)
    requires Injective(rank)
    ensures var s := After(run, rank);
            && (id in s.workspaces <==> AuthorityOf(run, id, rank).Some?)
            && (id in s.workspaces ==> s.workspaces[id].authorityKey == AuthorityOf(run, id, rank).value.0)
            && Rosters(s, id) == Published(run, id, rank)
            && StatusOf(run, id, x, rank) == (if Exists(s, id, x) then Some(Row(s, id, x).status) else None)
            && (Exists(s, id, x) ==> Row(s, id, x).name == StoryOf(run, id, x, rank).value.name)
  {
    hide After, StoryOf, AuthorityOf, Published;
    AuthorityHolds(run, id, rank);
    LedgerHolds(run, id, x, rank);
  }

  /** How many certificates the newest roster lists as active, and how many as revoked. */
  function Members(s: State, id: nat): nat {
    if id in s.workspaces then |Active(s.workspaces[id])| else 0
  }

  function RevokedCount(s: State, id: nat): nat {
    if id in s.workspaces then |Revocations(s.workspaces[id])| else 0
  }

  /** Approved exactly: a proved device, by the authority, with proper roles, while there is room in the roster. */
  lemma ApproveIff(run: Run, c: Command, rank: Rank)
    requires Injective(rank) && c.ApproveDevice?
    ensures Step(After(run, rank), c, rank).Ok? <==>
            && StatusOf(run, c.workspace, c.device, rank) == Some(PendingApproval)
            && MaySign(run, c.workspace, c.key, c.now, rank) && ValidRoles(c.roles)
            && c.workspace != 0 && c.device != 0 && Members(After(run, rank), c.workspace) < 256
  {
    hide After, Step, StatusOf, AuthorityOf, Published, ValidRoles, Active;
    StatusStored(run, c.workspace, c.device, rank);
    ApproveOutcome(run, c.workspace, c.device, c.roles, c.key, c.now, rank);
  }

  /** Renamed exactly: an approved device, by the authority, to another acceptable name. */
  lemma RenameIff(run: Run, c: Command, rank: Rank)
    requires Injective(rank) && c.RenameDevice?
    ensures Step(After(run, rank), c, rank).Ok? <==>
            && IsApproved(run, c.workspace, c.device, rank)
            && StoryOf(run, c.workspace, c.device, rank).value.name != c.name
            && MaySign(run, c.workspace, c.key, c.now, rank) && ValidName(c.name)
  {
    hide After, Step, StoryOf, AuthorityOf, Published, ValidName;
    StatusStored(run, c.workspace, c.device, rank);
    RenameOutcome(run, c.workspace, c.device, c.name, c.key, c.now, rank);
  }

  /** Revoked exactly: any device there is, but a certified one only by the authority while the list has room. */
  lemma RevokeIff(run: Run, c: Command, rank: Rank)
    requires Injective(rank) && c.RevokeDevice?
    ensures Step(After(run, rank), c, rank).Ok? <==>
            && StatusOf(run, c.workspace, c.device, rank).Some?
            && (StatusOf(run, c.workspace, c.device, rank) == Some(Approved) ==>
                  && MaySign(run, c.workspace, c.key, c.now, rank)
                  && RevokedCount(After(run, rank), c.workspace) < 4096)
  {
    hide After, Step, StatusOf, AuthorityOf, Published, Revocations;
    StatusStored(run, c.workspace, c.device, rank);
    RevokeOutcome(run, c.workspace, c.device, c.key, c.now, rank);
  }

  /** Rotated exactly: by the authority, to another key that is not zero, once there is a roster. */
  lemma RotateIff(run: Run, c: Command, rank: Rank)
    requires Injective(rank) && c.RotateAuthority?
    ensures Step(After(run, rank), c, rank).Ok? <==>
            && MaySign(run, c.workspace, c.key, c.now, rank) && Published(run, c.workspace, rank) >= 1
            && c.key != 0 && c.newKey != 0 && c.key != c.newKey
            && AuthorityOf(run, c.workspace, rank).value.1 < MAX_INT64
  {
    hide After, Step, StoryOf, AuthorityOf, Published;
    StatusStored(run, c.workspace, 0, rank);
    AuthorityHolds(run, c.workspace, rank);
    RotateOutcome(run, c.workspace, c.key, c.newKey, c.now, rank);
  }
}
