/**
 The admission store's tables as a value, and its transactions. A command carries what the
 caller passes and what the store draws at random; it yields the new tables or an error.
 */
module Admission {
  import opened Base
  import opened Membership
  import opened Workspace

  const HOUR: int := 3_600_000_000_000
  const MAX_CODE_TTL: int := 24 * HOUR
  const MAX_CHALLENGE_TTL: int := HOUR / 6

  datatype PairingCode = PairingCode(
    workspace: nat, deviceType: DeviceType, boundName: Option<string>, expiresAt: int, consumedAt: Option<int>)

  datatype RotationCode = RotationCode(workspace: nat, device: nat, expiresAt: int, consumedAt: Option<int>)

  /** Codes are stored under the hash of their secret. */
  datatype State = State(
    workspaces: map<nat, Tables>,
    pairing: map<Hash, PairingCode>,
    rotation: map<Hash, RotationCode>)

  const EMPTY := State(map[], map[], map[])

  /** A digest or secret of 0 is the all-zero one. */
  datatype Challenge = Challenge(digest: nat, secret: nat, expiresAt: Instant)

  datatype Command =
    | CreateWorkspace(workspace: nat, key: Key)
    | IssuePairingCode(workspace: nat, deviceType: DeviceType, boundName: string, code: nat, now: Instant, ttl: int)
    | RegisterPending(deviceType: DeviceType, name: string, identityKey: Option<nat>, code: nat, device: nat,
                      token: nat, challenge: Option<Challenge>, now: Instant)
    | CompleteProof(workspace: nat, device: nat, token: nat, digest: nat, secret: nat, now: Instant)
    | ApproveDevice(workspace: nat, device: nat, roles: seq<int>, key: Key, now: Instant)
    | RenameDevice(workspace: nat, device: nat, name: string, key: Key, now: Instant)
    | RevokeDevice(workspace: nat, device: nat, key: Key, now: Instant)
    | RotateAuthority(workspace: nat, key: Key, newKey: Key, now: Instant)
    | IssueRotationCode(workspace: nat, device: nat, code: nat, now: Instant, ttl: int)
    | RotateCredential(workspace: nat, device: nat, code: nat, token: nat, newToken: nat, now: Instant)

  datatype StoreError =
    | Refused(reason: AdmissionError)
    | InvalidPairingCode
    | InvalidRegistration
    | ChallengeFailed
    | InvalidProof
    | InvalidRotation
    | Conflict   // a uniqueness or reference constraint of the tables
    | AmbiguousReference

  type Outcome = Result<State, StoreError>

  /** auth_token_hash is unique over all workspaces. */
  predicate TokenTaken(workspaces: map<nat, Tables>, h: Hash) {
    exists w | w in workspaces :: HasToken(workspaces[w], h)
  }

  predicate HasToken(w: Tables, h: Hash) {
    exists x | x in w.devices :: w.devices[x].tokenHash == h
  }

  function NewTables(key: Key): Tables {
    Tables(key, 1, ZeroTransition, [], [], map[])
  }

  function Create(s: State, workspace: nat, key: Key): Outcome {
    if key == 0 then Err(Refused(InvalidInput))
    else if workspace in s.workspaces then Err(Conflict)
    else Ok(s.(workspaces := s.workspaces[workspace := NewTables(key)]))
  }

  function IssuePairing(s: State, workspace: nat, deviceType: DeviceType, boundName: string, code: nat, now: Instant,
                        ttl: int): Outcome {
    if deviceType == Unspecified || (boundName != "" && !ValidName(boundName)) || ttl <= 0 || ttl > MAX_CODE_TTL
    then Err(Refused(InvalidInput))
    else if Hash(code) in s.pairing || workspace !in s.workspaces then Err(Conflict)
    else
      var bound := if boundName == "" then None else Some(boundName);
      Ok(s.(pairing := s.pairing[Hash(code) := PairingCode(workspace, deviceType, bound, Millis(now + ttl), None)]))
  }

  /** The code is there, unused, unexpired and fits the device. */
  predicate Redeemable(s: State, code: nat, deviceType: DeviceType, name: string, now: Instant) {
    && Hash(code) in s.pairing
    && var c := s.pairing[Hash(code)];
       && c.consumedAt.None? && c.expiresAt > Millis(now) && c.deviceType == deviceType
       && (c.boundName.None? || c.boundName.value == name)
  }

  predicate ChallengeOk(c: Challenge, now: Instant) {
    c.digest != 0 && c.secret != 0 && now < c.expiresAt <= now + MAX_CHALLENGE_TTL
  }

  function PendingDevice(deviceType: DeviceType, name: string, identityKey: nat, token: nat, c: Challenge): Device {
    Device(deviceType, name, Hash(token), identityKey, PendingProof, Some(c.digest), Some(Hash(c.secret)),
           Some(Millis(c.expiresAt)), None, None, None, None, None, 1)
  }

  function Register(s: State, deviceType: DeviceType, name: string, identityKey: Option<nat>, code: nat, device: nat,
                    token: nat, challenge: Option<Challenge>, now: Instant): Outcome
  {
    if deviceType == Unspecified then Err(InvalidPairingCode)
    else if !ValidName(name) || identityKey.None? then Err(InvalidRegistration)
    else if !Redeemable(s, code, deviceType, name, now) then Err(InvalidPairingCode)
    else if challenge.None? then Err(ChallengeFailed)
    else if !ChallengeOk(challenge.value, now) then Err(InvalidRegistration)
    else
      var c := s.pairing[Hash(code)];
      if c.workspace !in s.workspaces || device in s.workspaces[c.workspace].devices
         || TokenTaken(s.workspaces, Hash(token))
      then Err(Conflict)
      else
        var w := s.workspaces[c.workspace];
        var d := PendingDevice(deviceType, name, identityKey.value, token, challenge.value);
        Ok(s.(pairing := s.pairing[Hash(code) := c.(consumedAt := Some(Millis(now)))],
              workspaces := s.workspaces[c.workspace := w.(devices := w.devices[device := d])]))
  }

  predicate Exists(s: State, workspace: nat, device: nat) {
    workspace in s.workspaces && device in s.workspaces[workspace].devices
  }

  function Row(s: State, workspace: nat, device: nat): Device
    requires Exists(s, workspace, device)
  {
    s.workspaces[workspace].devices[device]
  }

  function WithRow(s: State, workspace: nat, device: nat, d: Device): State
    requires workspace in s.workspaces
  {
    var w := s.workspaces[workspace];
    s.(workspaces := s.workspaces[workspace := w.(devices := w.devices[device := d])])
  }

  /** The proof answers this row's challenge in time, with this row's credential. */
  predicate Proves(d: Device, token: nat, digest: nat, secret: nat, now: Instant) {
    && d.tokenHash == Hash(token) && d.status == PendingProof && d.revokedAt.None?
    && d.proofExpiresAt.Some? && d.proofExpiresAt.value > Millis(now)
    && d.challengeDigest == Some(digest) && d.secretHash == Some(Hash(secret))
  }

  function Prove(s: State, workspace: nat, device: nat, token: nat, digest: nat, secret: nat, now: Instant): Outcome {
    if !Exists(s, workspace, device) || !Proves(Row(s, workspace, device), token, digest, secret, now)
    then Err(InvalidProof)
    else
      Ok(WithRow(s, workspace, device, Row(s, workspace, device)
                 .(status := PendingApproval, proofCompletedAt := Some(Millis(now)), secretHash := None)))
  }

  /** A membership transaction on one workspace. */
  function InWorkspace(s: State, workspace: nat, r: Result<Tables, AdmissionError>): Outcome {
    match r
    case Ok(n) => Ok(s.(workspaces := s.workspaces[workspace := n]))
    case Err(e) => Err(Refused(e))
  }

  function ApproveIn(s: State, workspace: nat, device: nat, roles: seq<int>, key: Key, now: Instant,
                     rank: Rank): Outcome {
    if workspace !in s.workspaces then Err(Refused(if roles == [] then InvalidInput else DeviceNotFound))
    else InWorkspace(s, workspace, Approve(s.workspaces[workspace], workspace, device, roles, key, Millis(now), rank))
  }

  function RenameIn(s: State, workspace: nat, device: nat, name: string, key: Key, now: Instant, rank: Rank): Outcome {
    if workspace !in s.workspaces then Err(Refused(if !ValidName(name) then InvalidInput else DeviceNotFound))
    else InWorkspace(s, workspace, Rename(s.workspaces[workspace], workspace, device, name, key, Millis(now), rank))
  }

  function RevokeIn(s: State, workspace: nat, device: nat, key: Key, now: Instant, rank: Rank): Outcome {
    if workspace !in s.workspaces then Err(Refused(DeviceNotFound))
    else InWorkspace(s, workspace, Revoke(s.workspaces[workspace], workspace, device, key, Millis(now), rank))
  }

  function RotateIn(s: State, workspace: nat, key: Key, newKey: Key, now: Instant, rank: Rank): Outcome {
    if now == ZERO_INSTANT then Err(Refused(InvalidInput))
    else if workspace !in s.workspaces then Err(Refused(if key == newKey then InvalidInput else AuthorityUnavailable))
    else InWorkspace(s, workspace, Rotate(s.workspaces[workspace], workspace, key, newKey, Millis(now), rank))
  }

  function IssueRotation(s: State, workspace: nat, device: nat, code: nat, now: Instant, ttl: int): Outcome {
    if ttl <= 0 || ttl > MAX_CODE_TTL then Err(Refused(InvalidInput))
    else if !Exists(s, workspace, device) || Row(s, workspace, device).status != Approved
            || Row(s, workspace, device).revokedAt.Some?
    then Err(Refused(DeviceNotFound))
    else if Hash(code) in s.rotation then Err(Conflict)
    else Ok(s.(rotation := s.rotation[Hash(code) := RotationCode(workspace, device, Millis(now + ttl), None)]))
  }

  /** The code is there, unused, unexpired and issued for this device. */
  predicate Usable(s: State, code: nat, workspace: nat, device: nat, now: Instant) {
    && Hash(code) in s.rotation
    && var c := s.rotation[Hash(code)];
       c.consumedAt.None? && c.expiresAt > Millis(now) && c.workspace == workspace && c.device == device
  }

  function RotateToken(s: State, workspace: nat, device: nat, code: nat, token: nat, newToken: nat,
                       now: Instant): Outcome {
    if token == newToken || !Usable(s, code, workspace, device, now) || !Exists(s, workspace, device)
    then Err(InvalidRotation)
    else
      var d := Row(s, workspace, device);
      if d.revokedAt.Some? || d.status != Approved || d.tokenHash != Hash(token) || d.credentialVersion < 1
      then Err(InvalidRotation)
      else if TokenTaken(s.workspaces, Hash(newToken)) then Err(Conflict)
      else
        var n := WithRow(s, workspace, device,
                         d.(tokenHash := Hash(newToken), credentialVersion := d.credentialVersion + 1));
        Ok(n.(rotation := s.rotation[Hash(code) := s.rotation[Hash(code)].(consumedAt := Some(Millis(now)))]))
  }

  function Step(s: State, c: Command, rank: Rank): Outcome {
    match c
    case CreateWorkspace(w, key) => Create(s, w, key)
    case IssuePairingCode(w, t, bound, code, now, ttl) => IssuePairing(s, w, t, bound, code, now, ttl)
    case RegisterPending(t, name, identity, code, x, token, challenge, now) =>
      Register(s, t, name, identity, code, x, token, challenge, now)
    case CompleteProof(w, x, token, digest, secret, now) => Prove(s, w, x, token, digest, secret, now)
    case ApproveDevice(w, x, roles, key, now) => ApproveIn(s, w, x, roles, key, now, rank)
    case RenameDevice(w, x, name, key, now) => RenameIn(s, w, x, name, key, now, rank)
    case RevokeDevice(w, x, key, now) => RevokeIn(s, w, x, key, now, rank)
    case RotateAuthority(w, key, newKey, now) => RotateIn(s, w, key, newKey, now, rank)
    case IssueRotationCode(w, x, code, now, ttl) => IssueRotation(s, w, x, code, now, ttl)
    case RotateCredential(w, x, code, token, newToken, now) => RotateToken(s, w, x, code, token, newToken, now)
  }

  // ------------------------------------------------------------------------ queries

  predicate SessionAuthorized(s: State, workspace: nat, device: nat, version: int) {
    && version >= 1 && Exists(s, workspace, device)
    && var d := Row(s, workspace, device);
       d.revokedAt.None? && d.credentialVersion == version && d.status == Approved
  }

  /** Authenticate: the credential version a fresh session gets. */
  function Authenticate(s: State, workspace: nat, device: nat, token: nat): Option<int> {
    if Exists(s, workspace, device)
       && var d := Row(s, workspace, device); d.tokenHash == Hash(token) && d.revokedAt.None? && d.status == Approved
    then Some(Row(s, workspace, device).credentialVersion)
    else None
  }

  /** What a rotation reports, and what the recovery lookup reports about it later. */
  datatype Rotated = Rotated(
    authorityEpoch: int, transitionDigest: TransitionDigest, rosterEpoch: int, rosterDigest: RosterDigest,
    transition: SignedKeyTransition)

  /** The row of the current authority epoch; epochs of transitions start at 2. */
  function CurrentTransition(w: Tables): Option<SignedKeyTransition> {
    var i := w.authorityEpoch - 2;
    if 0 <= i < |w.transitions| then Some(w.transitions[i]) else None
  }

  /** CompletedWorkspaceAuthorityRotation; an error means the stored rows contradict each other. */
  function Completed(w: Tables, expected: Key): Result<Option<Rotated>, AdmissionError> {
    match CurrentTransition(w)
    case None => Ok(None)
    case Some(t) =>
      if w.authorityKey != expected then Ok(None)
      else if !SignedKeyTransitionValid(t) || t.transition.epoch != w.authorityEpoch || t.transition.newKey != expected
      then Err(CorruptCertificate)
      else
        var e := t.transition.activationEpoch;
        if !(1 <= e <= |w.rosters|) then Err(MissingRoster)
        else Ok(Some(Rotated(w.authorityEpoch, t.digest, e, w.rosters[e - 1].digest, t)))
  }
}
