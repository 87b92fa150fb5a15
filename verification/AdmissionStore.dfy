/** The admission store as an object: each method is one transaction on its tables, and an error changes nothing. */
module AdmissionStore {
  import opened Base
  import opened Membership
  import opened Workspace
  import opened AuthorityRotation
  import opened WorkspaceOps
  import opened RosterTransactions
  import opened Admission
  import opened AdmissionRuns
  import opened AdmissionOutcomes
  import opened AdmissionRosters

  /** None when the transaction committed. */
  type Failure = Option<StoreError>

  /** The method did what the command does, or rolled back with its error. */
  predicate Performs(s: State, c: Command, n: State, failure: Failure, rank: Rank) {
    match Step(s, c, rank)
    case Ok(m) => n == m && failure == None
    case Err(e) => n == s && failure == Some(e)
  }

  /** The tables are sound, and a failure does not report that they contradict each other. */
  ghost predicate Consistent(n: State, failure: Failure, rank: Rank) {
    Good(n, rank) && (failure.Some? ==> Explained(failure.value))
  }

  /** The certificate, epoch and digest that an approval or a rename reports. */
  datatype Issued = Issued(certificateId: CertificateId, epoch: int, digest: RosterDigest)

  function DevicesOf(workspaces: map<nat, Tables>, id: nat): map<nat, Device> {
    if id in workspaces then workspaces[id].devices else map[]
  }

  /** The error of a reference that names no device, or several. */
  function Unresolved(e: ReferenceError): StoreError {
    if e == Ambiguous then AmbiguousReference else Refused(DeviceNotFound)
  }

  /** The report names the device's certificate and the roster that lists it. */
  predicate Reports(i: Issued, w: Tables, n: Tables, x: nat) {
    Publishes(w, n, x) && n.devices[x].certificateId == Some(i.certificateId)
    && i.epoch == |n.rosters| && i.digest == n.rosters[|w.rosters|].digest
  }

  function IssuedBy(ghost w: Tables, n: Tables, x: nat): (i: Issued)
    requires Publishes(w, n, x)
    ensures Reports(i, w, n, x)
  {
    var last := n.rosters[|n.rosters| - 1];
    Issued(n.devices[x].certificate.value.id, last.roster.epoch, last.digest)
  }

  class Store {
    const rank: Rank
    const referenceOf: Reference
    var workspaces: map<nat, Tables>
    var pairing: map<Hash, PairingCode>
    var rotation: map<Hash, RotationCode>
    /** Every call so far. */
    ghost var history: Run

    function Contents(): State
      reads this
    {
      State(workspaces, pairing, rotation)
    }

    /** The tables are those of the run of calls so far. */
    ghost predicate Valid()
      reads this
    {
      Injective(rank) && Contents() == After(history, rank)
    }

    constructor (rank: Rank, referenceOf: Reference)
      requires Injective(rank)
      ensures Valid() && history == Start && this.rank == rank && this.referenceOf == referenceOf
    {
      this.rank, this.referenceOf := rank, referenceOf;
      workspaces := map[];
      pairing := map[];
      rotation := map[];
      history := Start;
    }

    method CreateWorkspace(id: nat, key: Key) returns (f: Failure)
      requires Valid()
      modifies this
      ensures Performs(old(Contents()), Command.CreateWorkspace(id, key), Contents(), f, rank)
      ensures Valid() && history == Then(old(history), Command.CreateWorkspace(id, key))
      ensures Consistent(Contents(), f, rank) && (f.None? <==> CreateOpen(old(history), id, key, rank))
    {
      hide Good, Explained, CreateOpen;
      CreateIff(history, id, key, rank);
      CallKeeps(history, Command.CreateWorkspace(id, key), rank);
      history := Then(history, Command.CreateWorkspace(id, key));
      if key == 0 { return Some(Refused(InvalidInput)); }
      if id in workspaces { return Some(Conflict); }
      workspaces := workspaces[id := NewTables(key)];
      f := None;
    }

    method IssuePairingCode(id: nat, deviceType: DeviceType, boundName: string, code: nat, now: Instant, ttl: int)
      returns (f: Failure)
      requires Valid()
      modifies this
      ensures Performs(old(Contents()), Command.IssuePairingCode(id, deviceType, boundName, code, now, ttl), Contents(),
                       f, rank)
      ensures Valid()
      ensures history == Then(old(history), Command.IssuePairingCode(id, deviceType, boundName, code, now, ttl))
      ensures Consistent(Contents(), f, rank)
      ensures f.None? <==> IssuePairingOpen(old(history), history.command, rank)
    {
      hide Good, Explained, IssuePairingOpen;
      IssuePairingIff(history, Command.IssuePairingCode(id, deviceType, boundName, code, now, ttl), rank);
      CallKeeps(history, Command.IssuePairingCode(id, deviceType, boundName, code, now, ttl), rank);
      history := Then(history, Command.IssuePairingCode(id, deviceType, boundName, code, now, ttl));
      if deviceType == Unspecified { return Some(Refused(InvalidInput)); }
      if boundName != "" && !ValidName(boundName) { return Some(Refused(InvalidInput)); }
      if ttl <= 0 || ttl > MAX_CODE_TTL { return Some(Refused(InvalidInput)); }
      if Hash(code) in pairing || id !in workspaces { return Some(Conflict); }
      var bound := if boundName == "" then None else Some(boundName);
      pairing := pairing[Hash(code) := PairingCode(id, deviceType, bound, Millis(now + ttl), None)];
      f := None;
    }

    /** Consumes the code and inserts the device; a later failure in the transaction gives the code back. */
    method RegisterPending(deviceType: DeviceType, name: string, identityKey: Option<nat>, code: nat, device: nat,
                           token: nat, challenge: Option<Challenge>, now: Instant) returns (f: Failure)
      requires Valid()
      modifies this
      ensures var c := Command.RegisterPending(deviceType, name, identityKey, code, device, token, challenge, now);
              && Performs(old(Contents()), c, Contents(), f, rank) && history == Then(old(history), c)
              && (f.None? <==> RegisterOpen(old(history), c, rank))
      ensures Valid() && Consistent(Contents(), f, rank)
    {
      hide Good, Explained, RegisterOpen;
      RegisterIff(history, Command.RegisterPending(deviceType, name, identityKey, code, device, token, challenge, now),
                  rank);
      CallKeeps(history, Command.RegisterPending(deviceType, name, identityKey, code, device, token, challenge, now),
                rank);
      history := Then(history,
                      Command.RegisterPending(deviceType, name, identityKey, code, device, token, challenge, now));
      if deviceType == Unspecified { return Some(InvalidPairingCode); }
      if !ValidName(name) || identityKey.None? { return Some(InvalidRegistration); }
      if Hash(code) !in pairing { return Some(InvalidPairingCode); }
      var before, c := pairing, pairing[Hash(code)];
      if c.consumedAt.Some? || c.expiresAt <= Millis(now) || c.deviceType != deviceType
         || (c.boundName.Some? && c.boundName.value != name)
      {
        return Some(InvalidPairingCode);
      }
      pairing := pairing[Hash(code) := c.(consumedAt := Some(Millis(now)))];
      if challenge.None? {
        pairing := before;
        return Some(ChallengeFailed);
      }
      if !ChallengeOk(challenge.value, now) {
        pairing := before;
        return Some(InvalidRegistration);
      }
      if c.workspace !in workspaces || device in workspaces[c.workspace].devices
         || TokenTaken(workspaces, Hash(token))
      {
        pairing := before;
        return Some(Conflict);
      }
      var w := workspaces[c.workspace];
      var d := PendingDevice(deviceType, name, identityKey.value, token, challenge.value);
      workspaces := workspaces[c.workspace := w.(devices := w.devices[device := d])];
      f := None;
    }

    method CompletePendingIdentityProof(id: nat, device: nat, token: nat, digest: nat, secret: nat, now: Instant)
      returns (f: Failure)
      requires Valid()
      modifies this
      ensures Performs(old(Contents()), CompleteProof(id, device, token, digest, secret, now), Contents(), f, rank)
      ensures Valid() && history == Then(old(history), CompleteProof(id, device, token, digest, secret, now))
      ensures Consistent(Contents(), f, rank)
      ensures f.None? <==> ProofOpen(old(history), CompleteProof(id, device, token, digest, secret, now), rank)
    {
      hide Good, Explained, ProofOpen;
      ProofIff(history, CompleteProof(id, device, token, digest, secret, now), rank);
      CallKeeps(history, CompleteProof(id, device, token, digest, secret, now), rank);
      history := Then(history, CompleteProof(id, device, token, digest, secret, now));
      if id !in workspaces || device !in workspaces[id].devices { return Some(InvalidProof); }
      var w := workspaces[id];
      var d := w.devices[device];
      if !Proves(d, token, digest, secret, now) { return Some(InvalidProof); }
      var proved := d.(status := PendingApproval, proofCompletedAt := Some(Millis(now)), secretHash := None);
      workspaces := workspaces[id := w.(devices := w.devices[device := proved])];
      f := None;
    }

    /** Ends a transaction on one workspace. */
    method Commit(id: nat, made: Result<Tables, AdmissionError>) returns (f: Failure)
      modifies this`workspaces
      ensures InWorkspace(old(Contents()), id, made) == if f.None? then Ok(Contents()) else Err(f.value)
      ensures f.Some? ==> Contents() == old(Contents())
    {
      if made.Err? { return Some(Refused(made.error)); }
      workspaces := workspaces[id := made.value];
      f := None;
    }

    method ApproveById(id: nat, device: nat, roles: seq<int>, key: Key, now: Instant) returns (f: Failure)
      requires Valid()
      modifies this
      ensures Performs(old(Contents()), ApproveDevice(id, device, roles, key, now), Contents(), f, rank)
      ensures Valid() && history == Then(old(history), ApproveDevice(id, device, roles, key, now))
      ensures Consistent(Contents(), f, rank)
      ensures f.None? <==> old(id in workspaces && ApproveAllowed(workspaces[id], id, device, roles, key, Millis(now)))
    {
      hide Good, Explained;
      CallKeeps(history, ApproveDevice(id, device, roles, key, now), rank);
      ApproveOutcome(history, id, device, roles, key, now, rank);
      history := Then(history, ApproveDevice(id, device, roles, key, now));
      if |roles| == 0 { return Some(Refused(InvalidInput)); }
      if id !in workspaces { return Some(Refused(DeviceNotFound)); }
      var made := RunApprove(workspaces[id], id, device, roles, key, Millis(now), rank);
      f := Commit(id, made);
    }

    method RenameById(id: nat, device: nat, name: string, key: Key, now: Instant) returns (f: Failure)
      requires Valid()
      modifies this
      ensures Performs(old(Contents()), Command.RenameDevice(id, device, name, key, now), Contents(), f, rank)
      ensures Valid() && history == Then(old(history), Command.RenameDevice(id, device, name, key, now))
      ensures Consistent(Contents(), f, rank)
      ensures f.None? <==> old(id in workspaces && RenameAllowed(workspaces[id], device, name, key, Millis(now)))
    {
      hide Good, Explained;
      CallKeeps(history, Command.RenameDevice(id, device, name, key, now), rank);
      RenameOutcome(history, id, device, name, key, now, rank);
      history := Then(history, Command.RenameDevice(id, device, name, key, now));
      if !ValidName(name) { return Some(Refused(InvalidInput)); }
      if id !in workspaces { return Some(Refused(DeviceNotFound)); }
      var made := RunRename(workspaces[id], id, device, name, key, Millis(now), rank);
      f := Commit(id, made);
    }

    method RevokeById(id: nat, device: nat, key: Key, now: Instant) returns (f: Failure, changed: bool)
      requires Valid()
      modifies this
      ensures Performs(old(Contents()), Command.RevokeDevice(id, device, key, now), Contents(), f, rank)
      ensures Valid() && history == Then(old(history), Command.RevokeDevice(id, device, key, now))
      ensures Consistent(Contents(), f, rank)
      ensures f.None? <==> old(id in workspaces && RevokeOpen(workspaces[id], device, key, Millis(now)))
      ensures f.None? ==> Exists(Contents(), id, device) && Row(Contents(), id, device).status == Revoked
      ensures changed <==> Contents() != old(Contents())
    {
      hide Good, Explained;
      CallKeeps(history, Command.RevokeDevice(id, device, key, now), rank);
      RevokeOutcome(history, id, device, key, now, rank);
      RevokeLeavesRevoked(history, id, device, key, now, rank);
      history := Then(history, Command.RevokeDevice(id, device, key, now));
      if id !in workspaces { return Some(Refused(DeviceNotFound)), false; }
      var known := device in workspaces[id].devices && workspaces[id].devices[device].revokedAt.None?;
      var made := RunRevoke(workspaces[id], id, device, key, Millis(now), rank);
      f := Commit(id, made);
      changed := f.None? && known;
    }

    /** Rotates the authority and reports what the recovery lookup answers from then on. */
    method RotateWorkspaceAuthority(id: nat, key: Key, newKey: Key, now: Instant)
      returns (f: Failure, report: Option<Rotated>)
      requires Valid()
      modifies this
      ensures Performs(old(Contents()), RotateAuthority(id, key, newKey, now), Contents(), f, rank)
      ensures Valid() && history == Then(old(history), RotateAuthority(id, key, newKey, now))
      ensures Consistent(Contents(), f, rank)
      ensures f.None? <==> old(id in workspaces && RotateAllowed(workspaces[id], key, newKey, Millis(now)))
      ensures f.None? ==>
                && id in old(workspaces) && id in workspaces && report.Some?
                && Handover(old(workspaces)[id], workspaces[id], RotateAuthority(id, key, newKey, now))
                && Completed(workspaces[id], newKey) == Ok(report)
    {
      hide Good, Explained, Handover, Completed;
      report := None;
      CallKeeps(history, RotateAuthority(id, key, newKey, now), rank);
      RotateOutcome(history, id, key, newKey, now, rank);
      history := Then(history, RotateAuthority(id, key, newKey, now));
      if now == ZERO_INSTANT || key == newKey { return Some(Refused(InvalidInput)), None; }
      if id !in workspaces { return Some(Refused(AuthorityUnavailable)), None; }
      var made := RunRotate(workspaces[id], id, key, newKey, Millis(now), rank);
      f := Commit(id, made);
      if f.None? {
        RotationRecorded(history, rank);
        RotationReports(history, rank);
        report := Some(ReportOf(workspaces[id]));
      }
    }

    method IssueRotationById(id: nat, device: nat, code: nat, now: Instant, ttl: int) returns (f: Failure)
      requires Valid()
      modifies this
      ensures Performs(old(Contents()), IssueRotationCode(id, device, code, now, ttl), Contents(), f, rank)
      ensures Valid() && history == Then(old(history), IssueRotationCode(id, device, code, now, ttl))
      ensures Consistent(Contents(), f, rank)
      ensures f.None? <==> IssueRotationOpen(old(history), IssueRotationCode(id, device, code, now, ttl), rank)
    {
      hide Good, Explained, IssueRotationOpen;
      IssueRotationIff(history, IssueRotationCode(id, device, code, now, ttl), rank);
      CallKeeps(history, IssueRotationCode(id, device, code, now, ttl), rank);
      history := Then(history, IssueRotationCode(id, device, code, now, ttl));
      if ttl <= 0 || ttl > MAX_CODE_TTL { return Some(Refused(InvalidInput)); }
      if id !in workspaces || device !in workspaces[id].devices { return Some(Refused(DeviceNotFound)); }
      var d := workspaces[id].devices[device];
      if d.status != Approved || d.revokedAt.Some? { return Some(Refused(DeviceNotFound)); }
      if Hash(code) in rotation { return Some(Conflict); }
      rotation := rotation[Hash(code) := RotationCode(id, device, Millis(now + ttl), None)];
      f := None;
    }

    /** Consumes the code, then replaces the credential; both or neither. */
    method RotateCredential(id: nat, device: nat, code: nat, token: nat, newToken: nat, now: Instant)
      returns (f: Failure, version: int)
      requires Valid()
      modifies this
      ensures Performs(old(Contents()), Command.RotateCredential(id, device, code, token, newToken, now), Contents(), f,
                       rank)
      ensures Valid() && history == Then(old(history), Command.RotateCredential(id, device, code, token, newToken, now))
      ensures Consistent(Contents(), f, rank)
      ensures f.None? <==> RotateCredentialOpen(old(history), history.command, rank)
      ensures f.None? ==> SessionAuthorized(Contents(), id, device, version)
      ensures f.None? ==> Authenticate(Contents(), id, device, newToken) == Some(version)
    {
      hide Good, Explained, RotateCredentialOpen;
      RotateCredentialIff(history, Command.RotateCredential(id, device, code, token, newToken, now), rank);
      CallKeeps(history, Command.RotateCredential(id, device, code, token, newToken, now), rank);
      history := Then(history, Command.RotateCredential(id, device, code, token, newToken, now));
      if token == newToken || Hash(code) !in rotation { return Some(InvalidRotation), 0; }
      var before, c := rotation, rotation[Hash(code)];
      if c.consumedAt.Some? || c.expiresAt <= Millis(now) { return Some(InvalidRotation), 0; }
      if c.workspace != id || c.device != device { return Some(InvalidRotation), 0; }
      if id !in workspaces || device !in workspaces[id].devices { return Some(InvalidRotation), 0; }
      var w := workspaces[id];
      var d := w.devices[device];
      if d.revokedAt.Some? || d.tokenHash != Hash(token) || d.credentialVersion < 1 { return Some(InvalidRotation), 0; }
      rotation := rotation[Hash(code) := c.(consumedAt := Some(Millis(now)))];
      if d.status != Approved {
        rotation := before;
        return Some(InvalidRotation), 0;
      }
      if TokenTaken(workspaces, Hash(newToken)) {
        rotation := before;
        return Some(Conflict), 0;
      }
      var rotated := d.(tokenHash := Hash(newToken), credentialVersion := d.credentialVersion + 1);
      workspaces := workspaces[id := w.(devices := w.devices[device := rotated])];
      return None, d.credentialVersion + 1;
    }

    // ----------------------------------------------------- the same, by device reference

    /** A method that found no device to act on changed nothing. */
    twostate predicate Untouched()
      reads this
    {
      Contents() == old(Contents()) && history == old(history)
    }

    method ApprovePendingMembership(id: nat, reference: nat, roles: seq<int>, key: Key, now: Instant)
      returns (f: Failure, report: Option<Issued>, ghost who: Result<nat, ReferenceError>)
      requires Valid()
      modifies this
      ensures Valid() && Consistent(Contents(), f, rank)
      ensures roles == [] ==> f == Some(Refused(InvalidInput)) && Untouched()
      ensures roles != [] ==> Resolves(DevicesOf(old(workspaces), id), id, reference, referenceOf, who)
      ensures roles != [] && who.Err? ==> f == Some(Unresolved(who.error)) && Untouched()
      ensures roles != [] && who.Ok? ==>
                && history == Then(old(history), ApproveDevice(id, who.value, roles, key, now))
                && Performs(old(Contents()), ApproveDevice(id, who.value, roles, key, now), Contents(), f, rank)
                && (f.None? <==> id in old(workspaces)
                                 && ApproveAllowed(old(workspaces)[id], id, who.value, roles, key, Millis(now)))
      ensures f.None? ==>
                && report.Some? && who.Ok? && id in old(workspaces) && id in workspaces
                && Reports(report.value, old(workspaces)[id], workspaces[id], who.value)
                && who.value in old(workspaces)[id].devices
                && Grants(workspaces[id], who.value, old(workspaces)[id].devices[who.value].name, roles, Millis(now))
    {
      hide Good, Publishes, ApproveAllowed, Grants;
      AlwaysGood(history, rank);
      report, who := None, Err(NoSuchDevice);
      if |roles| == 0 { return Some(Refused(InvalidInput)), None, who; }
      var found := ResolveDeviceReference(DevicesOf(workspaces, id), id, reference, referenceOf);
      who := found;
      if found.Err? { return Some(Unresolved(found.error)), None, who; }
      ApprovePublishes(history, id, found.value, roles, key, now, rank);
      f := ApproveById(id, found.value, roles, key, now);
      if f.None? { report := Some(IssuedBy(old(workspaces)[id], workspaces[id], found.value)); }
    }

    method RenameDevice(id: nat, reference: nat, name: string, key: Key, now: Instant)
      returns (f: Failure, report: Option<Issued>, ghost who: Result<nat, ReferenceError>)
      requires Valid()
      modifies this
      ensures Valid() && Consistent(Contents(), f, rank)
      ensures !ValidName(name) ==> f == Some(Refused(InvalidInput)) && Untouched()
      ensures ValidName(name) ==> Resolves(DevicesOf(old(workspaces), id), id, reference, referenceOf, who)
      ensures ValidName(name) && who.Err? ==> f == Some(Unresolved(who.error)) && Untouched()
      ensures ValidName(name) && who.Ok? ==>
                && history == Then(old(history), Command.RenameDevice(id, who.value, name, key, now))
                && Performs(old(Contents()), Command.RenameDevice(id, who.value, name, key, now), Contents(), f, rank)
                && (f.None? <==> id in old(workspaces)
                                 && RenameAllowed(old(workspaces)[id], who.value, name, key, Millis(now)))
      ensures f.None? ==>
                && report.Some? && who.Ok? && id in old(workspaces) && id in workspaces
                && Reports(report.value, old(workspaces)[id], workspaces[id], who.value)
                && old(Exists(Contents(), id, who.value) && Row(Contents(), id, who.value).certificate.Some?)
                && Grants(workspaces[id], who.value, name,
                          old(Row(Contents(), id, who.value).certificate.value.certificate.roles), Millis(now))
    {
      hide Good, Publishes, RenameAllowed, Grants;
      AlwaysGood(history, rank);
      report, who := None, Err(NoSuchDevice);
      if !ValidName(name) { return Some(Refused(InvalidInput)), None, who; }
      var found := ResolveDeviceReference(DevicesOf(workspaces, id), id, reference, referenceOf);
      who := found;
      if found.Err? { return Some(Unresolved(found.error)), None, who; }
      RenamePublishes(history, id, found.value, name, key, now, rank);
      f := RenameById(id, found.value, name, key, now);
      if f.None? { report := Some(IssuedBy(old(workspaces)[id], workspaces[id], found.value)); }
    }

    /** The report holds an epoch and a digest exactly when a certified device was revoked. */
    method RevokeDevice(id: nat, reference: nat, key: Key, now: Instant)
      returns (f: Failure, changed: bool, report: Option<(int, RosterDigest)>, ghost who: Result<nat, ReferenceError>)
      requires Valid()
      modifies this
      ensures Valid() && Consistent(Contents(), f, rank)
      ensures Resolves(DevicesOf(old(workspaces), id), id, reference, referenceOf, who)
      ensures who.Err? ==> f == Some(Unresolved(who.error)) && Untouched()
      ensures who.Ok? ==>
                && history == Then(old(history), Command.RevokeDevice(id, who.value, key, now))
                && Performs(old(Contents()), Command.RevokeDevice(id, who.value, key, now), Contents(), f, rank)
                && (f.None? <==> id in old(workspaces)
                                 && RevokeOpen(old(workspaces)[id], who.value, key, Millis(now)))
      ensures changed <==> Contents() != old(Contents())
      ensures f.None? ==>
                && who.Ok? && id in old(workspaces) && id in workspaces
                && Revokes(old(workspaces)[id], workspaces[id], who.value, Millis(now))
                && (report.Some? <==> old(workspaces)[id].devices[who.value].status == Approved)
                && (report.Some? ==> report.value == (|workspaces[id].rosters|, LastDigest(workspaces[id])))
    {
      hide Good, RevokeOpen;
      AlwaysGood(history, rank);
      changed, report := false, None;
      var found := ResolveDeviceReference(DevicesOf(workspaces, id), id, reference, referenceOf);
      who := found;
      if found.Err? { return Some(Unresolved(found.error)), false, None, who; }
      var certified := DevicesOf(workspaces, id)[found.value].status == Approved;
      RevokePublishes(history, id, found.value, key, now, rank);
      f, changed := RevokeById(id, found.value, key, now);
      if f.None? && certified { report := Some((|workspaces[id].rosters|, LastDigest(workspaces[id]))); }
    }

    method IssueCredentialRotationCode(id: nat, reference: nat, code: nat, now: Instant, ttl: int)
      returns (f: Failure, ghost who: Result<nat, ReferenceError>)
      requires Valid()
      modifies this
      ensures Valid() && Consistent(Contents(), f, rank)
      ensures !(0 < ttl <= MAX_CODE_TTL) ==> f == Some(Refused(InvalidInput)) && Untouched()
      ensures 0 < ttl <= MAX_CODE_TTL ==> Resolves(DevicesOf(old(workspaces), id), id, reference, referenceOf, who)
      ensures 0 < ttl <= MAX_CODE_TTL && who.Err? ==> f == Some(Unresolved(who.error)) && Untouched()
      ensures 0 < ttl <= MAX_CODE_TTL && who.Ok? ==>
                && history == Then(old(history), IssueRotationCode(id, who.value, code, now, ttl))
                && Performs(old(Contents()), IssueRotationCode(id, who.value, code, now, ttl), Contents(), f, rank)
                && (f.None? <==>
                    IssueRotationOpen(old(history), IssueRotationCode(id, who.value, code, now, ttl), rank))
    {
      hide Good, IssueRotationOpen;
      AlwaysGood(history, rank);
      who := Err(NoSuchDevice);
      if ttl <= 0 || ttl > MAX_CODE_TTL { return Some(Refused(InvalidInput)), who; }
      var found := ResolveDeviceReference(DevicesOf(workspaces, id), id, reference, referenceOf);
      who := found;
      if found.Err? { return Some(Unresolved(found.error)), who; }
      f := IssueRotationById(id, found.value, code, now, ttl);
    }
  }
}
