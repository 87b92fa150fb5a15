/** The four roster transactions, each with its exact success condition and the soundness of its result. */
module WorkspaceOps {
  import opened Base
  import opened Membership
  import opened Workspace
  import opened WorkspaceLaws

  // ----------------------------------------------------------- publishing a roster

  /** What a next roster must say to continue the chain. */
  predicate Continues(id: nat, w: Tables, r: Roster) {
    && r.workspace == id && r.epoch == |w.rosters| + 1 && r.previousDigest == LastDigest(w)
    && (forall v | v in Revocations(w) :: v in r.revocations)
  }

  lemma AppendSound(id: nat, w: Tables, n: Tables, r: Roster, rank: Rank)
    requires Sound(id, w, rank) && Continues(id, w, r) && RosterValid(r, w.authorityKey, rank)
    requires n == w.(rosters := w.rosters + [SignRoster(r, w.authorityKey)], devices := n.devices)
    requires DevicesOk(id, n) && ActiveOk(n) && RevokedOk(n)
    ensures Sound(id, n, rank)
  {
    var s := SignRoster(r, w.authorityKey);
    KeyAtLatest(id, w, |w.rosters| + 1);
    assert RosterLinked(id, n, |w.rosters|, rank);
    ChainAppend(id, w, n, s, rank);
    KeysKeep(id, w, n, s);
    GrowsAppend(w, n, s);
    PermanentAppend(w, n, s);
  }

  lemma HeadValid(id: nat, w: Tables, r: Roster, rank: Rank)
    requires ChainOk(id, w, rank) && Continues(id, w, r)
    ensures RosterHeadValid(r) <==> id != 0 && |w.rosters| < MAX_INT64
  {
    if w.rosters != [] { assert RosterLinked(id, w, |w.rosters| - 1, rank); }
  }

  /** Certificates carried over stay valid in the next roster. */
  lemma ActiveCarries(id: nat, w: Tables, r: Roster, rank: Rank)
    requires ChainOk(id, w, rank) && KeysOk(id, w) && Continues(id, w, r)
    ensures forall c | c in Active(w) :: ActiveValid(c, r, w.authorityKey)
    ensures SortedByDevice(Active(w)) && |Active(w)| <= MAX_ACTIVE_CERTIFICATES
    ensures |Revocations(w)| <= MAX_REVOCATIONS && SortedByRank(Revocations(w), rank)
    ensures forall v | v in Revocations(w) :: RevocationBound(v)
  {
    if w.rosters != [] { LatestValid(id, w, rank); }
  }

  /** A certificate of a device that is not revoked is not in the revocation list. */
  lemma NotRevoked(id: nat, w: Tables, c: SignedCertificate, rank: Rank)
    requires ChainOk(id, w, rank) && DevicesOk(id, w) && RevokedOk(w)
    requires c.id == IdOf(c.certificate)
    requires c.certificate.device in w.devices && w.devices[c.certificate.device].status != Revoked
    ensures forall v | v in Revocations(w) :: v.certificateId != c.id
  {
    forall v | v in Revocations(w) ensures v.certificateId != c.id {
      RevokedId(id, w, v, rank);
    }
  }

  /** Certificates of devices that are not revoked may stand beside the revocation list. */
  lemma DisjointFromRevoked(id: nat, w: Tables, active: seq<SignedCertificate>, rank: Rank)
    requires ChainOk(id, w, rank) && DevicesOk(id, w) && RevokedOk(w)
    requires forall c | c in active ::
               c.id == IdOf(c.certificate) && c.certificate.device in w.devices
               && w.devices[c.certificate.device].status != Revoked
    ensures Disjoint(active, Revocations(w))
  {
    forall c, v | c in active && v in Revocations(w) ensures c.id != v.certificateId {
      NotRevoked(id, w, c, rank);
    }
  }

  // ------------------------------------------- one certificate added or replaced

  /** The next roster lists the new certificate and those of all other devices. */
  ghost predicate Swapped(w: Tables, r: Roster, signed: SignedCertificate) {
    && SortedByDevice(r.active)
    && (forall c ::
          c in r.active <==> c == signed || (c in Active(w) && c.certificate.device != signed.certificate.device))
    && r.revocations == Revocations(w)
  }

  lemma SwappedValid(id: nat, w: Tables, r: Roster, signed: SignedCertificate, rank: Rank)
    requires Sound(id, w, rank) && Continues(id, w, r) && Swapped(w, r, signed)
    requires SignedCertificateValid(signed, w.authorityKey)
    requires signed.certificate.workspace == id && signed.certificate.membershipEpoch == |w.rosters| + 1
    requires signed.certificate.device in w.devices && w.devices[signed.certificate.device].status != Revoked
    ensures RosterHeadValid(r) && RevocationsValid(r, rank)
    ensures ActivesValid(r, w.authorityKey) <==> |r.active| <= MAX_ACTIVE_CERTIFICATES
  {
    HeadValid(id, w, r, rank);
    ActiveCarries(id, w, r, rank);
    DisjointFromRevoked(id, w, r.active, rank);
  }

  lemma ApprovedActive(id: nat, w: Tables, x: nat)
    requires x in w.devices && DeviceOk(id, w, x, w.devices[x]) && w.devices[x].status == Approved
    ensures w.devices[x].certificate.Some? && w.devices[x].certificate.value in Active(w)
    ensures w.devices[x].certificate.value.certificate.device == x
  {
    assert w.devices[x].certificate.value in w.rosters[|w.rosters| - 1].roster.active;
  }

  lemma SwappedDevice(id: nat, w: Tables, n: Tables, s: SignedRoster, signed: SignedCertificate, x: nat)
    requires KeysOk(id, w) && DevicesOk(id, w) && Swapped(w, s.roster, signed)
    requires n.rosters == w.rosters + [s] && n.transitions == w.transitions
    requires x in w.devices && x != signed.certificate.device
    ensures DeviceOk(id, n, x, w.devices[x])
  {
    assert DeviceOk(id, w, x, w.devices[x]);
    if w.devices[x].status == Approved { ApprovedActive(id, w, x); }
    DeviceKeeps(id, w, n, s, x, w.devices[x]);
  }

  /** The device with the new certificate is certified from the new roster on, and the others stay as they were. */
  lemma SwappedDevices(id: nat, w: Tables, n: Tables, s: SignedRoster, signed: SignedCertificate, d: Device)
    requires KeysOk(id, w) && DevicesOk(id, w) && ActiveOk(w) && RevokedOk(w) && Swapped(w, s.roster, signed)
    requires n.rosters == w.rosters + [s] && n.transitions == w.transitions
    requires signed.certificate.membershipEpoch == |w.rosters| + 1
    requires signed.certificate.device in w.devices && w.devices[signed.certificate.device].status != Revoked
    requires n.devices == w.devices[signed.certificate.device := d]
    requires d.status == Approved && d.certificate == Some(signed) && d.revokedAt.None? && d.revokedEpoch.None?
    requires ValidName(d.name) && d.deviceType != Unspecified && Matches(id, signed.certificate.device, d, signed)
    ensures DevicesOk(id, n) && ActiveOk(n) && RevokedOk(n)
  {
    ActivationsBounded(id, w);
    assert Certified(n, signed, |n.rosters|);
    forall x | x in n.devices ensures DeviceOk(id, n, x, n.devices[x]) {
      if x != signed.certificate.device { SwappedDevice(id, w, n, s, signed, x); }
    }
  }

  // ----------------------------------------------------------------------- approve

  /** When approving a pending device succeeds. */
  predicate ApproveAllowed(w: Tables, id: nat, device: nat, roles: seq<int>, key: Key, now: int) {
    && device in w.devices && w.devices[device].status == PendingApproval
    && key == w.authorityKey && ValidRoles(roles) && Timestamp(now)
    && id != 0 && device != 0
    && |w.rosters| < MAX_INT64 && |Active(w)| < MAX_ACTIVE_CERTIFICATES
  }

  /** The tables after an approval: the certificate restates the device record at the new epoch. */
  function ApprovedTables(w: Tables, id: nat, device: nat, roles: seq<int>, now: int): Tables
    requires device in w.devices
  {
    var d, epoch := w.devices[device], |w.rosters| + 1;
    var signed := SignCertificate(NewCertificate(id, device, d, roles, now, epoch), w.authorityKey);
    var r := Roster(id, epoch, LastDigest(w), InsertByDevice(Active(w), signed), Revocations(w), []);
    var approved := Certify(d, signed).(status := Approved, challengeDigest := None, proofExpiresAt := None);
    w.(rosters := w.rosters + [SignRoster(r, w.authorityKey)], devices := w.devices[device := approved])
  }

  lemma ApproveSwaps(id: nat, w: Tables, signed: SignedCertificate)
    requires ActiveOk(w) && SortedByDevice(Active(w))
    requires signed.certificate.device in w.devices && w.devices[signed.certificate.device].status == PendingApproval
    ensures var active := InsertByDevice(Active(w), signed);
            Swapped(w, Roster(id, |w.rosters| + 1, LastDigest(w), active, Revocations(w), []), signed)
  {
    InsertByDeviceSorted(Active(w), signed);
  }

  /** Approval of a pending device, computed from the predecessor's contents. */
  lemma ApproveComputes(id: nat, w: Tables, device: nat, roles: seq<int>, now: int, rank: Rank)
    requires device in w.devices && w.devices[device].status == PendingApproval && w.devices[device].revokedAt.None?
    requires Prepare(w, w.authorityKey, rank) ==
             if |w.rosters| >= MAX_INT64 then Err(EpochExhausted)
             else Ok(Draft(|w.rosters| + 1, LastDigest(w), Active(w), Revocations(w)))
    ensures var n := ApprovedTables(w, id, device, roles, now);
            Approve(w, id, device, roles, w.authorityKey, now, rank) ==
            if roles == [] then Err(InvalidInput)
            else if |w.rosters| >= MAX_INT64 then Err(EpochExhausted)
            else if !CertificateValid(n.devices[device].certificate.value.certificate) then Err(InvalidCertificate)
            else if !RosterValid(n.rosters[|w.rosters|].roster, w.authorityKey, rank) then Err(InvalidRoster)
            else Ok(n)
  {
  }

  lemma ApproveValidRoster(id: nat, w: Tables, device: nat, roles: seq<int>, now: int, rank: Rank)
    requires Sound(id, w, rank) && device in w.devices && w.devices[device].status == PendingApproval
    requires CertificateValid(NewCertificate(id, device, w.devices[device], roles, now, |w.rosters| + 1))
    ensures var r := ApprovedTables(w, id, device, roles, now).rosters[|w.rosters|].roster;
            RosterValid(r, w.authorityKey, rank) <==> |Active(w)| < MAX_ACTIVE_CERTIFICATES
  {
    var n := ApprovedTables(w, id, device, roles, now);
    var r, signed := n.rosters[|w.rosters|].roster, n.devices[device].certificate.value;
    ActiveCarries(id, w, r, rank);
    ApproveSwaps(id, w, signed);
    SwappedValid(id, w, r, signed, rank);
  }

  predicate ApproveAsked(w: Tables, device: nat, key: Key) {
    device in w.devices && w.devices[device].status == PendingApproval && key == w.authorityKey
  }

  lemma ApproveRefused(id: nat, w: Tables, device: nat, roles: seq<int>, key: Key, now: int, rank: Rank)
    requires !ApproveAsked(w, device, key)
    ensures var r := Approve(w, id, device, roles, key, now, rank); r.Err? && !Inconsistency(r.error)
  {
  }

  lemma ApproveAccepted(id: nat, w: Tables, device: nat, roles: seq<int>, now: int, rank: Rank)
    requires Sound(id, w, rank) && ApproveAsked(w, device, w.authorityKey)
    ensures Approve(w, id, device, roles, w.authorityKey, now, rank) ==
            if roles == [] then Err(InvalidInput)
            else if |w.rosters| >= MAX_INT64 then Err(EpochExhausted)
            else if !(id != 0 && device != 0 && ValidRoles(roles) && Timestamp(now)) then Err(InvalidCertificate)
            else if |Active(w)| >= MAX_ACTIVE_CERTIFICATES then Err(InvalidRoster)
            else Ok(ApprovedTables(w, id, device, roles, now))
  {
    assert DeviceOk(id, w, device, w.devices[device]);
    PrepareExact(id, w, rank);
    ApproveComputes(id, w, device, roles, now, rank);
    if CertificateValid(NewCertificate(id, device, w.devices[device], roles, now, |w.rosters| + 1)) {
      ApproveValidRoster(id, w, device, roles, now, rank);
    }
  }

  /** The device's certificate, and what it grants since when. */
  predicate Grants(n: Tables, device: nat, name: string, roles: seq<int>, now: int) {
    && device in n.devices && n.devices[device].certificate.Some? && n.devices[device].name == name
    && var c := n.devices[device].certificate.value.certificate;
       c.device == device && c.displayName == name && c.roles == roles && c.issuedAt == now
       && c.membershipEpoch == |n.rosters|
  }

  /**
   Approval succeeds exactly when its inputs allow it, and then its tables are known: the certificate
   grants the roles asked for from the time given. No inconsistency between the tables is ever reported.
   */
  lemma ApproveExact(id: nat, w: Tables, device: nat, roles: seq<int>, key: Key, now: int, rank: Rank)
    requires Sound(id, w, rank)
    ensures var r := Approve(w, id, device, roles, key, now, rank);
            && (r.Ok? <==> ApproveAllowed(w, id, device, roles, key, now))
            && (r.Ok? ==> r.value == ApprovedTables(w, id, device, roles, now)
                          && Grants(r.value, device, w.devices[device].name, roles, now))
            && (r.Err? ==> !Inconsistency(r.error))
  {
    if ApproveAsked(w, device, key) {
      ApproveAccepted(id, w, device, roles, now, rank);
    } else {
      ApproveRefused(id, w, device, roles, key, now, rank);
    }
  }

  lemma ApproveSound(id: nat, w: Tables, device: nat, roles: seq<int>, now: int, rank: Rank)
    requires Sound(id, w, rank) && ApproveAllowed(w, id, device, roles, w.authorityKey, now)
    ensures Sound(id, ApprovedTables(w, id, device, roles, now), rank)
  {
    var n := ApprovedTables(w, id, device, roles, now);
    var d, s := n.devices[device], n.rosters[|w.rosters|];
    var signed := d.certificate.value;
    assert DeviceOk(id, w, device, w.devices[device]);
    ActiveCarries(id, w, s.roster, rank);
    ApproveSwaps(id, w, signed);
    SwappedValid(id, w, s.roster, signed, rank);
    SwappedDevices(id, w, n, s, signed, d);
    AppendSound(id, w, n, s.roster, rank);
  }

  // ------------------------------------------------------------------------ rename

  predicate RenameAllowed(w: Tables, device: nat, name: string, key: Key, now: int) {
    && ValidName(name) && device in w.devices && w.devices[device].status == Approved && w.devices[device].name != name
    && key == w.authorityKey && Timestamp(now) && |w.rosters| < MAX_INT64
  }

  /** The certificate a rename publishes: the old one with the name, the issue time and the epoch changed. */
  function Renamed(c: SignedCertificate, name: string, now: int, epoch: int, key: Key): SignedCertificate {
    SignCertificate(c.certificate.(displayName := name, issuedAt := now, membershipEpoch := epoch), key)
  }

  function RenamedRoster(w: Tables, id: nat, device: nat, name: string, now: int, stored: SignedCertificate): Roster
    requires TakeOut(Active(w), device, stored).Ok?
  {
    var epoch := |w.rosters| + 1;
    var signed := Renamed(stored, name, now, epoch, w.authorityKey);
    var t := CertificateTransition(id, device, stored.id, signed.id, epoch, LastDigest(w), DisplayName, now);
    Roster(id, epoch, LastDigest(w), InsertByDevice(TakeOut(Active(w), device, stored).value.0, signed), Revocations(w),
           [t])
  }

  /** The tables after a rename. */
  function RenamedTables(w: Tables, id: nat, device: nat, name: string, now: int): Tables
    requires device in w.devices && w.devices[device].certificate.Some?
    requires TakeOut(Active(w), device, w.devices[device].certificate.value).Ok?
  {
    var d := w.devices[device];
    var signed := Renamed(d.certificate.value, name, now, |w.rosters| + 1, w.authorityKey);
    w.(rosters := w.rosters + [SignRoster(RenamedRoster(w, id, device, name, now, d.certificate.value),
                                          w.authorityKey)],
       devices := w.devices[device := Certify(d, signed).(name := name)])
  }

  lemma RenameSwaps(id: nat, w: Tables, device: nat, name: string, now: int, stored: SignedCertificate)
    requires SortedByDevice(Active(w)) && stored in Active(w) && stored.certificate.device == device
    ensures TakeOut(Active(w), device, stored).Ok? && TakeOut(Active(w), device, stored).value.1
    ensures var r := RenamedRoster(w, id, device, name, now, stored);
            Swapped(w, r, Renamed(stored, name, now, |w.rosters| + 1, w.authorityKey)) && |r.active| == |Active(w)|
  {
    TakeOutFound(Active(w), device, stored);
    InsertByDeviceSorted(TakeOut(Active(w), device, stored).value.0,
                         Renamed(stored, name, now, |w.rosters| + 1, w.authorityKey));
  }

  /** A rename of an approved device, computed from the predecessor's contents. */
  lemma RenameComputes(id: nat, w: Tables, device: nat, name: string, now: int, rank: Rank)
    requires device in w.devices && w.devices[device].status == Approved && w.devices[device].revokedAt.None?
    requires ValidName(name) && w.devices[device].name != name && w.rosters != []
    requires var d := w.devices[device];
             && d.certificate.Some? && StoredCertificate(d, id, device, w.authorityKey) == d.certificate
             && d.certificate.value.certificate.displayName == d.name
             && TakeOut(Active(w), device, d.certificate.value).Ok?
             && TakeOut(Active(w), device, d.certificate.value).value.1
    requires Prepare(w, w.authorityKey, rank) ==
             if |w.rosters| >= MAX_INT64 then Err(EpochExhausted)
             else Ok(Draft(|w.rosters| + 1, LastDigest(w), Active(w), Revocations(w)))
    ensures var n := RenamedTables(w, id, device, name, now);
            Rename(w, id, device, name, w.authorityKey, now, rank) ==
            if |w.rosters| >= MAX_INT64 then Err(EpochExhausted)
            else if !CertificateValid(n.devices[device].certificate.value.certificate) then Err(InvalidCertificate)
            else if !RosterValid(n.rosters[|w.rosters|].roster, w.authorityKey, rank) then Err(InvalidRoster)
            else Ok(n)
  {
  }

  lemma RenameTransition(w: Tables, id: nat, device: nat, name: string, now: int, stored: SignedCertificate)
    requires w.rosters != [] && TakeOut(Active(w), device, stored).Ok? && stored.id == IdOf(stored.certificate)
    requires stored.certificate.displayName != name && stored.certificate.device == device && device != 0
    requires Timestamp(now)
    ensures TransitionsValid(RenamedRoster(w, id, device, name, now, stored))
  {
    var r := RenamedRoster(w, id, device, name, now, stored);
    assert Renamed(stored, name, now, |w.rosters| + 1, w.authorityKey) in r.active;
    assert Replaces(r.transitions[0], r.active);
  }

  lemma LatestActive(id: nat, w: Tables, rank: Rank)
    requires ChainOk(id, w, rank) && w.rosters != []
    ensures SortedByDevice(Active(w)) && |Active(w)| <= MAX_ACTIVE_CERTIFICATES
  {
    assert RosterLinked(id, w, |w.rosters| - 1, rank);
  }

  /** The stored certificate of an approved device can be taken out of the predecessor. */
  lemma RenameReady(id: nat, w: Tables, device: nat, rank: Rank)
    requires Sound(id, w, rank) && device in w.devices && w.devices[device].status == Approved
    ensures var d := w.devices[device];
            && d.revokedAt.None? && d.certificate.Some?
            && StoredCertificate(d, id, device, w.authorityKey) == d.certificate
            && SignedCertificateValid(d.certificate.value, w.authorityKey)
            && Matches(id, device, d, d.certificate.value)
            && d.certificate.value in Active(w)
            && TakeOut(Active(w), device, d.certificate.value).Ok?
            && TakeOut(Active(w), device, d.certificate.value).value.1
    ensures w.rosters != [] && SortedByDevice(Active(w)) && |Active(w)| <= MAX_ACTIVE_CERTIFICATES
  {
    ApprovedCertificate(id, w, device, rank);
    LatestActive(id, w, rank);
    TakeOutFound(Active(w), device, w.devices[device].certificate.value);
  }

  lemma RenameValidRoster(id: nat, w: Tables, device: nat, name: string, now: int, rank: Rank)
    requires Sound(id, w, rank) && RenameAllowed(w, device, name, w.authorityKey, now)
    requires w.devices[device].certificate.Some? && TakeOut(Active(w), device, w.devices[device].certificate.value).Ok?
    ensures var r := RenamedRoster(w, id, device, name, now, w.devices[device].certificate.value);
            Continues(id, w, r) && RosterValid(r, w.authorityKey, rank)
    ensures var n := RenamedTables(w, id, device, name, now);
            Swapped(w, n.rosters[|w.rosters|].roster, n.devices[device].certificate.value)
  {
    RenameReady(id, w, device, rank);
    var stored := w.devices[device].certificate.value;
    RenameSwaps(id, w, device, name, now, stored);
    RenameTransition(w, id, device, name, now, stored);
    var r := RenamedRoster(w, id, device, name, now, stored);
    var signed := Renamed(stored, name, now, |w.rosters| + 1, w.authorityKey);
    SwappedValid(id, w, r, signed, rank);
  }

  predicate RenameAsked(w: Tables, device: nat, name: string, key: Key) {
    && ValidName(name) && device in w.devices && w.devices[device].status == Approved && w.devices[device].name != name
    && key == w.authorityKey
  }

  lemma RenameRefused(id: nat, w: Tables, device: nat, name: string, key: Key, now: int, rank: Rank)
    requires !RenameAsked(w, device, name, key)
    ensures var r := Rename(w, id, device, name, key, now, rank); r.Err? && !Inconsistency(r.error)
  {
  }

  lemma RenameAccepted(id: nat, w: Tables, device: nat, name: string, now: int, rank: Rank)
    requires Sound(id, w, rank) && RenameAsked(w, device, name, w.authorityKey)
    ensures w.devices[device].certificate.Some? && TakeOut(Active(w), device, w.devices[device].certificate.value).Ok?
    ensures Rename(w, id, device, name, w.authorityKey, now, rank) ==
            if |w.rosters| >= MAX_INT64 then Err(EpochExhausted)
            else if !Timestamp(now) then Err(InvalidCertificate)
            else Ok(RenamedTables(w, id, device, name, now))
  {
    RenameReady(id, w, device, rank);
    PrepareExact(id, w, rank);
    RenameComputes(id, w, device, name, now, rank);
    if RenameAllowed(w, device, name, w.authorityKey, now) { RenameValidRoster(id, w, device, name, now, rank); }
  }

  /** A rename succeeds exactly when its inputs allow it; no inconsistency between the tables is ever reported. */
  lemma RenameExact(id: nat, w: Tables, device: nat, name: string, key: Key, now: int, rank: Rank)
    requires Sound(id, w, rank)
    ensures var r := Rename(w, id, device, name, key, now, rank);
            && (r.Ok? <==> RenameAllowed(w, device, name, key, now))
            && (r.Err? ==> !Inconsistency(r.error))
            && (r.Ok? ==> w.devices[device].certificate.Some?
                          && TakeOut(Active(w), device, w.devices[device].certificate.value).Ok?
                          && r.value == RenamedTables(w, id, device, name, now)
                          && Grants(r.value, device, name, w.devices[device].certificate.value.certificate.roles, now))
  {
    assert device in w.devices ==> DeviceOk(id, w, device, w.devices[device]);
    if RenameAsked(w, device, name, key) {
      RenameAccepted(id, w, device, name, now, rank);
    } else {
      RenameRefused(id, w, device, name, key, now, rank);
    }
  }

  lemma RenameSound(id: nat, w: Tables, device: nat, name: string, now: int, rank: Rank)
    requires Sound(id, w, rank) && RenameAllowed(w, device, name, w.authorityKey, now)
    requires w.devices[device].certificate.Some? && TakeOut(Active(w), device, w.devices[device].certificate.value).Ok?
    ensures Sound(id, RenamedTables(w, id, device, name, now), rank)
  {
    RenameReady(id, w, device, rank);
    RenameValidRoster(id, w, device, name, now, rank);
    assert DeviceOk(id, w, device, w.devices[device]);
    var n := RenamedTables(w, id, device, name, now);
    var d, s := n.devices[device], n.rosters[|w.rosters|];
    SwappedDevices(id, w, n, s, d.certificate.value, d);
    AppendSound(id, w, n, s.roster, rank);
  }

  // ------------------------------------------------------------------------ revoke

  /** When revoking a certified device succeeds. */
  predicate RevokeAllowed(w: Tables, device: nat, key: Key, now: int) {
    && device in w.devices && w.devices[device].status == Approved && key == w.authorityKey && Timestamp(now)
    && |w.rosters| < MAX_INT64 && |Revocations(w)| < MAX_REVOCATIONS
  }

  function RevokedRoster(w: Tables, id: nat, device: nat, now: int, stored: SignedCertificate, rank: Rank): Roster
    requires TakeOut(Active(w), device, stored).Ok?
  {
    Roster(id, |w.rosters| + 1, LastDigest(w), TakeOut(Active(w), device, stored).value.0,
           InsertByRank(Revocations(w), Revocation(stored.id, device, now), rank), [])
  }

  /** The tables after the revocation of a certified device. */
  function RevokedTables(w: Tables, id: nat, device: nat, now: int, rank: Rank): Tables
    requires device in w.devices && w.devices[device].certificate.Some?
    requires TakeOut(Active(w), device, w.devices[device].certificate.value).Ok?
  {
    var d := w.devices[device];
    w.(rosters := w.rosters + [SignRoster(RevokedRoster(w, id, device, now, d.certificate.value, rank),
                                          w.authorityKey)],
       devices := w.devices[device := d.(revokedAt := Some(now), status := Revoked,
                                         revokedEpoch := Some(|w.rosters| + 1))])
  }

  /** Revocation of a certified device, computed from the predecessor's contents. */
  lemma RevokeComputes(id: nat, w: Tables, device: nat, now: int, rank: Rank)
    requires device in w.devices && w.devices[device].status == Approved && w.devices[device].revokedAt.None?
    requires w.rosters != []
    requires var d := w.devices[device];
             && d.certificate.Some? && StoredCertificate(d, id, device, w.authorityKey) == d.certificate
             && d.certificateId == Some(d.certificate.value.id)
             && TakeOut(Active(w), device, d.certificate.value).Ok?
             && TakeOut(Active(w), device, d.certificate.value).value.1
    requires Prepare(w, w.authorityKey, rank) ==
             if |w.rosters| >= MAX_INT64 then Err(EpochExhausted)
             else Ok(Draft(|w.rosters| + 1, LastDigest(w), Active(w), Revocations(w)))
    ensures var n := RevokedTables(w, id, device, now, rank);
            Revoke(w, id, device, w.authorityKey, now, rank) ==
            if |w.rosters| >= MAX_INT64 then Err(EpochExhausted)
            else if !RosterValid(n.rosters[|w.rosters|].roster, w.authorityKey, rank) then Err(InvalidRoster)
            else Ok(n)
  {
  }

  /** The revoked certificate joins a list that does not hold it yet, and leaves the active list. */
  lemma RevokedList(id: nat, w: Tables, device: nat, now: int, rank: Rank)
    requires Sound(id, w, rank) && device in w.devices && w.devices[device].status == Approved
    requires w.devices[device].certificate.Some? && TakeOut(Active(w), device, w.devices[device].certificate.value).Ok?
    ensures var r := RevokedRoster(w, id, device, now, w.devices[device].certificate.value, rank);
            && SortedByDevice(r.active) && |r.active| <= |Active(w)|
            && (forall c :: c in r.active <==> c in Active(w) && c.certificate.device != device)
            && SortedByRank(r.revocations, rank) && |r.revocations| == |Revocations(w)| + 1
            && Disjoint(r.active, r.revocations)
  {
    RenameReady(id, w, device, rank);
    var stored := w.devices[device].certificate.value;
    TakeOutFound(Active(w), device, stored);
    NotRevoked(id, w, stored, rank);
    var r := RevokedRoster(w, id, device, now, stored, rank);
    ActiveCarries(id, w, r, rank);
    InsertByRankSorted(Revocations(w), Revocation(stored.id, device, now), rank);
    DisjointFromRevoked(id, w, r.active, rank);
  }

  lemma RevokedRosterParts(r: Roster, v: Revocation, k: nat, key: Key, rank: Rank)
    requires RosterHeadValid(r) && ActivesValid(r, key) && r.transitions == []
    requires SortedByRank(r.revocations, rank) && Disjoint(r.active, r.revocations) && |r.revocations| == k + 1
    requires v in r.revocations && !v.certificateId.ZeroId? && v.device != 0
    requires forall x | x in r.revocations :: x == v || RevocationBound(x)
    ensures RosterValid(r, key, rank) <==> Timestamp(v.revokedAt) && k < MAX_REVOCATIONS
  {
    if RosterValid(r, key, rank) { assert RevocationBound(v); }
  }

  lemma RevokeValidRoster(id: nat, w: Tables, device: nat, now: int, rank: Rank)
    requires Sound(id, w, rank) && device in w.devices && w.devices[device].status == Approved
    requires |w.rosters| < MAX_INT64
    requires w.devices[device].certificate.Some? && TakeOut(Active(w), device, w.devices[device].certificate.value).Ok?
    ensures var r := RevokedRoster(w, id, device, now, w.devices[device].certificate.value, rank);
            && Continues(id, w, r)
            && (RosterValid(r, w.authorityKey, rank) <==> Timestamp(now) && |Revocations(w)| < MAX_REVOCATIONS)
  {
    RenameReady(id, w, device, rank);
    var stored := w.devices[device].certificate.value;
    RevokedList(id, w, device, now, rank);
    var r := RevokedRoster(w, id, device, now, stored, rank);
    HeadValid(id, w, r, rank);
    ActiveCarries(id, w, r, rank);
    RevokedRosterParts(r, Revocation(stored.id, device, now), |Revocations(w)|, w.authorityKey, rank);
  }

  /** What RevokeDevice does, case by case, under a sound workspace. */
  lemma RevokeExact(id: nat, w: Tables, device: nat, key: Key, now: int, rank: Rank)
    requires Sound(id, w, rank)
    ensures var r := Revoke(w, id, device, key, now, rank);
            && (device !in w.devices ==> r == Err(DeviceNotFound))
            && (r.Err? ==> !Inconsistency(r.error))
            && (device in w.devices ==>
                  var d := w.devices[device];
                  && (d.status == Revoked ==> r == Ok(w))
                  && (d.status == PendingProof || d.status == PendingApproval ==>
                        r == Ok(w.(devices := w.devices[device := d.(revokedAt := Some(now), status := Revoked)])))
                  && (d.status == Approved ==>
                        && (r.Ok? <==> RevokeAllowed(w, device, key, now))
                        && d.certificate.Some? && TakeOut(Active(w), device, d.certificate.value).Ok?
                        && (r.Ok? ==> r.value == RevokedTables(w, id, device, now, rank))))
  {
    if device in w.devices && w.devices[device].status == Approved {
      RevokeApproved(id, w, device, key, now, rank);
    } else {
      RevokeUncertified(id, w, device, key, now, rank);
    }
  }

  lemma RevokeUncertified(id: nat, w: Tables, device: nat, key: Key, now: int, rank: Rank)
    requires DevicesOk(id, w) && (device in w.devices ==> w.devices[device].status != Approved)
    ensures Revoke(w, id, device, key, now, rank) ==
            if device !in w.devices then Err(DeviceNotFound)
            else if w.devices[device].status == Revoked then Ok(w)
            else Ok(w.(devices := w.devices[device := w.devices[device].(revokedAt := Some(now), status := Revoked)]))
  {
    if device in w.devices { assert DeviceOk(id, w, device, w.devices[device]); }
  }

  lemma RevokeApproved(id: nat, w: Tables, device: nat, key: Key, now: int, rank: Rank)
    requires Sound(id, w, rank) && device in w.devices && w.devices[device].status == Approved
    ensures w.devices[device].certificate.Some? && TakeOut(Active(w), device, w.devices[device].certificate.value).Ok?
    ensures Revoke(w, id, device, key, now, rank) ==
            if key != w.authorityKey then Err(AuthorityUnavailable)
            else if |w.rosters| >= MAX_INT64 then Err(EpochExhausted)
            else if !(Timestamp(now) && |Revocations(w)| < MAX_REVOCATIONS) then Err(InvalidRoster)
            else Ok(RevokedTables(w, id, device, now, rank))
  {
    RenameReady(id, w, device, rank);
    if key == w.authorityKey {
      PrepareExact(id, w, rank);
      RevokeComputes(id, w, device, now, rank);
      if |w.rosters| < MAX_INT64 { RevokeValidRoster(id, w, device, now, rank); }
    }
  }

  lemma RevokedDevices(id: nat, w: Tables, n: Tables, s: SignedRoster, device: nat, d: Device)
    requires KeysOk(id, w) && DevicesOk(id, w) && ActiveOk(w) && RevokedOk(w)
    requires n.rosters == w.rosters + [s] && n.transitions == w.transitions && w.rosters != []
    requires device in w.devices && w.devices[device].status == Approved && n.devices == w.devices[device := d]
    requires d == w.devices[device].(revokedAt := d.revokedAt, status := Revoked, revokedEpoch := Some(|w.rosters| + 1))
    requires d.revokedAt.Some?
    requires d.certificate.Some?
    requires forall c :: c in s.roster.active <==> c in Active(w) && c.certificate.device != device
    requires exists v :: v in s.roster.revocations && v.device == device && v.certificateId == d.certificate.value.id
    requires forall v | v in s.roster.revocations ::
               v in Revocations(w) || v == Revocation(d.certificate.value.id, device, d.revokedAt.value)
    ensures DevicesOk(id, n) && ActiveOk(n) && RevokedOk(n)
  {
    ActivationsBounded(id, w);
    assert DeviceOk(id, w, device, w.devices[device]);
    CertifiedKeeps(w, n, s, d.certificate.value, |w.rosters|);
    assert RevokedAt(n, device, d.certificate.value, |n.rosters|);
    forall x | x in n.devices ensures DeviceOk(id, n, x, n.devices[x]) {
      if x != device {
        assert DeviceOk(id, w, x, w.devices[x]);
        if w.devices[x].status == Approved { ApprovedActive(id, w, x); }
        DeviceKeeps(id, w, n, s, x, w.devices[x]);
      }
    }
  }

  lemma RevokeSound(id: nat, w: Tables, device: nat, now: int, rank: Rank)
    requires Sound(id, w, rank) && RevokeAllowed(w, device, w.authorityKey, now)
    requires w.devices[device].certificate.Some? && TakeOut(Active(w), device, w.devices[device].certificate.value).Ok?
    ensures Sound(id, RevokedTables(w, id, device, now, rank), rank)
  {
    RenameReady(id, w, device, rank);
    RevokeValidRoster(id, w, device, now, rank);
    RevokedList(id, w, device, now, rank);
    var n := RevokedTables(w, id, device, now, rank);
    var d, s := n.devices[device], n.rosters[|w.rosters|];
    assert Revocation(d.certificate.value.id, device, now) in s.roster.revocations;
    RevokedDevices(id, w, n, s, device, d);
    AppendSound(id, w, n, s.roster, rank);
  }

  // ---------------------------------------------------------- rows without a roster

  /** A change to one row that keeps what rosters say about the device. */
  lemma RowSound(id: nat, w: Tables, device: nat, d: Device, rank: Rank)
    requires Sound(id, w, rank) && DeviceOk(id, w, device, d)
    requires device in w.devices ==>
               var o := w.devices[device];
               && (o.status == Approved ==> d.status == Approved && d.certificate == o.certificate)
               && (o.status == Revoked ==>
                     d.status == Revoked && d.certificateId == o.certificateId && d.revokedAt == o.revokedAt)
    ensures Sound(id, w.(devices := w.devices[device := d]), rank)
  {
    var n := w.(devices := w.devices[device := d]);
    forall i | 0 <= i < |n.rosters| ensures RosterLinked(id, n, i, rank) { assert RosterLinked(id, w, i, rank); }
    forall i | 0 <= i < |n.transitions| ensures TransitionLinked(id, n, i) { assert TransitionLinked(id, w, i); }
    forall x | x in n.devices ensures DeviceOk(id, n, x, n.devices[x]) {
      assert DeviceOk(id, w, x, n.devices[x]);
      SameRosters(id, w, n, x, n.devices[x]);
    }
  }

  lemma SameRosters(id: nat, w: Tables, n: Tables, x: nat, d: Device)
    requires DeviceOk(id, w, x, d) && n.rosters == w.rosters && n.transitions == w.transitions
    ensures DeviceOk(id, n, x, d)
  {
    if d.status == Revoked && d.certificate.Some? {
      assert Certified(n, d.certificate.value, d.revokedEpoch.value - 1);
    }
  }
}
