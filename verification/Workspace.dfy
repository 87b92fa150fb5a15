/**
 One workspace's tables as a value, and the membership transactions on it. Each
 transaction is a function from the tables to the new tables or an error, with the
 checks in the order of the store's methods; an error leaves the tables alone.
 */
module Workspace {
  import opened Base
  import opened Membership

  datatype Hash = Hash(preimage: nat)

  datatype Status = PendingProof | PendingApproval | Approved | Revoked

  datatype Device = Device(
    deviceType: DeviceType,
    name: string,
    tokenHash: Hash,
    identityKey: nat,
    status: Status,
    challengeDigest: Option<nat>,
    secretHash: Option<Hash>,
    proofExpiresAt: Option<int>,
    proofCompletedAt: Option<int>,
    certificateId: Option<CertificateId>,
    certificate: Option<SignedCertificate>,
    revokedAt: Option<int>,
    revokedEpoch: Option<int>,
    credentialVersion: int)

  /** Rosters and transitions are kept in the order of their epochs. */
  datatype Tables = Tables(
    authorityKey: Key,
    authorityEpoch: int,
    transitionDigest: TransitionDigest,
    rosters: seq<SignedRoster>,
    transitions: seq<SignedKeyTransition>,
    devices: map<nat, Device>)

  datatype AdmissionError =
    | InvalidInput
    | AuthorityUnavailable
    | DeviceNotFound
    | EpochExhausted
    | InvalidCertificate
    | InvalidRoster
    | InvalidKeyTransition
    | NothingToRotate
    // inconsistencies between tables; never reached from an empty store
    | CorruptRoster
    | CorruptCertificate
    | MissingRoster
    | CertificateMismatch
    | CertificateNotActive
    | InvalidRename

  /** The errors that report tables contradicting each other. */
  predicate Inconsistency(e: AdmissionError) {
    e.CorruptRoster? || e.CorruptCertificate? || e.MissingRoster? || e.CertificateMismatch?
    || e.CertificateNotActive? || e.InvalidRename?
  }

  function Active(w: Tables): seq<SignedCertificate> {
    if w.rosters == [] then [] else w.rosters[|w.rosters| - 1].roster.active
  }

  function Revocations(w: Tables): seq<Revocation> {
    if w.rosters == [] then [] else w.rosters[|w.rosters| - 1].roster.revocations
  }

  function LastDigest(w: Tables): RosterDigest {
    if w.rosters == [] then ZeroRoster else w.rosters[|w.rosters| - 1].digest
  }

  /** What prepareNextWorkspaceRoster hands to its callers. */
  datatype Draft = Draft(epoch: int, previousDigest: RosterDigest, active: seq<SignedCertificate>,
                         revocations: seq<Revocation>)

  function Prepare(w: Tables, key: Key, rank: Rank): Result<Draft, AdmissionError> {
    if w.rosters == [] then Ok(Draft(1, ZeroRoster, [], []))
    else
      var previous := w.rosters[|w.rosters| - 1];
      if !SignedRosterValid(previous, key, rank) then Err(CorruptRoster)
      else if previous.roster.epoch >= MAX_INT64 then Err(EpochExhausted)
      else Ok(Draft(previous.roster.epoch + 1, previous.digest, previous.roster.active, previous.roster.revocations))
  }

  /** The certificate list with one more certificate, sorted by device. */
  function InsertByDevice(active: seq<SignedCertificate>, c: SignedCertificate): (r: seq<SignedCertificate>)
    ensures |r| == |active| + 1 && forall x :: x in r <==> x in active || x == c
  {
    if active == [] || c.certificate.device < active[0].certificate.device then [c] + active
    else
      assert active == [active[0]] + active[1..];
      [active[0]] + InsertByDevice(active[1..], c)
  }

  /** The revocation list with one more revocation, sorted by certificate id. */
  function InsertByRank(vs: seq<Revocation>, v: Revocation, rank: Rank): (r: seq<Revocation>)
    ensures |r| == |vs| + 1 && forall x :: x in r <==> x in vs || x == v
  {
    if vs == [] || rank(v.certificateId) < rank(vs[0].certificateId) then [v] + vs
    else
      assert vs == [vs[0]] + vs[1..];
      [vs[0]] + InsertByRank(vs[1..], v, rank)
  }

  /** The loop that takes one device out of the active list and checks it against the device record. */
  function TakeOut(active: seq<SignedCertificate>, device: nat, stored: SignedCertificate)
    : Result<(seq<SignedCertificate>, bool), AdmissionError>
  {
    if active == [] then Ok(([], false))
    else
      var c, n := active[|active| - 1], |active| - 1;
      match TakeOut(active[..n], device, stored)
      case Err(e) => Err(e)
      case Ok((kept, found)) =>
        if c.certificate.device != device then Ok((kept + [c], found))
        else if c != stored then Err(CertificateMismatch)
        else Ok((kept, true))
  }

  /** Signs and stores the next roster together with the device changes. */
  function Publish(w: Tables, r: Roster, devices: map<nat, Device>, key: Key,
                   rank: Rank): Result<Tables, AdmissionError> {
    if !RosterValid(r, key, rank) then Err(InvalidRoster)
    else Ok(w.(rosters := w.rosters + [SignRoster(r, key)], devices := devices))
  }

  // --------------------------------------------------------------- transactions

  function NewCertificate(id: nat, device: nat, d: Device, roles: seq<int>, now: int, epoch: int): Certificate {
    Certificate(id, device, d.deviceType, d.name, roles, d.identityKey, now, 0, epoch)
  }

  function Certify(d: Device, c: SignedCertificate): Device {
    d.(certificateId := Some(c.id), certificate := Some(c))
  }

  /** ApprovePendingMembership. */
  function Approve(w: Tables, id: nat, device: nat, roles: seq<int>, key: Key, now: int, rank: Rank)
    : Result<Tables, AdmissionError>
  {
    if roles == [] then Err(InvalidInput)
    else if device !in w.devices then Err(DeviceNotFound)
    else if key != w.authorityKey then Err(AuthorityUnavailable)
    else
      var d := w.devices[device];
      if d.revokedAt.Some? || d.status != PendingApproval then Err(DeviceNotFound)
      else match Prepare(w, key, rank)
        case Err(e) => Err(e)
        case Ok(draft) =>
          var c := NewCertificate(id, device, d, roles, now, draft.epoch);
          if !CertificateValid(c) then Err(InvalidCertificate)
          else
            var signed := SignCertificate(c, key);
            var approved := Certify(d, signed).(status := Approved, challengeDigest := None, proofExpiresAt := None);
            Publish(w,
                    Roster(id, draft.epoch, draft.previousDigest, InsertByDevice(draft.active, signed),
                           draft.revocations, []),
                    w.devices[device := approved], key, rank)
  }

  /** The stored certificate of a device, when it is what the device record says. */
  function StoredCertificate(d: Device, id: nat, device: nat, key: Key): Option<SignedCertificate> {
    if d.certificate.None? then None
    else
      var c := d.certificate.value;
      if !SignedCertificateValid(c, key) || d.certificateId != Some(c.id)
         || c.certificate.workspace != id || c.certificate.device != device
      then None
      else Some(c)
  }

  /** RenameDevice. */
  function Rename(w: Tables, id: nat, device: nat, name: string, key: Key, now: int, rank: Rank)
    : Result<Tables, AdmissionError>
  {
    if !ValidName(name) then Err(InvalidInput)
    else if device !in w.devices then Err(DeviceNotFound)
    else
      var d := w.devices[device];
      if d.status != Approved || d.revokedAt.Some? || d.name == name then Err(DeviceNotFound)
      else if key != w.authorityKey then Err(AuthorityUnavailable)
      else match StoredCertificate(d, id, device, key)
        case None => Err(CorruptCertificate)
        case Some(stored) =>
          if stored.certificate.displayName != d.name then Err(CorruptCertificate)
          else match Prepare(w, key, rank)
            case Err(e) => Err(e)
            case Ok(draft) => RenameWith(w, id, device, name, key, now, rank, stored, draft)
  }

  /** The second half of RenameDevice, once the predecessor roster is known. */
  function RenameWith(w: Tables, id: nat, device: nat, name: string, key: Key, now: int, rank: Rank,
                      stored: SignedCertificate, draft: Draft): Result<Tables, AdmissionError>
    requires device in w.devices
  {
    if draft.epoch == 1 then Err(MissingRoster)
    else match TakeOut(draft.active, device, stored)
      case Err(e) => Err(e)
      case Ok((others, found)) =>
        if !found then Err(CertificateNotActive)
        else
          var c := stored.certificate.(displayName := name, issuedAt := now, membershipEpoch := draft.epoch);
          if !CertificateValid(c) then Err(InvalidCertificate)
          else
            var signed := SignCertificate(c, key);
            var t := CertificateTransition(id, device, stored.id, signed.id, draft.epoch, draft.previousDigest,
                                           DisplayName, now);
            if !RenameValid(stored, signed, t) then Err(InvalidRename)
            else
              Publish(w,
                      Roster(id, draft.epoch, draft.previousDigest, InsertByDevice(others, signed), draft.revocations,
                             [t]),
                      w.devices[device := Certify(w.devices[device], signed).(name := name)], key, rank)
  }

  /** RevokeDevice; a device that was never certified leaves no trace in a roster. */
  function Revoke(w: Tables, id: nat, device: nat, key: Key, now: int, rank: Rank): Result<Tables, AdmissionError> {
    if device !in w.devices then Err(DeviceNotFound)
    else
      var d := w.devices[device];
      if d.revokedAt.Some? then Ok(w)
      else if d.status != Approved then
        Ok(w.(devices := w.devices[device := d.(revokedAt := Some(now), status := Revoked)]))
      else if d.certificateId.None? || d.certificate.None? || key != w.authorityKey then Err(AuthorityUnavailable)
      else match Prepare(w, key, rank)
        case Err(e) => Err(e)
        case Ok(draft) => RevokeWith(w, id, device, key, now, rank, draft)
  }

  /** The certified half of RevokeDevice. */
  function RevokeWith(w: Tables, id: nat, device: nat, key: Key, now: int, rank: Rank, draft: Draft)
    : Result<Tables, AdmissionError>
    requires device in w.devices && w.devices[device].certificateId.Some?
  {
    var d := w.devices[device];
    if draft.epoch == 1 then Err(MissingRoster)
    else match StoredCertificate(d, id, device, key)
      case None => Err(CorruptCertificate)
      case Some(stored) =>
        match TakeOut(draft.active, device, stored)
        case Err(e) => Err(e)
        case Ok((others, found)) =>
          if !found then Err(CertificateNotActive)
          else
            var v := Revocation(d.certificateId.value, device, now);
            Publish(w,
                    Roster(id, draft.epoch, draft.previousDigest, others, InsertByRank(draft.revocations, v, rank), []),
                    w.devices[device := d.(revokedAt := Some(now), status := Revoked,
                                           revokedEpoch := Some(draft.epoch))],
                    key, rank)
  }

  /** A certificate as the new authority reissues it. */
  function Reissued(c: SignedCertificate, key: Key, epoch: int, now: int): SignedCertificate {
    SignCertificate(c.certificate.(issuedAt := now, membershipEpoch := epoch), key)
  }

  /** The reissue loop: new certificates, and the device rows that must hold the old ones. */
  function ReissueAll(devices: map<nat, Device>, active: seq<SignedCertificate>, key: Key, epoch: int, now: int)
    : Result<(map<nat, Device>, seq<SignedCertificate>), AdmissionError>
  {
    if active == [] then Ok((devices, []))
    else
      match ReissueAll(devices, active[..|active| - 1], key, epoch, now)
      case Err(e) => Err(e)
      case Ok((done, reissued)) =>
        var c := active[|active| - 1];
        var renewed := Reissued(c, key, epoch, now);
        if !CertificateValid(renewed.certificate) then Err(InvalidCertificate)
        else if c.certificate.device !in done || done[c.certificate.device].certificateId != Some(c.id)
                || done[c.certificate.device].status != Approved || done[c.certificate.device].revokedAt.Some?
        then Err(CertificateMismatch)
        else Ok((done[c.certificate.device := Certify(done[c.certificate.device], renewed)], reissued + [renewed]))
  }

  /** RotateWorkspaceAuthority. */
  function Rotate(w: Tables, id: nat, previousKey: Key, newKey: Key, now: int,
                  rank: Rank): Result<Tables, AdmissionError> {
    if previousKey == newKey then Err(InvalidInput)
    else if previousKey != w.authorityKey || w.authorityEpoch < 1 then Err(AuthorityUnavailable)
    else if w.authorityEpoch == MAX_INT64 then Err(EpochExhausted)
    else if w.rosters == [] then Err(NothingToRotate)
    else
      var previous := w.rosters[|w.rosters| - 1];
      if !SignedRosterValid(previous, previousKey, rank) then Err(CorruptRoster)
      else if previous.roster.epoch >= MAX_INT64 then Err(EpochExhausted)
      else
        var epoch := previous.roster.epoch + 1;
        var t := KeyTransition(id, w.authorityEpoch + 1, w.transitionDigest, previousKey, newKey, epoch,
                               previous.digest, now);
        if !KeyTransitionValid(t) then Err(InvalidKeyTransition)
        else match ReissueAll(w.devices, previous.roster.active, newKey, epoch, now)
          case Err(e) => Err(e)
          case Ok((devices, active)) =>
            match Publish(w, Roster(id, epoch, previous.digest, active, previous.roster.revocations, []), devices,
                          newKey, rank)
            case Err(e) => Err(e)
            case Ok(n) =>
              Ok(n.(authorityKey := newKey, authorityEpoch := w.authorityEpoch + 1,
                    transitionDigest := TransitionDigestOf(t),
                    transitions := w.transitions + [SignKeyTransition(t)]))
  }

  // ------------------------------------------------------------------ invariant

  /** The authority key in force at a roster epoch: the transitions folded back from the current key. */
  function KeyAt(ts: seq<SignedKeyTransition>, current: Key, epoch: int): Key {
    if ts == [] then current
    else
      var last := ts[|ts| - 1].transition;
      if last.activationEpoch <= epoch then current else KeyAt(ts[..|ts| - 1], last.previousKey, epoch)
  }

  predicate RosterLinked(id: nat, w: Tables, i: nat, rank: Rank)
    requires i < |w.rosters|
  {
    var s := w.rosters[i];
    && s.roster.workspace == id && s.roster.epoch == i + 1
    && s.roster.previousDigest == (if i == 0 then ZeroRoster else w.rosters[i - 1].digest)
    && SignedRosterValid(s, KeyAt(w.transitions, w.authorityKey, i + 1), rank)
  }

  /** Contiguous from epoch 1, linked by digests, each roster valid under the key of its epoch. */
  predicate ChainOk(id: nat, w: Tables, rank: Rank) {
    forall i | 0 <= i < |w.rosters| :: RosterLinked(id, w, i, rank)
  }

  predicate TransitionLinked(id: nat, w: Tables, i: nat)
    requires i < |w.transitions|
  {
    var s := w.transitions[i];
    && SignedKeyTransitionValid(s)
    && s.transition.workspace == id && s.transition.epoch == i + 2
    && s.transition.previousDigest == (if i == 0 then ZeroTransition else w.transitions[i - 1].digest)
    && (i > 0 ==> s.transition.previousKey == w.transitions[i - 1].transition.newKey
                  && w.transitions[i - 1].transition.activationEpoch < s.transition.activationEpoch)
    && 2 <= s.transition.activationEpoch <= |w.rosters|
    && s.transition.previousRosterDigest == w.rosters[s.transition.activationEpoch - 2].digest
  }

  predicate KeysOk(id: nat, w: Tables) {
    && (forall i | 0 <= i < |w.transitions| :: TransitionLinked(id, w, i))
    && w.authorityEpoch == |w.transitions| + 1
    && w.transitionDigest == (if w.transitions == [] then ZeroTransition else w.transitions[|w.transitions| - 1].digest)
    && (w.transitions != [] ==> w.authorityKey == w.transitions[|w.transitions| - 1].transition.newKey)
  }

  /** A certificate is listed in every roster from its own epoch to the last of its life, under one authority. */
  predicate Certified(w: Tables, c: SignedCertificate, last: int) {
    var m := c.certificate.membershipEpoch;
    && 1 <= m <= last <= |w.rosters|
    && (forall i | m - 1 <= i < last :: c in w.rosters[i].roster.active)
    && (forall t | t in w.transitions :: !(m < t.transition.activationEpoch <= last))
  }

  /** The certificate states what the device record states. */
  predicate Matches(id: nat, device: nat, d: Device, c: SignedCertificate) {
    && c.certificate.workspace == id && c.certificate.device == device
    && c.certificate.displayName == d.name && c.certificate.identityKey == d.identityKey
    && c.certificate.deviceType == d.deviceType && c.certificate.expiresAt == 0
    && d.certificateId == Some(c.id)
  }

  predicate RevokedAt(w: Tables, device: nat, c: SignedCertificate, e: int) {
    && 2 <= e <= |w.rosters|
    && Certified(w, c, e - 1)
    && (forall t | t in w.transitions :: t.transition.activationEpoch != e)
    && (exists v :: v in w.rosters[e - 1].roster.revocations && v.device == device && v.certificateId == c.id)
  }

  predicate DeviceOk(id: nat, w: Tables, device: nat, d: Device) {
    && ValidName(d.name) && d.deviceType != Unspecified
    && (d.status == Revoked <==> d.revokedAt.Some?)
    && (if d.certificate.Some? then Matches(id, device, d, d.certificate.value) else d.certificateId.None?)
    && match d.status
       case PendingProof => d.certificate.None? && d.revokedEpoch.None?
       case PendingApproval => d.certificate.None? && d.revokedEpoch.None?
       case Approved => d.certificate.Some? && d.revokedEpoch.None? && Certified(w, d.certificate.value, |w.rosters|)
       case Revoked =>
         && (d.certificate.Some? <==> d.revokedEpoch.Some?)
         && (d.certificate.Some? ==> RevokedAt(w, device, d.certificate.value, d.revokedEpoch.value))
  }

  predicate DevicesOk(id: nat, w: Tables) {
    forall x | x in w.devices :: DeviceOk(id, w, x, w.devices[x])
  }

  /** Every certificate of the newest roster is the stored certificate of an approved device. */
  predicate ActiveOk(w: Tables) {
    forall c | c in Active(w) ::
      c.certificate.device in w.devices && w.devices[c.certificate.device].status == Approved
      && w.devices[c.certificate.device].certificate == Some(c)
  }

  /** Every revocation of the newest roster belongs to a revoked device and gives the time of its revocation. */
  predicate RevokedOk(w: Tables) {
    forall v | v in Revocations(w) ::
      && v.device in w.devices && w.devices[v.device].status == Revoked
      && w.devices[v.device].certificateId == Some(v.certificateId)
      && w.devices[v.device].revokedAt == Some(v.revokedAt)
  }

  /** The revocation list only grows. */
  predicate GrowsOk(w: Tables) {
    forall i | 0 < i < |w.rosters| ::
      forall v | v in w.rosters[i - 1].roster.revocations :: v in w.rosters[i].roster.revocations
  }

  /** No device listed as revoked in one roster is active in that roster or a later one. */
  predicate Gone(earlier: SignedRoster, later: SignedRoster) {
    forall v, c | v in earlier.roster.revocations && c in later.roster.active :: c.certificate.device != v.device
  }

  predicate PermanentOk(w: Tables) {
    forall i, j | 0 <= i <= j < |w.rosters| :: Gone(w.rosters[i], w.rosters[j])
  }

  ghost predicate Sound(id: nat, w: Tables, rank: Rank) {
    && Injective(rank)
    && ChainOk(id, w, rank) && KeysOk(id, w) && DevicesOk(id, w) && ActiveOk(w)
    && RevokedOk(w) && GrowsOk(w) && PermanentOk(w)
  }
}
