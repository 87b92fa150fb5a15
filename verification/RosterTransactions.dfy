/** The roster transactions as the store runs them: loops over the certificate lists, then one commit. */
module RosterTransactions {
  import opened Base
  import opened Membership
  import opened Workspace
  import opened AuthorityRotation

  // -------------------------------------------------------------- device references

  datatype ReferenceError = NoSuchDevice | Ambiguous

  /** A short reference; different devices may share one. */
  type Reference = (nat, nat) -> nat

  predicate Named(devices: map<nat, Device>, id: nat, reference: nat, referenceOf: Reference, x: nat) {
    x in devices && referenceOf(id, x) == reference
  }

  /** The answer to a reference: the one device that has it, or that there is none, or that there are several. */
  ghost predicate Resolves(devices: map<nat, Device>, id: nat, reference: nat, referenceOf: Reference,
                           r: Result<nat, ReferenceError>)
  {
    match r
    case Ok(x) =>
      && Named(devices, id, reference, referenceOf, x)
      && forall y: nat | Named(devices, id, reference, referenceOf, y) :: y == x
    case Err(NoSuchDevice) => forall y: nat :: !Named(devices, id, reference, referenceOf, y)
    case Err(Ambiguous) =>
      exists x: nat, y: nat ::
        x != y && Named(devices, id, reference, referenceOf, x) && Named(devices, id, reference, referenceOf, y)
  }

  /** resolveDeviceReference: visits all devices of the workspace. */
  method ResolveDeviceReference(devices: map<nat, Device>, id: nat, reference: nat, referenceOf: Reference)
    returns (r: Result<nat, ReferenceError>)
    ensures Resolves(devices, id, reference, referenceOf, r)
  {
    var rest, matched: Option<nat> := devices.Keys, None;
    while rest != {}
      invariant rest <= devices.Keys
      invariant matched.Some? ==> matched.value !in rest && Named(devices, id, reference, referenceOf, matched.value)
      invariant forall y: nat | Named(devices, id, reference, referenceOf, y) :: y in rest || matched == Some(y)
      decreases |rest|
    {
      var x :| x in rest;
      rest := rest - {x};
      if referenceOf(id, x) == reference {
        if matched.Some? {
          assert Named(devices, id, reference, referenceOf, x);
          return Err(Ambiguous);
        }
        matched := Some(x);
      }
    }
    r := if matched.Some? then Ok(matched.value) else Err(NoSuchDevice);
  }

  // ------------------------------------------------------------------- list loops

  /** The first failure of the removal loop is its result. */
  lemma {:induction false} TakeOutFails(active: seq<SignedCertificate>, n: nat, device: nat, stored: SignedCertificate)
    requires n <= |active| && TakeOut(active[..n], device, stored).Err?
    ensures TakeOut(active, device, stored) == TakeOut(active[..n], device, stored)
  {
    if n == |active| {
      assert active[..n] == active;
    } else {
      var front := active[..|active| - 1];
      assert front[..n] == active[..n];
      TakeOutFails(front, n, device, stored);
    }
  }

  /** The loop of RenameDevice and RevokeDevice that removes one device from the active list. */
  method RemoveDevice(active: seq<SignedCertificate>, device: nat, stored: SignedCertificate)
    returns (r: Result<(seq<SignedCertificate>, bool), AdmissionError>)
    ensures r == TakeOut(active, device, stored)
  {
    var kept: seq<SignedCertificate>, found := [], false;
    for i := 0 to |active|
      invariant TakeOut(active[..i], device, stored) == Ok((kept, found))
    {
      assert active[..i + 1][..i] == active[..i];
      var c := active[i];
      if c.certificate.device != device {
        kept := kept + [c];
      } else if c != stored {
        TakeOutFails(active, i + 1, device, stored);
        return Err(CertificateMismatch);
      } else {
        found := true;
      }
    }
    assert active[..|active|] == active;
    return Ok((kept, found));
  }

  lemma {:induction false} InsertAtDevice(active: seq<SignedCertificate>, c: SignedCertificate, i: nat)
    requires i <= |active| && (forall k | 0 <= k < i :: active[k].certificate.device <= c.certificate.device)
    requires i < |active| ==> c.certificate.device < active[i].certificate.device
    ensures InsertByDevice(active, c) == active[..i] + [c] + active[i..]
  {
    if i > 0 { InsertAtDevice(active[1..], c, i - 1); }
  }

  /** Adds a certificate to a list sorted by device. */
  method AddCertificate(active: seq<SignedCertificate>, c: SignedCertificate) returns (r: seq<SignedCertificate>)
    ensures r == InsertByDevice(active, c)
  {
    var i := 0;
    while i < |active| && active[i].certificate.device <= c.certificate.device
      invariant i <= |active| && forall k | 0 <= k < i :: active[k].certificate.device <= c.certificate.device
    {
      i := i + 1;
    }
    InsertAtDevice(active, c, i);
    r := active[..i] + [c] + active[i..];
  }

  lemma {:induction false} InsertAtRank(vs: seq<Revocation>, v: Revocation, i: nat, rank: Rank)
    requires i <= |vs| && (forall k | 0 <= k < i :: rank(vs[k].certificateId) <= rank(v.certificateId))
    requires i < |vs| ==> rank(v.certificateId) < rank(vs[i].certificateId)
    ensures InsertByRank(vs, v, rank) == vs[..i] + [v] + vs[i..]
  {
    if i > 0 { InsertAtRank(vs[1..], v, i - 1, rank); }
  }

  /** Adds a revocation to a list sorted by certificate id. */
  method AddRevocation(vs: seq<Revocation>, v: Revocation, rank: Rank) returns (r: seq<Revocation>)
    ensures r == InsertByRank(vs, v, rank)
  {
    var i := 0;
    while i < |vs| && rank(vs[i].certificateId) <= rank(v.certificateId)
      invariant i <= |vs| && forall k | 0 <= k < i :: rank(vs[k].certificateId) <= rank(v.certificateId)
    {
      i := i + 1;
    }
    InsertAtRank(vs, v, i, rank);
    r := vs[..i] + [v] + vs[i..];
  }

  // ------------------------------------------------------------------ transactions

  method PublishRoster(w: Tables, roster: Roster, devices: map<nat, Device>, key: Key, rank: Rank)
    returns (r: Result<Tables, AdmissionError>)
    ensures r == Publish(w, roster, devices, key, rank)
  {
    var ok := ValidateWorkspaceRoster(roster, key, rank);
    if !ok { return Err(InvalidRoster); }
    return Ok(w.(rosters := w.rosters + [SignRoster(roster, key)], devices := devices));
  }

  method RunApprove(w: Tables, id: nat, device: nat, roles: seq<int>, key: Key, now: int, rank: Rank)
    returns (r: Result<Tables, AdmissionError>)
    ensures r == Approve(w, id, device, roles, key, now, rank)
    ensures r.Ok? ==>
              && device in w.devices && device in r.value.devices && r.value.devices[device].certificate.Some?
              && var c := r.value.devices[device].certificate.value;
                 c.certificate.roles == roles && c.certificate.issuedAt == now && SignedCertificateValid(c, key)
  {
    if |roles| == 0 { return Err(InvalidInput); }
    if device !in w.devices { return Err(DeviceNotFound); }
    if key != w.authorityKey { return Err(AuthorityUnavailable); }
    var d := w.devices[device];
    if d.revokedAt.Some? || d.status != PendingApproval { return Err(DeviceNotFound); }
    var next := Prepare(w, key, rank);
    if next.Err? { return Err(next.error); }
    var draft := next.value;
    var c := NewCertificate(id, device, d, roles, now, draft.epoch);
    if !CertificateValid(c) { return Err(InvalidCertificate); }
    var signed := SignCertificate(c, key);
    var active := AddCertificate(draft.active, signed);
    var approved := Certify(d, signed).(status := Approved, challengeDigest := None, proofExpiresAt := None);
    r := PublishRoster(w, Roster(id, draft.epoch, draft.previousDigest, active, draft.revocations, []),
                       w.devices[device := approved], key, rank);
  }

  method RunRename(w: Tables, id: nat, device: nat, name: string, key: Key, now: int, rank: Rank)
    returns (r: Result<Tables, AdmissionError>)
    ensures r == Rename(w, id, device, name, key, now, rank)
    ensures r.Ok? ==>
              && device in w.devices && device in r.value.devices && r.value.devices[device].name == name
              && w.devices[device].certificate.Some? && r.value.devices[device].certificate.Some?
              && var o, c := w.devices[device].certificate.value, r.value.devices[device].certificate.value;
                 && c.certificate.displayName == name && c.certificate.issuedAt == now
                 && c.certificate.roles == o.certificate.roles && SignedCertificateValid(c, key)
  {
    if !ValidName(name) { return Err(InvalidInput); }
    if device !in w.devices { return Err(DeviceNotFound); }
    var d := w.devices[device];
    if d.status != Approved || d.revokedAt.Some? || d.name == name { return Err(DeviceNotFound); }
    if key != w.authorityKey { return Err(AuthorityUnavailable); }
    var found := StoredCertificate(d, id, device, key);
    if found.None? || found.value.certificate.displayName != d.name { return Err(CorruptCertificate); }
    var next := Prepare(w, key, rank);
    if next.Err? { return Err(next.error); }
    r := FinishRename(w, id, device, name, key, now, rank, found.value, next.value);
  }

  method FinishRename(w: Tables, id: nat, device: nat, name: string, key: Key, now: int, rank: Rank,
                      stored: SignedCertificate, draft: Draft) returns (r: Result<Tables, AdmissionError>)
    requires device in w.devices
    ensures r == RenameWith(w, id, device, name, key, now, rank, stored, draft)
  {
    if draft.epoch == 1 { return Err(MissingRoster); }
    var removed := RemoveDevice(draft.active, device, stored);
    if removed.Err? { return Err(removed.error); }
    var (others, found) := removed.value;
    if !found { return Err(CertificateNotActive); }
    var c := stored.certificate.(displayName := name, issuedAt := now, membershipEpoch := draft.epoch);
    if !CertificateValid(c) { return Err(InvalidCertificate); }
    var signed := SignCertificate(c, key);
    var t := CertificateTransition(id, device, stored.id, signed.id, draft.epoch, draft.previousDigest, DisplayName,
                                   now);
    if !RenameValid(stored, signed, t) { return Err(InvalidRename); }
    var active := AddCertificate(others, signed);
    r := PublishRoster(w, Roster(id, draft.epoch, draft.previousDigest, active, draft.revocations, [t]),
                       w.devices[device := Certify(w.devices[device], signed).(name := name)], key, rank);
  }

  method RunRevoke(w: Tables, id: nat, device: nat, key: Key, now: int, rank: Rank)
    returns (r: Result<Tables, AdmissionError>)
    ensures r == Revoke(w, id, device, key, now, rank)
    ensures r.Ok? ==>
              && device in w.devices && device in r.value.devices && r.value.devices[device].revokedAt.Some?
              && (w.devices[device].revokedAt.None? ==> r.value.devices[device].revokedAt == Some(now))
              && r.value.devices[device].certificate == w.devices[device].certificate
  {
    if device !in w.devices { return Err(DeviceNotFound); }
    var d := w.devices[device];
    if d.revokedAt.Some? { return Ok(w); }
    if d.status != Approved {
      return Ok(w.(devices := w.devices[device := d.(revokedAt := Some(now), status := Revoked)]));
    }
    if d.certificateId.None? || d.certificate.None? || key != w.authorityKey { return Err(AuthorityUnavailable); }
    var next := Prepare(w, key, rank);
    if next.Err? { return Err(next.error); }
    r := FinishRevoke(w, id, device, key, now, rank, next.value);
  }

  method FinishRevoke(w: Tables, id: nat, device: nat, key: Key, now: int, rank: Rank, draft: Draft)
    returns (r: Result<Tables, AdmissionError>)
    requires device in w.devices && w.devices[device].certificateId.Some?
    ensures r == RevokeWith(w, id, device, key, now, rank, draft)
  {
    var d := w.devices[device];
    if draft.epoch == 1 { return Err(MissingRoster); }
    var stored := StoredCertificate(d, id, device, key);
    if stored.None? { return Err(CorruptCertificate); }
    var removed := RemoveDevice(draft.active, device, stored.value);
    if removed.Err? { return Err(removed.error); }
    var (others, found) := removed.value;
    if !found { return Err(CertificateNotActive); }
    var revocations := AddRevocation(draft.revocations, Revocation(d.certificateId.value, device, now), rank);
    r := PublishRoster(w, Roster(id, draft.epoch, draft.previousDigest, others, revocations, []),
                       w.devices[device := d.(revokedAt := Some(now), status := Revoked,
                                              revokedEpoch := Some(draft.epoch))],
                       key, rank);
  }

  method RunRotate(w: Tables, id: nat, previousKey: Key, newKey: Key, now: int, rank: Rank)
    returns (r: Result<Tables, AdmissionError>)
    ensures r == Rotate(w, id, previousKey, newKey, now, rank)
    ensures r.Ok? ==>
              && w.authorityKey == previousKey && r.value.authorityKey == newKey
              && r.value.authorityEpoch == w.authorityEpoch + 1 && |r.value.rosters| == |w.rosters| + 1
  {
    if previousKey == newKey { return Err(InvalidInput); }
    if previousKey != w.authorityKey || w.authorityEpoch < 1 { return Err(AuthorityUnavailable); }
    if w.authorityEpoch == MAX_INT64 { return Err(EpochExhausted); }
    if |w.rosters| == 0 { return Err(NothingToRotate); }
    var previous := w.rosters[|w.rosters| - 1];
    if !SignedRosterValid(previous, previousKey, rank) { return Err(CorruptRoster); }
    if previous.roster.epoch >= MAX_INT64 { return Err(EpochExhausted); }
    var epoch := previous.roster.epoch + 1;
    var t := KeyTransition(id, w.authorityEpoch + 1, w.transitionDigest, previousKey, newKey, epoch, previous.digest,
                           now);
    if !KeyTransitionValid(t) { return Err(InvalidKeyTransition); }
    var reissued := ReissueLoop(w.devices, previous.roster.active, newKey, epoch, now);
    if reissued.Err? { return Err(reissued.error); }
    var (devices, active) := reissued.value;
    var published := PublishRoster(w, Roster(id, epoch, previous.digest, active, previous.roster.revocations, []),
                                   devices, newKey, rank);
    if published.Err? { return Err(published.error); }
    return Ok(published.value.(authorityKey := newKey, authorityEpoch := w.authorityEpoch + 1,
                               transitionDigest := TransitionDigestOf(t),
                               transitions := w.transitions + [SignKeyTransition(t)]));
  }
}
