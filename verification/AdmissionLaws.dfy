/** What one command may do to the tables, for every command that succeeds on sound tables. */
module AdmissionLaws {
  import opened Base
  import opened Membership
  import opened Workspace
  import opened WorkspaceOps
  import opened AuthorityRotation

  /** Every certificate ever listed belongs to a device that has been certified. */
  predicate Listed(w: Tables) {
    forall i | 0 <= i < |w.rosters| :: ListedIn(w.rosters[i], w.devices)
  }

  predicate ListedIn(s: SignedRoster, devices: map<nat, Device>) {
    forall c | c in s.roster.active ::
      c.certificate.device in devices && devices[c.certificate.device].certificate.Some?
  }

  /** pending proof, pending approval, approved, revoked: one step ahead, or revoked from anywhere. */
  predicate Forward(o: Status, d: Status) {
    || d == o || d == Revoked || (o == PendingProof && d == PendingApproval) || (o == PendingApproval && d == Approved)
  }

  /** How a membership transaction may change a row. */
  predicate Moved(o: Device, d: Device) {
    && d.tokenHash == o.tokenHash && d.credentialVersion == o.credentialVersion
    && d.identityKey == o.identityKey && d.deviceType == o.deviceType
    && (o.certificate.Some? ==> d.certificate.Some?)
    && (|| d == o
        || (o.status == Approved && d.status == Approved)
        || (o.status == PendingApproval && d.status == Approved)
        || (o.status != Revoked && d.status == Revoked && d.certificate == o.certificate))
  }

  predicate TablesStep(w: Tables, n: Tables) {
    && n.devices.Keys == w.devices.Keys
    && (forall x | x in w.devices :: Moved(w.devices[x], n.devices[x]))
    && w.rosters <= n.rosters && |n.rosters| <= |w.rosters| + 1
  }

  predicate SameAuthority(w: Tables, n: Tables) {
    && n.authorityKey == w.authorityKey && n.authorityEpoch == w.authorityEpoch
    && n.transitions == w.transitions && w.rosters <= n.rosters
  }

  ghost predicate Advances(id: nat, w: Tables, n: Tables, rank: Rank) {
    Sound(id, n, rank) && TablesStep(w, n) && Listed(n)
  }

  lemma ListedKeeps(w: Tables, n: Tables)
    requires Listed(w) && ActiveOk(n) && TablesStep(w, n)
    ensures Listed(n)
  {
    forall i | 0 <= i < |n.rosters| ensures ListedIn(n.rosters[i], n.devices) {
      if i < |w.rosters| {
        assert n.rosters[i] == w.rosters[i];
        assert ListedIn(w.rosters[i], w.devices);
      } else {
        assert n.rosters[i].roster.active == Active(n);
      }
    }
  }

  lemma OneRow(id: nat, w: Tables, n: Tables, device: nat, d: Device, rank: Rank)
    requires Listed(w) && Sound(id, n, rank) && w.rosters <= n.rosters && |n.rosters| <= |w.rosters| + 1
    requires device in w.devices && n.devices == w.devices[device := d] && Moved(w.devices[device], d)
    ensures Advances(id, w, n, rank)
  {
    ListedKeeps(w, n);
  }

  lemma ApprovedAdvances(id: nat, w: Tables, device: nat, roles: seq<int>, now: int, rank: Rank)
    requires Sound(id, w, rank) && Listed(w) && ApproveAllowed(w, id, device, roles, w.authorityKey, now)
    ensures var n := ApprovedTables(w, id, device, roles, now); Advances(id, w, n, rank) && SameAuthority(w, n)
  {
    var n := ApprovedTables(w, id, device, roles, now);
    ApproveSound(id, w, device, roles, now, rank);
    OneRow(id, w, n, device, n.devices[device], rank);
  }

  lemma ApproveAdvances(id: nat, w: Tables, device: nat, roles: seq<int>, key: Key, now: int, rank: Rank)
    requires Sound(id, w, rank) && Listed(w)
    ensures var r := Approve(w, id, device, roles, key, now, rank);
            && (r.Ok? ==> Advances(id, w, r.value, rank) && SameAuthority(w, r.value))
            && (r.Err? ==> !Inconsistency(r.error))
  {
    ApproveExact(id, w, device, roles, key, now, rank);
    if ApproveAllowed(w, id, device, roles, key, now) { ApprovedAdvances(id, w, device, roles, now, rank); }
  }

  lemma RenameAdvances(id: nat, w: Tables, device: nat, name: string, key: Key, now: int, rank: Rank)
    requires Sound(id, w, rank) && Listed(w)
    ensures var r := Rename(w, id, device, name, key, now, rank);
            && (r.Ok? ==> Advances(id, w, r.value, rank) && SameAuthority(w, r.value))
            && (r.Err? ==> !Inconsistency(r.error))
  {
    RenameExact(id, w, device, name, key, now, rank);
    if RenameAllowed(w, device, name, key, now) {
      var n := RenamedTables(w, id, device, name, now);
      RenameSound(id, w, device, name, now, rank);
      OneRow(id, w, n, device, n.devices[device], rank);
    }
  }

  lemma RevokePendingAdvances(id: nat, w: Tables, device: nat, now: int, rank: Rank)
    requires Sound(id, w, rank) && Listed(w) && device in w.devices
    requires w.devices[device].status == PendingProof || w.devices[device].status == PendingApproval
    ensures var n := w.(devices := w.devices[device := w.devices[device].(revokedAt := Some(now), status := Revoked)]);
            Advances(id, w, n, rank) && SameAuthority(w, n)
  {
    var d := w.devices[device].(revokedAt := Some(now), status := Revoked);
    assert DeviceOk(id, w, device, w.devices[device]);
    RowSound(id, w, device, d, rank);
    OneRow(id, w, w.(devices := w.devices[device := d]), device, d, rank);
  }

  lemma RevokeCertifiedAdvances(id: nat, w: Tables, device: nat, now: int, rank: Rank)
    requires Sound(id, w, rank) && Listed(w) && RevokeAllowed(w, device, w.authorityKey, now)
    requires w.devices[device].certificate.Some? && TakeOut(Active(w), device, w.devices[device].certificate.value).Ok?
    ensures var n := RevokedTables(w, id, device, now, rank); Advances(id, w, n, rank) && SameAuthority(w, n)
  {
    var n := RevokedTables(w, id, device, now, rank);
    RevokeSound(id, w, device, now, rank);
    OneRow(id, w, n, device, n.devices[device], rank);
  }

  lemma RevokeAdvances(id: nat, w: Tables, device: nat, key: Key, now: int, rank: Rank)
    requires Sound(id, w, rank) && Listed(w)
    ensures var r := Revoke(w, id, device, key, now, rank);
            && (r.Ok? ==> Advances(id, w, r.value, rank) && SameAuthority(w, r.value))
            && (r.Err? ==> !Inconsistency(r.error))
  {
    RevokeExact(id, w, device, key, now, rank);
    if device in w.devices {
      var d := w.devices[device];
      if d.status == PendingProof || d.status == PendingApproval {
        RevokePendingAdvances(id, w, device, now, rank);
      } else if RevokeAllowed(w, device, key, now) {
        RevokeCertifiedAdvances(id, w, device, now, rank);
      }
    }
  }

  lemma ReissueMoves(w: Tables, done: map<nat, Device>, renewed: seq<SignedCertificate>, newKey: Key, now: int)
    requires ActiveOk(w) && Done(w.devices, Active(w), done, renewed, newKey, |w.rosters| + 1, now)
    ensures done.Keys == w.devices.Keys && forall x | x in w.devices :: Moved(w.devices[x], done[x])
  {
    forall x | x in w.devices ensures Moved(w.devices[x], done[x]) {
      if c :| c in Active(w) && c.certificate.device == x {
        assert Renewed(w.devices, done, c, newKey, |w.rosters| + 1, now);
      } else {
        assert done[x] == w.devices[x];
      }
    }
  }

  lemma RotatedStep(id: nat, w: Tables, newKey: Key, now: int, rank: Rank)
    requires Sound(id, w, rank) && RotateAllowed(w, w.authorityKey, newKey, now)
    requires ReissueAll(w.devices, Active(w), newKey, |w.rosters| + 1, now).Ok?
    ensures TablesStep(w, RotatedTables(w, id, newKey, now))
  {
    hide Done, RosterValid, Continues;
    var n := RotatedTables(w, id, newKey, now);
    RotateReady(id, w, newKey, now, rank);
    ReissueMoves(w, n.devices, n.rosters[|w.rosters|].roster.active, newKey, now);
  }

  lemma RotatedAdvances(id: nat, w: Tables, newKey: Key, now: int, rank: Rank)
    requires Sound(id, w, rank) && Listed(w) && RotateAllowed(w, w.authorityKey, newKey, now)
    requires ReissueAll(w.devices, Active(w), newKey, |w.rosters| + 1, now).Ok?
    ensures Advances(id, w, RotatedTables(w, id, newKey, now), rank)
  {
    hide TablesStep, Listed, RotatedTables, ChainOk, KeysOk, DevicesOk, GrowsOk, PermanentOk, RevokedOk;
    RotatedStep(id, w, newKey, now, rank);
    RotateSound(id, w, newKey, now, rank);
    ListedKeeps(w, RotatedTables(w, id, newKey, now));
  }

  lemma RotateAdvances(id: nat, w: Tables, key: Key, newKey: Key, now: int, rank: Rank)
    requires Sound(id, w, rank) && Listed(w)
    ensures var r := Rotate(w, id, key, newKey, now, rank);
            && (r.Ok? ==> Advances(id, w, r.value, rank))
            && (r.Err? ==> !Inconsistency(r.error))
  {
    RotateExact(id, w, key, newKey, now, rank);
    if RotateAllowed(w, key, newKey, now) { RotatedAdvances(id, w, newKey, now, rank); }
  }
}
