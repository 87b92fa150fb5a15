/** Rotation of a workspace authority: every active certificate is reissued under the new key in one roster. */
module AuthorityRotation {
  import opened Base
  import opened Membership
  import opened Workspace
  import opened WorkspaceLaws
  import opened WorkspaceOps

  // -------------------------------------------------------------- the reissue loop

  /** The row of an active certificate is the approved row that stores it. */
  predicate Held(devices: map<nat, Device>, c: SignedCertificate) {
    && c.certificate.device in devices
    && devices[c.certificate.device].certificateId == Some(c.id)
    && devices[c.certificate.device].status == Approved && devices[c.certificate.device].revokedAt.None?
  }

  /** What the reissue loop leaves behind for one certificate. */
  predicate Renewed(devices: map<nat, Device>, done: map<nat, Device>, c: SignedCertificate, key: Key, epoch: int,
                    now: int) {
    && c.certificate.device in devices && c.certificate.device in done
    && done[c.certificate.device] == Certify(devices[c.certificate.device], Reissued(c, key, epoch, now))
  }

  predicate Untouched(devices: map<nat, Device>, done: map<nat, Device>, active: seq<SignedCertificate>) {
    && done.Keys == devices.Keys
    && (forall x | x in devices && (forall c | c in active :: c.certificate.device != x) :: done[x] == devices[x])
  }

  predicate AllReissued(active: seq<SignedCertificate>, renewed: seq<SignedCertificate>, key: Key, epoch: int,
                        now: int) {
    |renewed| == |active| && forall i | 0 <= i < |active| :: renewed[i] == Reissued(active[i], key, epoch, now)
  }

  lemma RowsSnoc(devices: map<nat, Device>, done: map<nat, Device>, front: seq<SignedCertificate>, c: SignedCertificate,
                 key: Key, epoch: int, now: int)
    requires forall o | o in front ::
               Renewed(devices, done, o, key, epoch, now) && o.certificate.device != c.certificate.device
    requires Untouched(devices, done, front) && c.certificate.device in devices
    ensures done[c.certificate.device] == devices[c.certificate.device]
    ensures var renewed := Certify(devices[c.certificate.device], Reissued(c, key, epoch, now));
            var more := done[c.certificate.device := renewed];
            && (forall o | o in front + [c] :: Renewed(devices, more, o, key, epoch, now))
            && Untouched(devices, more, front + [c])
  {
    var more := done[c.certificate.device := Certify(devices[c.certificate.device], Reissued(c, key, epoch, now))];
    forall x | x in devices && (forall o | o in front + [c] :: o.certificate.device != x)
      ensures more[x] == devices[x]
    {
      assert c in front + [c];
      assert forall o | o in front :: o in front + [c];
    }
  }

  /** The certificate can be reissued and its row holds it. */
  predicate Ready(devices: map<nat, Device>, c: SignedCertificate, key: Key, epoch: int, now: int) {
    Held(devices, c) && CertificateValid(Reissued(c, key, epoch, now).certificate)
  }

  lemma ReissueStep(devices: map<nat, Device>, front: seq<SignedCertificate>, c: SignedCertificate, key: Key,
                    epoch: int, now: int)
    requires var r := ReissueAll(devices, front, key, epoch, now); r.Ok? && Ready(r.value.0, c, key, epoch, now)
    ensures var (done, renewed) := ReissueAll(devices, front, key, epoch, now).value;
            ReissueAll(devices, front + [c], key, epoch, now) ==
            Ok((done[c.certificate.device := Certify(done[c.certificate.device], Reissued(c, key, epoch, now))],
                renewed + [Reissued(c, key, epoch, now)]))
  {
    assert (front + [c])[..|front|] == front;
  }

  /** Every certificate is reissued, in its row and in the list, and no other row is touched. */
  predicate Done(devices: map<nat, Device>, active: seq<SignedCertificate>, done: map<nat, Device>,
                 renewed: seq<SignedCertificate>, key: Key, epoch: int, now: int)
  {
    && AllReissued(active, renewed, key, epoch, now)
    && (forall c | c in active :: Renewed(devices, done, c, key, epoch, now))
    && Untouched(devices, done, active)
  }

  lemma ReissueOne(devices: map<nat, Device>, front: seq<SignedCertificate>, c: SignedCertificate, key: Key, epoch: int,
                   now: int)
    requires forall o | o in front :: o.certificate.device != c.certificate.device
    requires Ready(devices, c, key, epoch, now)
    requires var r := ReissueAll(devices, front, key, epoch, now);
             r.Ok? && Done(devices, front, r.value.0, r.value.1, key, epoch, now)
    ensures var r := ReissueAll(devices, front + [c], key, epoch, now);
            r.Ok? && Done(devices, front + [c], r.value.0, r.value.1, key, epoch, now)
  {
    RowsSnoc(devices, ReissueAll(devices, front, key, epoch, now).value.0, front, c, key, epoch, now);
    ReissueStep(devices, front, c, key, epoch, now);
  }

  /** On a sorted list held by approved rows the loop reissues every certificate and touches no other row. */
  lemma {:induction false} ReissueExact(devices: map<nat, Device>, active: seq<SignedCertificate>, key: Key, epoch: int,
                                        now: int)
    requires SortedByDevice(active) && forall c | c in active :: Ready(devices, c, key, epoch, now)
    ensures var r := ReissueAll(devices, active, key, epoch, now);
            r.Ok? && Done(devices, active, r.value.0, r.value.1, key, epoch, now)
  {
    if active != [] {
      SortedFront(active);
      var front, c := active[..|active| - 1], active[|active| - 1];
      assert c in active;
      ReissueExact(devices, front, key, epoch, now);
      ReissueOne(devices, front, c, key, epoch, now);
    }
  }

  /** The reissue loop of RotateWorkspaceAuthority, which updates rows and collects certificates as it goes. */
  method ReissueLoop(devices: map<nat, Device>, active: seq<SignedCertificate>, key: Key, epoch: int, now: int)
    returns (r: Result<(map<nat, Device>, seq<SignedCertificate>), AdmissionError>)
    ensures r == ReissueAll(devices, active, key, epoch, now)
  {
    var rows, renewed: seq<SignedCertificate> := devices, [];
    for i := 0 to |active|
      invariant ReissueAll(devices, active[..i], key, epoch, now) == Ok((rows, renewed))
    {
      assert active[..i + 1][..i] == active[..i];
      var c := active[i];
      var signed := Reissued(c, key, epoch, now);
      if !CertificateValid(signed.certificate) {
        ReissueFails(devices, active, i + 1, key, epoch, now);
        return Err(InvalidCertificate);
      }
      if c.certificate.device !in rows || rows[c.certificate.device].certificateId != Some(c.id)
         || rows[c.certificate.device].status != Approved || rows[c.certificate.device].revokedAt.Some?
      {
        ReissueFails(devices, active, i + 1, key, epoch, now);
        return Err(CertificateMismatch);
      }
      rows := rows[c.certificate.device := Certify(rows[c.certificate.device], signed)];
      renewed := renewed + [signed];
    }
    assert active[..|active|] == active;
    return Ok((rows, renewed));
  }

  /** The first failure of the loop is its result. */
  lemma {:induction false} ReissueFails(devices: map<nat, Device>, active: seq<SignedCertificate>, n: nat, key: Key,
                                        epoch: int, now: int)
    requires n <= |active| && ReissueAll(devices, active[..n], key, epoch, now).Err?
    ensures ReissueAll(devices, active, key, epoch, now) == ReissueAll(devices, active[..n], key, epoch, now)
  {
    if n == |active| {
      assert active[..n] == active;
    } else {
      var front := active[..|active| - 1];
      assert front[..n] == active[..n];
      ReissueFails(devices, front, n, key, epoch, now);
    }
  }

  // --------------------------------------------------------------------- the tables

  predicate RotateAllowed(w: Tables, previousKey: Key, newKey: Key, now: int) {
    && previousKey != newKey && previousKey == w.authorityKey && previousKey != 0 && newKey != 0
    && Timestamp(now) && 1 <= |w.rosters| < MAX_INT64 && w.authorityEpoch < MAX_INT64
  }

  function RotatedTransition(w: Tables, id: nat, newKey: Key, now: int): KeyTransition {
    KeyTransition(id, w.authorityEpoch + 1, w.transitionDigest, w.authorityKey, newKey, |w.rosters| + 1, LastDigest(w),
                  now)
  }

  function RotatedRoster(w: Tables, id: nat, active: seq<SignedCertificate>): Roster {
    Roster(id, |w.rosters| + 1, LastDigest(w), active, Revocations(w), [])
  }

  /** The tables after a rotation. */
  function RotatedTables(w: Tables, id: nat, newKey: Key, now: int): Tables
    requires ReissueAll(w.devices, Active(w), newKey, |w.rosters| + 1, now).Ok?
  {
    var (devices, active) := ReissueAll(w.devices, Active(w), newKey, |w.rosters| + 1, now).value;
    var t := RotatedTransition(w, id, newKey, now);
    Tables(newKey, w.authorityEpoch + 1, TransitionDigestOf(t),
           w.rosters + [SignRoster(RotatedRoster(w, id, active), newKey)],
           w.transitions + [SignKeyTransition(t)], devices)
  }

  lemma RotateComputes(id: nat, w: Tables, newKey: Key, now: int, rank: Rank)
    requires w.rosters != [] && w.rosters[|w.rosters| - 1].roster.epoch == |w.rosters| && w.authorityKey != newKey
    requires SignedRosterValid(w.rosters[|w.rosters| - 1], w.authorityKey, rank) && 1 <= w.authorityEpoch
    ensures var r := Rotate(w, id, w.authorityKey, newKey, now, rank);
            var made := ReissueAll(w.devices, Active(w), newKey, |w.rosters| + 1, now);
            r == if w.authorityEpoch == MAX_INT64 || |w.rosters| >= MAX_INT64 then Err(EpochExhausted)
                 else if !KeyTransitionValid(RotatedTransition(w, id, newKey, now)) then Err(InvalidKeyTransition)
                 else if made.Err? then Err(made.error)
                 else if !RosterValid(RotatedRoster(w, id, made.value.1), newKey, rank) then Err(InvalidRoster)
                 else Ok(RotatedTables(w, id, newKey, now))
  {
  }

  lemma ActiveReady(id: nat, w: Tables, c: SignedCertificate, newKey: Key, now: int, rank: Rank)
    requires ChainOk(id, w, rank) && KeysOk(id, w) && DevicesOk(id, w) && ActiveOk(w)
    requires Timestamp(now) && |w.rosters| < MAX_INT64 && c in Active(w)
    ensures Ready(w.devices, c, newKey, |w.rosters| + 1, now)
  {
    ApprovedCertificate(id, w, c.certificate.device, rank);
  }

  /** In a sound workspace every active certificate can be reissued. */
  lemma AllReady(id: nat, w: Tables, newKey: Key, now: int, rank: Rank)
    requires Sound(id, w, rank) && Timestamp(now) && 1 <= |w.rosters| < MAX_INT64
    ensures SortedByDevice(Active(w)) && forall c | c in Active(w) :: Ready(w.devices, c, newKey, |w.rosters| + 1, now)
  {
    LatestActive(id, w, rank);
    forall c | c in Active(w) ensures Ready(w.devices, c, newKey, |w.rosters| + 1, now) {
      ActiveReady(id, w, c, newKey, now, rank);
    }
  }

  lemma ReissuedMember(active: seq<SignedCertificate>, renewed: seq<SignedCertificate>, c: SignedCertificate, key: Key,
                       epoch: int, now: int)
    requires AllReissued(active, renewed, key, epoch, now)
    requires c in renewed
    ensures exists o :: o in active && c == Reissued(o, key, epoch, now)
  {
    var i :| 0 <= i < |renewed| && renewed[i] == c;
    assert active[i] in active && c == Reissued(active[i], key, epoch, now);
  }

  ghost function Original(active: seq<SignedCertificate>, renewed: seq<SignedCertificate>, c: SignedCertificate,
                          key: Key, epoch: int, now: int)
    : (o: SignedCertificate)
    requires AllReissued(active, renewed, key, epoch, now)
    requires c in renewed
    ensures o in active && c == Reissued(o, key, epoch, now)
  {
    ReissuedMember(active, renewed, c, key, epoch, now);
    var o :| o in active && c == Reissued(o, key, epoch, now);
    o
  }

  // ------------------------------------------------------------- the activation roster

  lemma ReissuedValid(id: nat, w: Tables, renewed: seq<SignedCertificate>, c: SignedCertificate, newKey: Key, now: int,
                      rank: Rank)
    requires ChainOk(id, w, rank) && KeysOk(id, w) && DevicesOk(id, w) && ActiveOk(w)
    requires Timestamp(now) && 1 <= |w.rosters| < MAX_INT64
    requires AllReissued(Active(w), renewed, newKey, |w.rosters| + 1, now) && c in renewed
    ensures ActiveValid(c, RotatedRoster(w, id, renewed), newKey)
    ensures c.certificate.device in w.devices && w.devices[c.certificate.device].status == Approved
  {
    var o := Original(Active(w), renewed, c, newKey, |w.rosters| + 1, now);
    ApprovedCertificate(id, w, o.certificate.device, rank);
  }

  lemma ReissuedSorted(active: seq<SignedCertificate>, renewed: seq<SignedCertificate>, key: Key, epoch: int, now: int)
    requires AllReissued(active, renewed, key, epoch, now) && SortedByDevice(active)
    ensures SortedByDevice(renewed)
  {
    forall i, j | 0 <= i < j < |renewed| ensures renewed[i].certificate.device < renewed[j].certificate.device {
      assert active[i].certificate.device < active[j].certificate.device;
    }
  }

  lemma RotatedRosterValid(id: nat, w: Tables, renewed: seq<SignedCertificate>, newKey: Key, now: int, rank: Rank)
    requires Sound(id, w, rank) && Timestamp(now) && 1 <= |w.rosters| < MAX_INT64
    requires AllReissued(Active(w), renewed, newKey, |w.rosters| + 1, now)
    ensures Continues(id, w, RotatedRoster(w, id, renewed)) && RosterValid(RotatedRoster(w, id, renewed), newKey, rank)
  {
    var r := RotatedRoster(w, id, renewed);
    HeadOfRotation(id, w, r, rank);
    LatestActive(id, w, rank);
    ReissuedSorted(Active(w), renewed, newKey, |w.rosters| + 1, now);
    forall c | c in renewed
      ensures ActiveValid(c, r, newKey) && c.certificate.device in w.devices
      ensures w.devices[c.certificate.device].status == Approved
    {
      ReissuedValid(id, w, renewed, c, newKey, now, rank);
    }
    ActiveCarries(id, w, r, rank);
    DisjointFromRevoked(id, w, renewed, rank);
  }

  /** In a sound workspace the reissue loop cannot fail and its roster is valid under the new key. */
  lemma RotateReady(id: nat, w: Tables, newKey: Key, now: int, rank: Rank)
    requires Sound(id, w, rank) && Timestamp(now) && 1 <= |w.rosters| < MAX_INT64
    ensures var r := ReissueAll(w.devices, Active(w), newKey, |w.rosters| + 1, now);
            && r.Ok? && Done(w.devices, Active(w), r.value.0, r.value.1, newKey, |w.rosters| + 1, now)
            && Continues(id, w, RotatedRoster(w, id, r.value.1))
            && RosterValid(RotatedRoster(w, id, r.value.1), newKey, rank)
  {
    AllReady(id, w, newKey, now, rank);
    ReissueExact(w.devices, Active(w), newKey, |w.rosters| + 1, now);
    RotatedRosterValid(id, w, ReissueAll(w.devices, Active(w), newKey, |w.rosters| + 1, now).value.1, newKey, now,
                       rank);
  }

  lemma HeadOfRotation(id: nat, w: Tables, r: Roster, rank: Rank)
    requires ChainOk(id, w, rank) && Continues(id, w, r) && 1 <= |w.rosters| < MAX_INT64
    ensures RosterHeadValid(r) && id != 0
  {
    assert RosterLinked(id, w, |w.rosters| - 1, rank);
  }

  lemma TransitionValid(id: nat, w: Tables, newKey: Key, now: int, rank: Rank)
    requires ChainOk(id, w, rank) && KeysOk(id, w) && 1 <= |w.rosters| < MAX_INT64 && w.authorityEpoch < MAX_INT64
    requires w.authorityKey != newKey
    ensures KeyTransitionValid(RotatedTransition(w, id, newKey, now)) <==>
            w.authorityKey != 0 && newKey != 0 && Timestamp(now)
  {
    assert RosterLinked(id, w, |w.rosters| - 1, rank);
    if w.transitions != [] { assert TransitionLinked(id, w, |w.transitions| - 1); }
  }

  // --------------------------------------------------------------------- exactness

  predicate RotateAsked(w: Tables, previousKey: Key, newKey: Key) {
    previousKey != newKey && previousKey == w.authorityKey && w.rosters != []
  }

  lemma RotateRefused(id: nat, w: Tables, previousKey: Key, newKey: Key, now: int, rank: Rank)
    requires !RotateAsked(w, previousKey, newKey)
    ensures var r := Rotate(w, id, previousKey, newKey, now, rank); r.Err? && !Inconsistency(r.error)
  {
  }

  lemma RotateAccepted(id: nat, w: Tables, newKey: Key, now: int, rank: Rank)
    requires Sound(id, w, rank) && RotateAsked(w, w.authorityKey, newKey)
    ensures var r := Rotate(w, id, w.authorityKey, newKey, now, rank);
            if w.authorityEpoch == MAX_INT64 || |w.rosters| >= MAX_INT64 then r == Err(EpochExhausted)
            else if !(w.authorityKey != 0 && newKey != 0 && Timestamp(now)) then r == Err(InvalidKeyTransition)
            else ReissueAll(w.devices, Active(w), newKey, |w.rosters| + 1, now).Ok?
                 && r == Ok(RotatedTables(w, id, newKey, now))
  {
    LatestValid(id, w, rank);
    EpochBounded(id, w);
    RotateComputes(id, w, newKey, now, rank);
    if w.authorityEpoch < MAX_INT64 && |w.rosters| < MAX_INT64 {
      TransitionValid(id, w, newKey, now, rank);
      if Timestamp(now) {
        RotateReady(id, w, newKey, now, rank);
      }
    }
  }

  lemma EpochBounded(id: nat, w: Tables)
    requires KeysOk(id, w)
    ensures 1 <= w.authorityEpoch <= MAX_INT64
  {
    if w.transitions != [] { assert TransitionLinked(id, w, |w.transitions| - 1); }
  }

  /** A rotation succeeds exactly when its inputs allow it; no inconsistency between the tables is ever reported. */
  lemma RotateExact(id: nat, w: Tables, previousKey: Key, newKey: Key, now: int, rank: Rank)
    requires Sound(id, w, rank)
    ensures var r := Rotate(w, id, previousKey, newKey, now, rank);
            && (r.Ok? <==> RotateAllowed(w, previousKey, newKey, now))
            && (r.Err? ==> !Inconsistency(r.error))
            && (r.Ok? ==> ReissueAll(w.devices, Active(w), newKey, |w.rosters| + 1, now).Ok?
                          && r.value == RotatedTables(w, id, newKey, now))
  {
    EpochBounded(id, w);
    if RotateAsked(w, previousKey, newKey) {
      RotateAccepted(id, w, newKey, now, rank);
    } else {
      RotateRefused(id, w, previousKey, newKey, now, rank);
    }
  }

  // --------------------------------------------------------------------- soundness

  /** The chain of keys grows by one transition; keys of earlier epochs stay what they were. */
  lemma KeysAppend(id: nat, w: Tables, n: Tables, s: SignedRoster, t: KeyTransition)
    requires KeysOk(id, w) && n.rosters == w.rosters + [s] && w.rosters != []
    requires n.transitions == w.transitions + [SignKeyTransition(t)] && KeyTransitionValid(t)
    requires t.workspace == id && t.epoch == w.authorityEpoch + 1 && t.previousDigest == w.transitionDigest
    requires t.previousKey == w.authorityKey && t.activationEpoch == |w.rosters| + 1
    requires t.previousRosterDigest == LastDigest(w)
    requires n.authorityKey == t.newKey && n.authorityEpoch == w.authorityEpoch + 1
    requires n.transitionDigest == TransitionDigestOf(t)
    ensures KeysOk(id, n)
    ensures forall e | 1 <= e <= |w.rosters| ::
              KeyAt(n.transitions, n.authorityKey, e) == KeyAt(w.transitions, w.authorityKey, e)
    ensures KeyAt(n.transitions, n.authorityKey, |n.rosters|) == n.authorityKey
  {
    assert n.transitions[..|w.transitions|] == w.transitions;
    forall i | 0 <= i < |n.transitions| ensures TransitionLinked(id, n, i) {
      if i < |w.transitions| {
        assert TransitionLinked(id, w, i);
      } else if i > 0 {
        assert TransitionLinked(id, w, i - 1);
      }
    }
  }

  lemma ReissuedDevice(id: nat, w: Tables, n: Tables, s: SignedRoster, x: nat, d: Device, c: SignedCertificate)
    requires DeviceOk(id, w, x, d) && d.status == Approved && n.rosters == w.rosters + [s]
    requires forall t | t in n.transitions :: t.transition.activationEpoch <= |n.rosters|
    requires Matches(id, x, Certify(d, c), c) && c.certificate.membershipEpoch == |n.rosters| && c in s.roster.active
    ensures DeviceOk(id, n, x, Certify(d, c))
  {
    assert Certified(n, c, |n.rosters|);
  }

  lemma ReissuedListed(w: Tables, active: seq<SignedCertificate>, c: SignedCertificate, newKey: Key, now: int)
    requires AllReissued(Active(w), active, newKey, |w.rosters| + 1, now) && c in Active(w)
    ensures Reissued(c, newKey, |w.rosters| + 1, now) in active
  {
    var i :| 0 <= i < |Active(w)| && Active(w)[i] == c;
    assert active[i] == Reissued(c, newKey, |w.rosters| + 1, now);
  }

  lemma RotatedDevice(id: nat, w: Tables, n: Tables, s: SignedRoster, x: nat, newKey: Key, now: int)
    requires KeysOk(id, w) && DevicesOk(id, w) && ActiveOk(w) && Extends(w, n, s)
    requires forall t | t in n.transitions :: t.transition.activationEpoch <= |n.rosters|
    requires Done(w.devices, Active(w), n.devices, s.roster.active, newKey, |w.rosters| + 1, now)
    requires x in w.devices
    ensures x in n.devices && DeviceOk(id, n, x, n.devices[x])
  {
    assert DeviceOk(id, w, x, w.devices[x]);
    if w.devices[x].status == Approved {
      ApprovedActive(id, w, x);
      var c := w.devices[x].certificate.value;
      assert Renewed(w.devices, n.devices, c, newKey, |w.rosters| + 1, now);
      ReissuedListed(w, s.roster.active, c, newKey, now);
      ReissuedDevice(id, w, n, s, x, w.devices[x], Reissued(c, newKey, |w.rosters| + 1, now));
    } else {
      assert n.devices[x] == w.devices[x];
      DeviceKeeps(id, w, n, s, x, w.devices[x]);
    }
  }

  lemma RotatedDevices(id: nat, w: Tables, n: Tables, s: SignedRoster, newKey: Key, now: int)
    requires KeysOk(id, w) && KeysOk(id, n) && DevicesOk(id, w) && ActiveOk(w) && RevokedOk(w) && Extends(w, n, s)
    requires s.roster.revocations == Revocations(w)
    requires Done(w.devices, Active(w), n.devices, s.roster.active, newKey, |w.rosters| + 1, now)
    ensures DevicesOk(id, n) && ActiveOk(n) && RevokedOk(n)
  {
    ActivationsBounded(id, n);
    forall x | x in n.devices ensures DeviceOk(id, n, x, n.devices[x]) {
      RotatedDevice(id, w, n, s, x, newKey, now);
    }
    forall c | c in Active(n)
      ensures c.certificate.device in n.devices && n.devices[c.certificate.device].status == Approved
              && n.devices[c.certificate.device].certificate == Some(c)
    {
      var o := Original(Active(w), s.roster.active, c, newKey, |w.rosters| + 1, now);
      assert Renewed(w.devices, n.devices, o, newKey, |w.rosters| + 1, now);
    }
    forall v | v in Revocations(n)
      ensures v.device in n.devices && n.devices[v.device].status == Revoked
              && n.devices[v.device].certificateId == Some(v.certificateId)
    {
      assert v in Revocations(w);
      assert n.devices[v.device] == w.devices[v.device];
    }
  }

  lemma KeysOfRotation(id: nat, w: Tables, newKey: Key, now: int, rank: Rank)
    requires ChainOk(id, w, rank) && KeysOk(id, w) && RotateAllowed(w, w.authorityKey, newKey, now)
    requires ReissueAll(w.devices, Active(w), newKey, |w.rosters| + 1, now).Ok?
    ensures var n := RotatedTables(w, id, newKey, now);
            && KeysOk(id, n) && Extends(w, n, n.rosters[|w.rosters|])
            && (forall e | 1 <= e <= |w.rosters| ::
                  KeyAt(n.transitions, n.authorityKey, e) == KeyAt(w.transitions, w.authorityKey, e))
            && KeyAt(n.transitions, n.authorityKey, |n.rosters|) == newKey
  {
    var n := RotatedTables(w, id, newKey, now);
    TransitionValid(id, w, newKey, now, rank);
    KeysAppend(id, w, n, n.rosters[|w.rosters|], RotatedTransition(w, id, newKey, now));
  }

  lemma RotateSound(id: nat, w: Tables, newKey: Key, now: int, rank: Rank)
    requires Sound(id, w, rank) && RotateAllowed(w, w.authorityKey, newKey, now)
    requires ReissueAll(w.devices, Active(w), newKey, |w.rosters| + 1, now).Ok?
    ensures Sound(id, RotatedTables(w, id, newKey, now), rank)
  {
    var n := RotatedTables(w, id, newKey, now);
    RotateReady(id, w, newKey, now, rank);
    KeysOfRotation(id, w, newKey, now, rank);
    RotateFinish(id, w, n, n.rosters[|w.rosters|], newKey, now, rank);
  }

  lemma RotateFinish(id: nat, w: Tables, n: Tables, s: SignedRoster, newKey: Key, now: int, rank: Rank)
    requires Sound(id, w, rank) && KeysOk(id, n) && Extends(w, n, s)
    requires forall e | 1 <= e <= |w.rosters| ::
               KeyAt(n.transitions, n.authorityKey, e) == KeyAt(w.transitions, w.authorityKey, e)
    requires KeyAt(n.transitions, n.authorityKey, |n.rosters|) == newKey
    requires Continues(id, w, s.roster) && RosterValid(s.roster, newKey, rank) && s == SignRoster(s.roster, newKey)
    requires s.roster.revocations == Revocations(w)
    requires Done(w.devices, Active(w), n.devices, s.roster.active, newKey, |w.rosters| + 1, now)
    ensures Sound(id, n, rank)
  {
    assert RosterLinked(id, n, |w.rosters|, rank);
    ChainAppend(id, w, n, s, rank);
    RotatedDevices(id, w, n, s, newKey, now);
    GrowsAppend(w, n, s);
    PermanentAppend(w, n, s);
  }
}
