/**
 Signed membership messages. A digest wraps the content it digests, with zero apart, and a
 signature names its key and its message, so equal digests mean equal contents and only the
 holder of a key produces its signatures. A private key and its public key are one number;
 key 0 is the all-zero key.
 */
module Membership {
  import opened Base

  type Key = nat

  const MAX_DISPLAY_NAME_BYTES := 100
  const MAX_ACTIVE_CERTIFICATES := 256
  const MAX_CERTIFICATE_TRANSITIONS := 256
  const MAX_REVOCATIONS := 4096

  datatype DeviceType = Unspecified | Android | Chrome

  datatype Certificate = Certificate(
    workspace: nat,
    device: nat,
    deviceType: DeviceType,
    displayName: string,
    roles: seq<int>,
    identityKey: nat,
    issuedAt: int,
    expiresAt: int,
    membershipEpoch: int)

  datatype CertificateId = ZeroId | IdOf(certificate: Certificate)

  datatype CertificateSignature = CertificateSignature(key: Key, certificate: Certificate)

  datatype SignedCertificate = SignedCertificate(
    certificate: Certificate, id: CertificateId, signature: CertificateSignature)

  datatype Revocation = Revocation(certificateId: CertificateId, device: nat, revokedAt: int)

  datatype TransitionReason = UnspecifiedReason | DisplayName

  datatype CertificateTransition = CertificateTransition(
    workspace: nat,
    device: nat,
    previousId: CertificateId,
    newId: CertificateId,
    activationEpoch: int,
    previousRosterDigest: RosterDigest,
    reason: TransitionReason,
    issuedAt: int)

  datatype Roster = Roster(
    workspace: nat,
    epoch: int,
    previousDigest: RosterDigest,
    active: seq<SignedCertificate>,
    revocations: seq<Revocation>,
    transitions: seq<CertificateTransition>)

  datatype RosterDigest = ZeroRoster | DigestOf(roster: Roster)

  datatype RosterSignature = RosterSignature(key: Key, roster: Roster)

  datatype SignedRoster = SignedRoster(roster: Roster, digest: RosterDigest, signature: RosterSignature)

  datatype KeyTransition = KeyTransition(
    workspace: nat,
    epoch: int,
    previousDigest: TransitionDigest,
    previousKey: Key,
    newKey: Key,
    activationEpoch: int,
    previousRosterDigest: RosterDigest,
    issuedAt: int)

  datatype TransitionDigest = ZeroTransition | TransitionDigestOf(transition: KeyTransition)

  /** byOld tells the two signature domains of a transition apart. */
  datatype TransitionSignature = TransitionSignature(key: Key, byOld: bool, transition: KeyTransition)

  datatype SignedKeyTransition = SignedKeyTransition(
    transition: KeyTransition,
    digest: TransitionDigest,
    oldSignature: TransitionSignature,
    newSignature: TransitionSignature)

  /** The byte order of certificate ids: any order in which distinct ids differ. */
  type Rank = CertificateId -> int

  ghost predicate Injective(rank: Rank) {
    forall a, b :: rank(a) == rank(b) ==> a == b
  }

  // ------------------------------------------------------------------- validity

  predicate Timestamp(t: int) {
    1 <= t <= MAX_INT64
  }

  /** A name as its bytes: at most 100 of them, not all blank. */
  predicate ValidName(name: string) {
    |name| <= MAX_DISPLAY_NAME_BYTES && exists i :: 0 <= i < |name| && name[i] !in {' ', '\t', '\n', '\r'}
  }

  /** Supported, unique and strictly sorted. */
  predicate ValidRoles(roles: seq<int>) {
    && roles != []
    && (forall i | 0 <= i < |roles| :: 1 <= roles[i] <= 4)
    && (forall i, j | 0 <= i < j < |roles| :: roles[i] < roles[j])
  }

  predicate CertificateValid(c: Certificate) {
    && c.workspace != 0 && c.device != 0
    && c.deviceType != Unspecified
    && ValidName(c.displayName)
    && ValidRoles(c.roles)
    && Timestamp(c.issuedAt)
    && 0 <= c.expiresAt <= MAX_INT64 && (c.expiresAt == 0 || c.expiresAt > c.issuedAt)
    && 1 <= c.membershipEpoch <= MAX_INT64
  }

  predicate SignedCertificateValid(s: SignedCertificate, key: Key) {
    && CertificateValid(s.certificate)
    && s.id == IdOf(s.certificate)
    && s.signature == CertificateSignature(key, s.certificate)
  }

  /** An active certificate bound to the roster that lists it. */
  predicate ActiveValid(s: SignedCertificate, r: Roster, key: Key) {
    && SignedCertificateValid(s, key)
    && s.certificate.workspace == r.workspace
    && s.certificate.membershipEpoch <= r.epoch
  }

  predicate TransitionBound(t: CertificateTransition, r: Roster) {
    && t.workspace == r.workspace && t.device != 0
    && !t.previousId.ZeroId? && !t.newId.ZeroId? && t.previousId != t.newId
    && t.activationEpoch == r.epoch && t.previousRosterDigest == r.previousDigest
    && t.reason == DisplayName && Timestamp(t.issuedAt)
  }

  /** The active certificate of the device is the replacement the transition names. */
  predicate Replaces(t: CertificateTransition, active: seq<SignedCertificate>) {
    exists c :: c in active && c.certificate.device == t.device && c.id == t.newId
  }

  predicate RevocationBound(v: Revocation) {
    !v.certificateId.ZeroId? && v.device != 0 && Timestamp(v.revokedAt)
  }

  predicate SortedByDevice(active: seq<SignedCertificate>) {
    forall i, j | 0 <= i < j < |active| :: active[i].certificate.device < active[j].certificate.device
  }

  predicate TransitionsSorted(ts: seq<CertificateTransition>) {
    forall i, j | 0 <= i < j < |ts| :: ts[i].device < ts[j].device
  }

  predicate SortedByRank(vs: seq<Revocation>, rank: Rank) {
    forall i, j | 0 <= i < j < |vs| :: rank(vs[i].certificateId) < rank(vs[j].certificateId)
  }

  /** Nothing listed as active is listed as revoked. */
  predicate Disjoint(active: seq<SignedCertificate>, vs: seq<Revocation>) {
    forall c, v | c in active && v in vs :: c.id != v.certificateId
  }

  predicate RosterHeadValid(r: Roster) {
    && r.workspace != 0 && 1 <= r.epoch <= MAX_INT64
    && (r.epoch == 1 <==> r.previousDigest.ZeroRoster?)
  }

  predicate ActivesValid(r: Roster, key: Key) {
    && |r.active| <= MAX_ACTIVE_CERTIFICATES
    && (forall c | c in r.active :: ActiveValid(c, r, key))
    && SortedByDevice(r.active)
  }

  predicate TransitionsValid(r: Roster) {
    && |r.transitions| <= MAX_CERTIFICATE_TRANSITIONS
    && (r.epoch == 1 ==> r.transitions == [])
    && (forall t | t in r.transitions :: TransitionBound(t, r) && Replaces(t, r.active))
    && TransitionsSorted(r.transitions)
  }

  predicate RevocationsValid(r: Roster, rank: Rank) {
    && |r.revocations| <= MAX_REVOCATIONS
    && (forall v | v in r.revocations :: RevocationBound(v))
    && SortedByRank(r.revocations, rank)
    && Disjoint(r.active, r.revocations)
  }

  /** What a roster must satisfy under an authority key. */
  predicate RosterValid(r: Roster, key: Key, rank: Rank) {
    RosterHeadValid(r) && ActivesValid(r, key) && TransitionsValid(r) && RevocationsValid(r, rank)
  }

  predicate SignedRosterValid(s: SignedRoster, key: Key, rank: Rank) {
    && RosterValid(s.roster, key, rank)
    && s.digest == DigestOf(s.roster)
    && s.signature == RosterSignature(key, s.roster)
  }

  predicate KeyTransitionValid(t: KeyTransition) {
    && t.workspace != 0
    && 2 <= t.epoch <= MAX_INT64
    && (t.epoch == 2 <==> t.previousDigest.ZeroTransition?)
    && t.previousKey != t.newKey && t.previousKey != 0 && t.newKey != 0
    && 2 <= t.activationEpoch <= MAX_INT64
    && !t.previousRosterDigest.ZeroRoster?
    && Timestamp(t.issuedAt)
  }

  predicate SignedKeyTransitionValid(s: SignedKeyTransition) {
    && KeyTransitionValid(s.transition)
    && s.digest == TransitionDigestOf(s.transition)
    && s.oldSignature == TransitionSignature(s.transition.previousKey, true, s.transition)
    && s.newSignature == TransitionSignature(s.transition.newKey, false, s.transition)
  }

  /** A display-name transition changes the name, the issue time and the epoch, and nothing else. */
  predicate RenameValid(previous: SignedCertificate, current: SignedCertificate, t: CertificateTransition) {
    var o, n := previous.certificate, current.certificate;
    && t.workspace == o.workspace && t.device == o.device
    && t.previousId == previous.id && t.newId == current.id && t.reason == DisplayName
    && o.displayName != n.displayName
    && n.membershipEpoch == t.activationEpoch && n.issuedAt == t.issuedAt
    && n == o.(displayName := n.displayName, issuedAt := n.issuedAt, membershipEpoch := n.membershipEpoch)
  }

  // -------------------------------------------------------------------- signing

  function SignCertificate(c: Certificate, key: Key): SignedCertificate {
    SignedCertificate(c, IdOf(c), CertificateSignature(key, c))
  }

  function SignRoster(r: Roster, key: Key): SignedRoster {
    SignedRoster(r, DigestOf(r), RosterSignature(key, r))
  }

  function SignKeyTransition(t: KeyTransition): SignedKeyTransition {
    SignedKeyTransition(t, TransitionDigestOf(t), TransitionSignature(t.previousKey, true, t),
                        TransitionSignature(t.newKey, false, t))
  }

  // --------------------------------------------------------- the validator's loops

  /** The role loop of validateDeviceCertificate: compares each role with the one before. */
  method CheckRoles(roles: seq<int>) returns (ok: bool)
    ensures ok <==> ValidRoles(roles)
  {
    if |roles| == 0 { return false; }
    var previous := 0;
    for i := 0 to |roles|
      invariant forall k | 0 <= k < i :: 1 <= roles[k] <= 4 && roles[k] <= previous
      invariant forall k, l | 0 <= k < l < i :: roles[k] < roles[l]
      invariant previous == (if i == 0 then 0 else roles[i - 1])
    {
      var role := roles[i];
      if role < 1 || role > 4 || role <= previous {
        if i > 0 && role <= previous { assert !(roles[i - 1] < roles[i]); }
        return false;
      }
      previous := role;
    }
    ok := true;
  }

  predicate ActivesOk(active: seq<SignedCertificate>, r: Roster, key: Key) {
    (forall c | c in active :: ActiveValid(c, r, key)) && SortedByDevice(active)
  }

  lemma ActivesSnoc(active: seq<SignedCertificate>, c: SignedCertificate, r: Roster, key: Key)
    ensures ActivesOk(active + [c], r, key) <==>
            && ActivesOk(active, r, key) && ActiveValid(c, r, key)
            && (active == [] || active[|active| - 1].certificate.device < c.certificate.device)
  {
    var all := active + [c];
    assert c in all && forall x | x in active :: x in all;
    if ActivesOk(all, r, key) {
      assert forall i | 0 <= i < |active| :: all[i] == active[i];
      assert all[|active|] == c;
    }
  }

  /** A list that passes the loop passes it up to any point. */
  lemma ActivesPrefix(active: seq<SignedCertificate>, n: nat, r: Roster, key: Key)
    requires n <= |active|
    ensures ActivesOk(active, r, key) ==> ActivesOk(active[..n], r, key)
  {
  }

  /** The two lookup maps of the validator describe the certificates seen so far. */
  predicate Indexed(active: seq<SignedCertificate>, ids: set<CertificateId>, byDevice: map<nat, SignedCertificate>) {
    && (forall c | c in active ::
          c.id in ids && c.certificate.device in byDevice && byDevice[c.certificate.device] == c)
    && (forall id | id in ids :: exists c :: c in active && c.id == id)
    && (forall d | d in byDevice :: byDevice[d] in active && byDevice[d].certificate.device == d)
  }

  lemma IndexedSnoc(active: seq<SignedCertificate>, c: SignedCertificate, ids: set<CertificateId>,
                    byDevice: map<nat, SignedCertificate>)
    requires Indexed(active, ids, byDevice)
    requires forall x | x in active :: x.certificate.device != c.certificate.device
    ensures Indexed(active + [c], ids + {c.id}, byDevice[c.certificate.device := c])
  {
    var all, more := active + [c], ids + {c.id};
    assert c in all;
    forall id | id in more ensures exists x :: x in all && x.id == id {
      if id == c.id {
        assert c in all && c.id == id;
      } else {
        var x :| x in active && x.id == id;
        assert x in all;
      }
    }
  }

  /** The checks of validateWorkspaceRoster's certificate loop. */
  method CheckActives(r: Roster, key: Key) returns (ok: bool)
    ensures ok <==> ActivesValid(r, key)
  {
    if |r.active| > MAX_ACTIVE_CERTIFICATES { return false; }
    var previous := -1;
    for i := 0 to |r.active|
      invariant ActivesOk(r.active[..i], r, key)
      invariant previous == if i == 0 then -1 else r.active[i - 1].certificate.device
    {
      var c := r.active[i];
      ActivesSnoc(r.active[..i], c, r, key);
      ActivesPrefix(r.active, i + 1, r, key);
      assert r.active[..i + 1] == r.active[..i] + [c];
      if !ActiveValid(c, r, key) || (previous >= 0 && previous >= c.certificate.device) { return false; }
      previous := c.certificate.device;
    }
    assert r.active[..|r.active|] == r.active;
    ok := true;
  }

  /** The lookup maps the same loop fills. */
  method IndexActives(active: seq<SignedCertificate>)
    returns (ids: set<CertificateId>, byDevice: map<nat, SignedCertificate>)
    requires SortedByDevice(active)
    ensures Indexed(active, ids, byDevice)
  {
    ids, byDevice := {}, map[];
    for i := 0 to |active|
      invariant Indexed(active[..i], ids, byDevice)
    {
      var c := active[i];
      assert active[..i + 1] == active[..i] + [c];
      IndexedSnoc(active[..i], c, ids, byDevice);
      ids := ids + {c.id};
      byDevice := byDevice[c.certificate.device := c];
    }
    assert active[..|active|] == active;
  }

  predicate TransitionsOk(ts: seq<CertificateTransition>, r: Roster) {
    (forall t | t in ts :: TransitionBound(t, r) && Replaces(t, r.active)) && TransitionsSorted(ts)
  }

  lemma TransitionsSnoc(ts: seq<CertificateTransition>, t: CertificateTransition, r: Roster)
    ensures TransitionsOk(ts + [t], r) <==>
            && TransitionsOk(ts, r) && TransitionBound(t, r) && Replaces(t, r.active)
            && (ts == [] || ts[|ts| - 1].device < t.device)
  {
    var all := ts + [t];
    assert t in all && forall x | x in ts :: x in all;
    if TransitionsOk(all, r) {
      assert forall i | 0 <= i < |ts| :: all[i] == ts[i];
      assert all[|ts|] == t;
    }
  }

  lemma TransitionsPrefix(ts: seq<CertificateTransition>, n: nat, r: Roster)
    requires n <= |ts|
    ensures TransitionsOk(ts, r) ==> TransitionsOk(ts[..n], r)
  {
  }

  /** The map lookup of the transition loop finds exactly the replacement. */
  lemma LookupReplaces(t: CertificateTransition, active: seq<SignedCertificate>, ids: set<CertificateId>,
                       byDevice: map<nat, SignedCertificate>)
    requires Indexed(active, ids, byDevice)
    ensures Replaces(t, active) <==> t.device in byDevice && byDevice[t.device].id == t.newId
  {
  }

  /** The transition loop of validateWorkspaceRoster. */
  method CheckTransitions(r: Roster, ghost ids: set<CertificateId>, byDevice: map<nat, SignedCertificate>)
    returns (ok: bool)
    requires Indexed(r.active, ids, byDevice)
    ensures ok <==> TransitionsValid(r)
  {
    if |r.transitions| > MAX_CERTIFICATE_TRANSITIONS || (r.epoch == 1 && |r.transitions| != 0) { return false; }
    var previous := -1;
    for i := 0 to |r.transitions|
      invariant TransitionsOk(r.transitions[..i], r)
      invariant previous == if i == 0 then -1 else r.transitions[i - 1].device
    {
      var t := r.transitions[i];
      TransitionsSnoc(r.transitions[..i], t, r);
      TransitionsPrefix(r.transitions, i + 1, r);
      LookupReplaces(t, r.active, ids, byDevice);
      assert r.transitions[..i + 1] == r.transitions[..i] + [t];
      if !TransitionBound(t, r) || (previous >= 0 && previous >= t.device)
         || t.device !in byDevice || byDevice[t.device].id != t.newId
      {
        return false;
      }
      previous := t.device;
    }
    assert r.transitions[..|r.transitions|] == r.transitions;
    ok := true;
  }

  predicate RevocationsOk(vs: seq<Revocation>, active: seq<SignedCertificate>, rank: Rank) {
    (forall v | v in vs :: RevocationBound(v)) && SortedByRank(vs, rank) && Disjoint(active, vs)
  }

  lemma RevocationsSnoc(vs: seq<Revocation>, v: Revocation, active: seq<SignedCertificate>, rank: Rank)
    ensures RevocationsOk(vs + [v], active, rank) <==>
            && RevocationsOk(vs, active, rank) && RevocationBound(v)
            && (forall c | c in active :: c.id != v.certificateId)
            && (vs == [] || rank(vs[|vs| - 1].certificateId) < rank(v.certificateId))
  {
    var all := vs + [v];
    assert v in all && forall x | x in vs :: x in all;
    if RevocationsOk(all, active, rank) {
      assert forall i | 0 <= i < |vs| :: all[i] == vs[i];
      assert all[|vs|] == v;
    }
  }

  lemma RevocationsPrefix(vs: seq<Revocation>, n: nat, active: seq<SignedCertificate>, rank: Rank)
    requires n <= |vs|
    ensures RevocationsOk(vs, active, rank) ==> RevocationsOk(vs[..n], active, rank)
  {
  }

  /** The revocation loop of validateWorkspaceRoster. */
  method CheckRevocations(r: Roster, ids: set<CertificateId>, ghost byDevice: map<nat, SignedCertificate>, rank: Rank)
    returns (ok: bool)
    requires Indexed(r.active, ids, byDevice)
    ensures ok <==> RevocationsValid(r, rank)
  {
    if |r.revocations| > MAX_REVOCATIONS { return false; }
    var previous: Option<int> := None;
    for i := 0 to |r.revocations|
      invariant RevocationsOk(r.revocations[..i], r.active, rank)
      invariant previous == if i == 0 then None else Some(rank(r.revocations[i - 1].certificateId))
    {
      var v := r.revocations[i];
      RevocationsSnoc(r.revocations[..i], v, r.active, rank);
      RevocationsPrefix(r.revocations, i + 1, r.active, rank);
      assert r.revocations[..i + 1] == r.revocations[..i] + [v];
      assert v.certificateId in ids <==> exists c :: c in r.active && c.id == v.certificateId;
      if !RevocationBound(v) || (previous.Some? && previous.value >= rank(v.certificateId)) || v.certificateId in ids {
        return false;
      }
      previous := Some(rank(v.certificateId));
    }
    assert r.revocations[..|r.revocations|] == r.revocations;
    ok := true;
  }

  /** validateWorkspaceRoster: three loops that together decide declarative validity. */
  method ValidateWorkspaceRoster(r: Roster, key: Key, rank: Rank) returns (ok: bool)
    ensures ok <==> RosterValid(r, key, rank)
  {
    if r.workspace == 0 || r.epoch < 1 || r.epoch > MAX_INT64 { return false; }
    if (r.epoch == 1) != r.previousDigest.ZeroRoster? { return false; }
    var activesOk := CheckActives(r, key);
    if !activesOk { return false; }
    var ids, byDevice := IndexActives(r.active);
    var transitionsOk := CheckTransitions(r, ids, byDevice);
    if !transitionsOk { return false; }
    ok := CheckRevocations(r, ids, byDevice, rank);
  }
}
