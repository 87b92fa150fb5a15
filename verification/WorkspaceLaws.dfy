/** Every membership transaction keeps a workspace sound, and succeeds exactly when its caller's inputs allow. */
module WorkspaceLaws {
  import opened Base
  import opened Membership
  import opened Workspace

  // ------------------------------------------------------------------ list lemmas

  lemma SortedCons(c: SignedCertificate, rest: seq<SignedCertificate>)
    requires SortedByDevice(rest) && forall x | x in rest :: c.certificate.device < x.certificate.device
    ensures SortedByDevice([c] + rest)
  {
  }

  lemma {:induction false} InsertByDeviceSorted(active: seq<SignedCertificate>, c: SignedCertificate)
    requires SortedByDevice(active) && forall x | x in active :: x.certificate.device != c.certificate.device
    ensures SortedByDevice(InsertByDevice(active, c))
  {
    if active != [] {
      var first, rest := active[0], active[1..];
      assert active == [first] + rest;
      assert forall x | x in rest :: first.certificate.device < x.certificate.device;
      if first.certificate.device <= c.certificate.device {
        assert first in active;
        InsertByDeviceSorted(rest, c);
        SortedCons(first, InsertByDevice(rest, c));
      } else {
        SortedCons(c, active);
      }
    }
  }

  lemma RankedCons(v: Revocation, rest: seq<Revocation>, rank: Rank)
    requires SortedByRank(rest, rank) && forall x | x in rest :: rank(v.certificateId) < rank(x.certificateId)
    ensures SortedByRank([v] + rest, rank)
  {
  }

  lemma {:induction false} InsertByRankSorted(vs: seq<Revocation>, v: Revocation, rank: Rank)
    requires SortedByRank(vs, rank) && forall x | x in vs :: rank(x.certificateId) != rank(v.certificateId)
    ensures SortedByRank(InsertByRank(vs, v, rank), rank)
  {
    if vs != [] {
      var first, rest := vs[0], vs[1..];
      assert vs == [first] + rest;
      assert forall x | x in rest :: rank(first.certificateId) < rank(x.certificateId);
      if rank(first.certificateId) <= rank(v.certificateId) {
        assert first in vs;
        InsertByRankSorted(rest, v, rank);
        RankedCons(first, InsertByRank(rest, v, rank), rank);
      } else {
        RankedCons(v, vs, rank);
      }
    }
  }

  lemma {:induction false} TakeOutAbsent(active: seq<SignedCertificate>, device: nat, stored: SignedCertificate)
    requires forall c | c in active :: c.certificate.device != device
    ensures TakeOut(active, device, stored) == Ok((active, false))
  {
    if active != [] {
      TakeOutAbsent(active[..|active| - 1], device, stored);
      assert active == active[..|active| - 1] + [active[|active| - 1]];
    }
  }

  lemma SortedFront(active: seq<SignedCertificate>)
    requires SortedByDevice(active) && active != []
    ensures var front, last := active[..|active| - 1], active[|active| - 1];
            && active == front + [last] && SortedByDevice(front)
            && (forall x | x in front :: x.certificate.device < last.certificate.device)
  {
  }

  lemma SortedSnoc(front: seq<SignedCertificate>, c: SignedCertificate)
    requires SortedByDevice(front) && forall x | x in front :: x.certificate.device < c.certificate.device
    ensures SortedByDevice(front + [c])
  {
  }

  /** On a sorted list that holds the stored certificate, the loop finds it and removes exactly it. */
  lemma {:induction false} TakeOutFound(active: seq<SignedCertificate>, device: nat, stored: SignedCertificate)
    requires SortedByDevice(active) && stored in active && stored.certificate.device == device
    ensures TakeOut(active, device, stored).Ok? && TakeOut(active, device, stored).value.1
    ensures var kept := TakeOut(active, device, stored).value.0;
            && SortedByDevice(kept) && |kept| == |active| - 1
            && (forall c :: c in kept <==> c in active && c.certificate.device != device)
  {
    SortedFront(active);
    var front, c := active[..|active| - 1], active[|active| - 1];
    if c.certificate.device == device {
      TakeOutAbsent(front, device, stored);
    } else {
      TakeOutFound(front, device, stored);
      SortedSnoc(TakeOut(front, device, stored).value.0, c);
    }
  }

  // ------------------------------------------------------------------- key folding

  lemma {:induction false} KeyAtLatest(id: nat, w: Tables, epoch: int)
    requires KeysOk(id, w) && epoch >= |w.rosters|
    ensures KeyAt(w.transitions, w.authorityKey, epoch) == w.authorityKey
  {
    if w.transitions != [] { assert TransitionLinked(id, w, |w.transitions| - 1); }
  }

  /** No transition takes effect between two epochs: the key is the same at both. */
  lemma {:induction false} KeyAtSame(ts: seq<SignedKeyTransition>, current: Key, m: int, n: int)
    requires m <= n && forall t | t in ts :: !(m < t.transition.activationEpoch <= n)
    ensures KeyAt(ts, current, m) == KeyAt(ts, current, n)
  {
    if ts != [] {
      assert ts[|ts| - 1] in ts;
      KeyAtSame(ts[..|ts| - 1], ts[|ts| - 1].transition.previousKey, m, n);
    }
  }

  // -------------------------------------------------------- what soundness gives

  /** prepareNextWorkspaceRoster never fails to decode its predecessor under the current key. */
  lemma PrepareExact(id: nat, w: Tables, rank: Rank)
    requires ChainOk(id, w, rank) && KeysOk(id, w)
    ensures Prepare(w, w.authorityKey, rank) ==
            if |w.rosters| >= MAX_INT64 then Err(EpochExhausted)
            else Ok(Draft(|w.rosters| + 1, LastDigest(w), Active(w), Revocations(w)))
  {
    if w.rosters != [] {
      assert RosterLinked(id, w, |w.rosters| - 1, rank);
      KeyAtLatest(id, w, |w.rosters|);
    }
  }

  /** The newest roster is valid under the current key. */
  lemma LatestValid(id: nat, w: Tables, rank: Rank)
    requires ChainOk(id, w, rank) && KeysOk(id, w) && w.rosters != []
    ensures var last := w.rosters[|w.rosters| - 1];
            && SignedRosterValid(last, w.authorityKey, rank)
            && last.roster.workspace == id && last.roster.epoch == |w.rosters|
  {
    assert RosterLinked(id, w, |w.rosters| - 1, rank);
    KeyAtLatest(id, w, |w.rosters|);
  }

  /** A certified certificate is valid under the key in force to the end of its life. */
  lemma CertifiedValid(id: nat, w: Tables, c: SignedCertificate, last: int, rank: Rank)
    requires ChainOk(id, w, rank) && Certified(w, c, last)
    ensures SignedCertificateValid(c, KeyAt(w.transitions, w.authorityKey, last))
    ensures c.id == IdOf(c.certificate)
  {
    var m := c.certificate.membershipEpoch;
    assert RosterLinked(id, w, m - 1, rank);
    assert c in w.rosters[m - 1].roster.active;
    KeyAtSame(w.transitions, w.authorityKey, m, last);
  }

  /** The stored certificate of an approved device is active in the newest roster and valid under the current key. */
  lemma ApprovedCertificate(id: nat, w: Tables, device: nat, rank: Rank)
    requires ChainOk(id, w, rank) && KeysOk(id, w) && DevicesOk(id, w)
    requires device in w.devices && w.devices[device].status == Approved
    ensures var d := w.devices[device];
            && |w.rosters| >= 1 && d.revokedAt.None? && d.certificate.Some?
            && d.certificate.value in Active(w)
            && SignedCertificateValid(d.certificate.value, w.authorityKey)
            && Matches(id, device, d, d.certificate.value)
            && StoredCertificate(d, id, device, w.authorityKey) == Some(d.certificate.value)
  {
    var d := w.devices[device];
    assert DeviceOk(id, w, device, d);
    CertifiedValid(id, w, d.certificate.value, |w.rosters|, rank);
    KeyAtLatest(id, w, |w.rosters|);
    assert d.certificate.value in w.rosters[|w.rosters| - 1].roster.active;
  }

  /** A revocation names a certificate of its own device. */
  lemma RevokedId(id: nat, w: Tables, v: Revocation, rank: Rank)
    requires ChainOk(id, w, rank) && DevicesOk(id, w) && RevokedOk(w) && v in Revocations(w)
    ensures v.certificateId.IdOf? && v.certificateId.certificate.device == v.device
    ensures v.device in w.devices && w.devices[v.device].status == Revoked
  {
    var d := w.devices[v.device];
    assert DeviceOk(id, w, v.device, d);
    CertifiedValid(id, w, d.certificate.value, d.revokedEpoch.value - 1, rank);
  }

  // ------------------------------------------------- appending one roster, in parts

  /** The new tables extend the chain by one roster; keys of earlier epochs are unchanged. */
  predicate Extends(w: Tables, n: Tables, s: SignedRoster) {
    && n.rosters == w.rosters + [s]
    && (|| n.transitions == w.transitions
        || (|n.transitions| == |w.transitions| + 1 && n.transitions[..|w.transitions|] == w.transitions
            && n.transitions[|w.transitions|].transition.activationEpoch == |w.rosters| + 1))
  }

  lemma ChainAppend(id: nat, w: Tables, n: Tables, s: SignedRoster, rank: Rank)
    requires ChainOk(id, w, rank) && n.rosters == w.rosters + [s]
    requires forall e | 1 <= e <= |w.rosters| ::
               KeyAt(n.transitions, n.authorityKey, e) == KeyAt(w.transitions, w.authorityKey, e)
    requires RosterLinked(id, n, |w.rosters|, rank)
    ensures ChainOk(id, n, rank)
  {
    forall i | 0 <= i < |n.rosters| ensures RosterLinked(id, n, i, rank) {
      if i < |w.rosters| { assert RosterLinked(id, w, i, rank); }
    }
  }

  lemma KeysKeep(id: nat, w: Tables, n: Tables, s: SignedRoster)
    requires KeysOk(id, w) && n.rosters == w.rosters + [s] && n.transitions == w.transitions
    requires n.authorityEpoch == w.authorityEpoch && n.transitionDigest == w.transitionDigest
    requires n.authorityKey == w.authorityKey
    ensures KeysOk(id, n)
  {
    forall i | 0 <= i < |n.transitions| ensures TransitionLinked(id, n, i) {
      assert TransitionLinked(id, w, i);
    }
  }

  lemma CertifiedKeeps(w: Tables, n: Tables, s: SignedRoster, c: SignedCertificate, last: int)
    requires Extends(w, n, s) && Certified(w, c, last)
    ensures Certified(n, c, last)
  {
    forall t | t in n.transitions ensures !(c.certificate.membershipEpoch < t.transition.activationEpoch <= last) {
      if n.transitions != w.transitions { assert n.transitions == w.transitions + [n.transitions[|w.transitions|]]; }
      if t in w.transitions {} else { assert t.transition.activationEpoch == |w.rosters| + 1; }
    }
  }

  /** A certificate listed in one more roster, with no change of authority there. */
  lemma CertifiedExtends(w: Tables, n: Tables, s: SignedRoster, c: SignedCertificate)
    requires n.rosters == w.rosters + [s] && n.transitions == w.transitions
    requires Certified(w, c, |w.rosters|) && c in s.roster.active
    requires forall t | t in w.transitions :: t.transition.activationEpoch <= |w.rosters|
    ensures Certified(n, c, |n.rosters|)
  {
    forall i | c.certificate.membershipEpoch - 1 <= i < |n.rosters| ensures c in n.rosters[i].roster.active {
      if i < |w.rosters| { assert c in w.rosters[i].roster.active; }
    }
  }

  lemma ActivationsBounded(id: nat, w: Tables)
    requires KeysOk(id, w)
    ensures forall t | t in w.transitions :: 2 <= t.transition.activationEpoch <= |w.rosters|
  {
    forall t | t in w.transitions ensures 2 <= t.transition.activationEpoch <= |w.rosters| {
      var i :| 0 <= i < |w.transitions| && w.transitions[i] == t;
      assert TransitionLinked(id, w, i);
    }
  }

  lemma RevokedKeeps(w: Tables, n: Tables, s: SignedRoster, device: nat, c: SignedCertificate, e: int)
    requires Extends(w, n, s) && RevokedAt(w, device, c, e)
    ensures RevokedAt(n, device, c, e)
  {
    CertifiedKeeps(w, n, s, c, e - 1);
    forall t | t in n.transitions ensures t.transition.activationEpoch != e {
      if n.transitions != w.transitions { assert n.transitions == w.transitions + [n.transitions[|w.transitions|]]; }
    }
    assert n.rosters[e - 1] == w.rosters[e - 1];
  }

  /** A device record the transaction did not touch stays consistent. */
  lemma DeviceKeeps(id: nat, w: Tables, n: Tables, s: SignedRoster, device: nat, d: Device)
    requires Extends(w, n, s) && KeysOk(id, w) && DeviceOk(id, w, device, d)
    requires d.status == Approved ==> n.transitions == w.transitions && d.certificate.value in s.roster.active
    ensures DeviceOk(id, n, device, d)
  {
    if d.status == Approved {
      ActivationsBounded(id, w);
      CertifiedExtends(w, n, s, d.certificate.value);
    } else if d.status == Revoked && d.certificate.Some? {
      RevokedKeeps(w, n, s, device, d.certificate.value, d.revokedEpoch.value);
    }
  }

  lemma GrowsAppend(w: Tables, n: Tables, s: SignedRoster)
    requires GrowsOk(w) && n.rosters == w.rosters + [s]
    requires forall v | v in Revocations(w) :: v in s.roster.revocations
    ensures GrowsOk(n)
  {
    forall i | 0 < i < |n.rosters|
      ensures forall v | v in n.rosters[i - 1].roster.revocations :: v in n.rosters[i].roster.revocations
    {
      assert n.rosters[i - 1] == w.rosters[i - 1];
      if i < |w.rosters| { assert n.rosters[i] == w.rosters[i]; }
    }
  }

  /** Revocations of any roster are in every later one. */
  lemma {:induction false} GrowsTransitive(w: Tables, i: nat, j: nat, v: Revocation)
    requires GrowsOk(w) && i <= j < |w.rosters| && v in w.rosters[i].roster.revocations
    ensures v in w.rosters[j].roster.revocations
    decreases j - i
  {
    if i < j {
      assert v in w.rosters[i + 1].roster.revocations by { assert w.rosters[(i + 1) - 1] == w.rosters[i]; }
      GrowsTransitive(w, i + 1, j, v);
    }
  }

  lemma PermanentAppend(w: Tables, n: Tables, s: SignedRoster)
    requires PermanentOk(w) && n.rosters == w.rosters + [s]
    requires GrowsOk(n) && ActiveOk(n) && RevokedOk(n)
    ensures PermanentOk(n)
  {
    var last := |w.rosters|;
    forall i, j | 0 <= i <= j < |n.rosters| ensures Gone(n.rosters[i], n.rosters[j]) {
      if j < last {
        assert Gone(w.rosters[i], w.rosters[j]);
      } else {
        forall v, c | v in n.rosters[i].roster.revocations && c in n.rosters[j].roster.active
          ensures c.certificate.device != v.device
        {
          GrowsTransitive(n, i, j, v);
          assert v in Revocations(n) && c in Active(n);
        }
      }
    }
  }
}
