/** Who reads what with a token, over every run. */
module AdmissionReads {
  import opened Base
  import opened Membership
  import opened Workspace
  import opened WorkspaceLaws
  import opened Admission
  import opened AdmissionRuns
  import opened AdmissionLedger
  import opened AdmissionOutcomes
  import opened MembershipRead
  import opened MembershipReadLaws

  /** The selected transitions are those in force after one epoch and up to the other, in their order. */
  lemma {:induction false} BetweenExact(ts: seq<SignedKeyTransition>, low: int, high: int)
    requires Increasing(ts)
    ensures Increasing(Between(ts, low, high))
    ensures forall t :: t in Between(ts, low, high) <==> t in ts && low < t.transition.activationEpoch <= high
  {
    if ts != [] {
      var front, last := ts[..|ts| - 1], ts[|ts| - 1];
      BetweenExact(front, low, high);
      assert ts == front + [last];
      assert forall t | t in front :: t.transition.activationEpoch < last.transition.activationEpoch;
    }
  }

  /** A member is told of exactly the rotations after its start and up to its last roster, oldest first. */
  lemma ViewTransitions(id: nat, w: Tables, x: nat, token: nat, after: nat, size: Size, v: View, rank: Rank)
    requires Sound(id, w, rank) && IsCertified(w, x) && w.devices[x].tokenHash == Hash(token)
    requires Answer(w, x, token, after, size, Ok(v))
    ensures w.devices[x].certificate.Some? && Increasing(v.transitions)
    ensures var start := if after == 0 then w.devices[x].certificate.value.certificate.membershipEpoch - 1 else after;
            forall t :: t in v.transitions <==>
              t in w.transitions && start < t.transition.activationEpoch <= FinalEpoch(w, x)
  {
    CertifiedLife(id, w, x, rank);
    ChainConsecutive(id, w, rank);
    TransitionsOrdered(id, w);
    ActivationsBounded(id, w);
    var d := w.devices[x];
    assert DeviceOk(id, w, x, d);
    BetweenExact(w.transitions, StartEpoch(d, after), LastEpoch(d));
  }

  /** The device's membership cannot be read: revoked before any approval. */
  predicate NeverMember(run: Run, id: nat, x: nat, rank: Rank) {
    && StoryOf(run, id, x, rank).Some? && StoryOf(run, id, x, rank).value.status == Revoked
    && Approvals(run, id, x, rank) == []
  }

  lemma ReadableIff(run: Run, id: nat, x: nat, token: nat, rank: Rank)
    requires Injective(rank) && id in After(run, rank).workspaces
    ensures Readable(After(run, rank).workspaces[id], x, token) <==>
            TokenOf(run, id, x, rank) == Some(token) && !NeverMember(run, id, x, rank)
  {
    hide After, StoryOf, Approvals, TokenOf;
    TokenStored(run, id, x, rank);
    LedgerHolds(run, id, x, rank);
    if Exists(After(run, rank), id, x) {
      RolesOfTheApproval(run, id, x, rank);
      AlwaysGood(run, rank);
      assert DeviceOk(id, After(run, rank).workspaces[id], x, Row(After(run, rank), id, x));
    }
  }

  /** The state a view reports is the state of the device; a revoked member still reads as one. */
  function ViewStateOf(s: Status): ViewState {
    match s
    case PendingProof => ViewPendingProof
    case PendingApproval => ViewPendingApproval
    case Approved => ViewApproved
    case Revoked => ViewApproved
  }

  lemma CertifiedAnswer(id: nat, w: Tables, x: nat, token: nat, after: nat, size: Size, r: Result<View, ReadError>,
                        rank: Rank)
    requires Sound(id, w, rank) && IsCertified(w, x) && w.devices[x].tokenHash == Hash(token)
    requires Answer(w, x, token, after, size, r)
    ensures r.Err? ==> r.error == TooManyTransitions && after > 0
    ensures r.Ok? ==> r.value.state == ViewApproved
  {
    if after == 0 {
      FirstRead(id, w, x, token, size, r, rank);
    } else {
      LaterRead(id, w, x, token, after, size, r, rank);
    }
  }

  /**
   In every run a read is refused exactly when the token is not the device's current one or the
   device never became a member; otherwise it reports the device's state, and the only error left
   is the limit on transitions, for a later page of a member.
   */
  lemma ReadOutcome(run: Run, id: nat, x: nat, token: nat, after: int, size: Size, r: Result<View, ReadError>,
                    rank: Rank)
    requires Injective(rank) && id in After(run, rank).workspaces
    requires Answer(After(run, rank).workspaces[id], x, token, after, size, r)
    ensures r == Err(Unavailable) <==>
            after < 0 || TokenOf(run, id, x, rank) != Some(token) || NeverMember(run, id, x, rank)
    ensures r.Err? && r.error != Unavailable ==> r.error == TooManyTransitions && after > 0
    ensures r.Ok? ==> Exists(After(run, rank), id, x)
                      && r.value.state == ViewStateOf(Row(After(run, rank), id, x).status)
  {
    hide Sound, StoryOf, Approvals, TokenOf, NeverMember, ViewOf;
    ReadableIff(run, id, x, token, rank);
    AlwaysGood(run, rank);
    var w := After(run, rank).workspaces[id];
    if after >= 0 && Readable(w, x, token) && IsCertified(w, x) {
      CertifiedAnswer(id, w, x, token, after, size, r, rank);
    }
  }
}
