/** On sound tables every certified device can read its way along the whole roster chain. */
module MembershipReadLaws {
  import opened Base
  import opened Membership
  import opened Workspace
  import opened WorkspaceLaws
  import opened MembershipRead

  // ------------------------------------------------------------------ selected rows

  /** The part of a sequence above one index and up to another, cut to its length. */
  function Cut<T>(rs: seq<T>, low: nat, high: int): seq<T> {
    if low < Min(high, |rs|) then rs[low..Min(high, |rs|)] else []
  }

  lemma CutSnoc<T>(front: seq<T>, s: T, low: nat, high: int)
    ensures Cut(front + [s], low, high) == Cut(front, low, high) + (if low < |front| + 1 <= high then [s] else [])
  {
  }

  lemma {:induction false} RostersSlice(rs: seq<SignedRoster>, low: nat, high: int)
    requires Consecutive(rs, 1)
    ensures RostersBetween(rs, low, high) == Cut(rs, low, high)
  {
    if rs != [] {
      var front, s := rs[..|rs| - 1], rs[|rs| - 1];
      RostersSlice(front, low, high);
      CutSnoc(front, s, low, high);
      assert rs == front + [s];
    }
  }

  predicate Increasing(ts: seq<SignedKeyTransition>) {
    forall i, j | 0 <= i < j < |ts| :: ts[i].transition.activationEpoch < ts[j].transition.activationEpoch
  }

  predicate KeysLinked(ts: seq<SignedKeyTransition>, current: Key) {
    && (forall i | 0 < i < |ts| :: ts[i].transition.previousKey == ts[i - 1].transition.newKey)
    && (ts != [] ==> current == ts[|ts| - 1].transition.newKey)
  }

  lemma {:induction false} IncreasingFrom(id: nat, w: Tables, i: nat, j: nat)
    requires KeysOk(id, w) && i < j < |w.transitions|
    ensures w.transitions[i].transition.activationEpoch < w.transitions[j].transition.activationEpoch
    decreases j
  {
    assert TransitionLinked(id, w, j);
    if i < j - 1 { IncreasingFrom(id, w, i, j - 1); }
  }

  lemma TransitionsOrdered(id: nat, w: Tables)
    requires KeysOk(id, w)
    ensures Increasing(w.transitions) && KeysLinked(w.transitions, w.authorityKey)
  {
    forall i, j | 0 <= i < j < |w.transitions|
      ensures w.transitions[i].transition.activationEpoch < w.transitions[j].transition.activationEpoch
    {
      IncreasingFrom(id, w, i, j);
    }
    forall i | 0 < i < |w.transitions|
      ensures w.transitions[i].transition.previousKey == w.transitions[i - 1].transition.newKey
    {
      assert TransitionLinked(id, w, i);
    }
  }

  lemma {:induction false} BetweenEmpty(ts: seq<SignedKeyTransition>, low: int, high: int)
    requires forall t | t in ts :: !(low < t.transition.activationEpoch <= high)
    ensures Between(ts, low, high) == []
  {
    if ts != [] {
      assert ts[|ts| - 1] in ts;
      BetweenEmpty(ts[..|ts| - 1], low, high);
    }
  }

  /** No transition after the certificate's epoch: at most the one that took effect with it is selected. */
  lemma {:induction false} AtMostOne(ts: seq<SignedKeyTransition>, m: int, last: int)
    requires Increasing(ts) && forall t | t in ts :: !(m < t.transition.activationEpoch <= last)
    ensures |Between(ts, m - 1, last)| <= 1
  {
    if ts != [] {
      var front, t := ts[..|ts| - 1], ts[|ts| - 1];
      assert t in ts;
      if m - 1 < t.transition.activationEpoch <= last {
        forall o | o in front ensures !(m - 1 < o.transition.activationEpoch <= last) {
          var i :| 0 <= i < |front| && front[i] == o;
          assert ts[i].transition.activationEpoch < ts[|ts| - 1].transition.activationEpoch;
        }
        BetweenEmpty(front, m - 1, last);
      } else {
        AtMostOne(front, m, last);
      }
    }
  }

  lemma KeysFront(ts: seq<SignedKeyTransition>, current: Key)
    requires Increasing(ts) && KeysLinked(ts, current) && ts != []
    ensures Increasing(ts[..|ts| - 1]) && KeysLinked(ts[..|ts| - 1], ts[|ts| - 1].transition.previousKey)
  {
  }

  /** The key selected for a revoked device is the one the transitions give for its last epoch. */
  lemma {:induction false} TerminalKeyIs(ts: seq<SignedKeyTransition>, current: Key, last: int)
    requires Increasing(ts) && KeysLinked(ts, current) && forall t | t in ts :: t.transition.activationEpoch > 0
    ensures TerminalKey(ts, current, last) == KeyAt(ts, current, last)
  {
    if ts != [] {
      var front, t := ts[..|ts| - 1], ts[|ts| - 1];
      assert t in ts;
      KeysFront(ts, current);
      TerminalKeyIs(front, t.transition.previousKey, last);
    }
  }

  // ------------------------------------------------------------- what a device reads

  /** A device that has been certified: approved now, or revoked in a roster. */
  predicate IsCertified(w: Tables, device: nat) {
    && device in w.devices
    && var d := w.devices[device]; d.status == Approved || (d.status == Revoked && d.revokedEpoch.Some?)
  }

  /** The last roster the device may read. */
  function FinalEpoch(w: Tables, device: nat): int
    requires device in w.devices
  {
    if w.devices[device].revokedEpoch.Some? then w.devices[device].revokedEpoch.value else |w.rosters|
  }

  /** The stored certificate is listed from its epoch to the last one before the end, under the key of the end. */
  lemma CertifiedLife(id: nat, w: Tables, device: nat, rank: Rank)
    requires Sound(id, w, rank) && IsCertified(w, device)
    ensures var d, e := w.devices[device], FinalEpoch(w, device);
            && d.certificate.Some? && 1 <= e <= |w.rosters|
            && var m := d.certificate.value.certificate.membershipEpoch;
               && 1 <= m <= e && d.certificate.value in w.rosters[m - 1].roster.active
               && SignedCertificateValid(d.certificate.value, KeyAt(w.transitions, w.authorityKey, e))
               && (forall t | t in w.transitions :: !(m < t.transition.activationEpoch <= e))
  {
    var d, e := w.devices[device], FinalEpoch(w, device);
    assert DeviceOk(id, w, device, d);
    if d.status == Approved {
      CertifiedValid(id, w, d.certificate.value, e, rank);
    } else {
      CertifiedValid(id, w, d.certificate.value, e - 1, rank);
      KeyAtSame(w.transitions, w.authorityKey, e - 1, e);
    }
  }

  /** The key handed out is the key in force at the last readable roster. */
  lemma HandedKeyIs(id: nat, w: Tables, device: nat, rank: Rank)
    requires Sound(id, w, rank) && IsCertified(w, device)
    ensures HandedKey(w, w.devices[device]) == KeyAt(w.transitions, w.authorityKey, FinalEpoch(w, device))
  {
    TransitionsOrdered(id, w);
    ActivationsBounded(id, w);
    assert DeviceOk(id, w, device, w.devices[device]);
    if w.devices[device].revokedEpoch.Some? {
      TerminalKeyIs(w.transitions, w.authorityKey, FinalEpoch(w, device));
    } else {
      KeyAtLatest(id, w, |w.rosters|);
    }
  }

  lemma ChainConsecutive(id: nat, w: Tables, rank: Rank)
    requires ChainOk(id, w, rank)
    ensures Consecutive(w.rosters, 1) && |w.rosters| <= MAX_INT64
  {
    forall i | 0 <= i < |w.rosters| ensures w.rosters[i].roster.epoch == 1 + i { assert RosterLinked(id, w, i, rank); }
    if w.rosters != [] { assert RosterLinked(id, w, |w.rosters| - 1, rank); }
  }

  /** The rows a certified device pages over are the rosters up to its last epoch. */
  lemma RowsAre(id: nat, w: Tables, device: nat, start: nat, rank: Rank)
    requires Sound(id, w, rank) && IsCertified(w, device)
    ensures var e := FinalEpoch(w, device);
            && 1 <= e <= |w.rosters|
            && RostersBetween(w.rosters, start, LastEpoch(w.devices[device]))
            == (if start < e then w.rosters[start..e] else [])
            && Consecutive(RostersBetween(w.rosters, start, LastEpoch(w.devices[device])), start + 1)
  {
    CertifiedLife(id, w, device, rank);
    ChainConsecutive(id, w, rank);
    assert DeviceOk(id, w, device, w.devices[device]);
    RostersSlice(w.rosters, start, LastEpoch(w.devices[device]));
  }

  /** A page that starts at a roster: at least one roster until the end, and exactly the next ones. */
  predicate NextPage(w: Tables, device: nat, start: nat, size: Size, v: View)
    requires device in w.devices && 1 <= FinalEpoch(w, device) <= |w.rosters|
  {
    var e := FinalEpoch(w, device);
    && v.latest == e
    && (start >= e ==> v.rosters == [])
    && (start < e ==>
          && 1 <= |v.rosters| <= e - start && v.rosters == w.rosters[start..start + |v.rosters|]
          && PageLength(w.rosters[start..e], size, |v.rosters|))
  }

  lemma PrefixOfSlice(rs: seq<SignedRoster>, start: nat, e: nat, page: seq<SignedRoster>)
    requires start <= e <= |rs| && page <= rs[start..e]
    ensures |page| <= e - start && page == rs[start..start + |page|]
  {
  }

  lemma LatestIs(id: nat, w: Tables, device: nat, start: int, size: Size, v: View, rank: Rank)
    requires ChainOk(id, w, rank) && device in w.devices && w.rosters != []
    requires ViewOf(w, w.devices[device], start, size, v)
    ensures v.latest == FinalEpoch(w, device)
  {
    ChainConsecutive(id, w, rank);
  }

  lemma PageShape(rs: seq<SignedRoster>, rows: seq<SignedRoster>, start: nat, e: nat, size: Size,
                  page: seq<SignedRoster>)
    requires e <= |rs| && rows == (if start < e then rs[start..e] else []) && page <= rows
    requires PageLength(rows, size, |page|)
    ensures start >= e ==> page == []
    ensures start < e ==>
              1 <= |page| <= e - start && page == rs[start..start + |page|] && PageLength(rs[start..e], size, |page|)
  {
    if start < e { PrefixOfSlice(rs, start, e, page); }
  }

  lemma ViewIsNextPage(id: nat, w: Tables, device: nat, start: nat, size: Size, v: View, rank: Rank)
    requires Sound(id, w, rank) && IsCertified(w, device) && 1 <= FinalEpoch(w, device) <= |w.rosters|
    requires ViewOf(w, w.devices[device], start, size, v)
    ensures NextPage(w, device, start, size, v)
  {
    hide KeysOk, DevicesOk, ActiveOk, RevokedOk, GrowsOk, PermanentOk, RostersBetween, PageLength;
    RowsAre(id, w, device, start, rank);
    LatestIs(id, w, device, start, size, v, rank);
    PageShape(w.rosters, RostersBetween(w.rosters, start, LastEpoch(w.devices[device])), start, FinalEpoch(w, device),
              size, v.rosters);
  }

  /** The first request of a certified device is never refused. */
  lemma FirstAnswer(id: nat, w: Tables, device: nat, token: nat, size: Size, r: Result<View, ReadError>, rank: Rank)
    requires Sound(id, w, rank) && IsCertified(w, device) && w.devices[device].tokenHash == Hash(token)
    requires Answer(w, device, token, 0, size, r) && w.devices[device].certificate.Some?
    requires Decodes(w.devices[device], HandedKey(w, w.devices[device]))
    requires w.devices[device].certificate.value.certificate.membershipEpoch >= 1
    ensures r.Ok? && |r.value.transitions| <= 1
    ensures ViewOf(w, w.devices[device], w.devices[device].certificate.value.certificate.membershipEpoch - 1, size,
                   r.value)
  {
    hide ChainOk, KeysOk, ActiveOk, RevokedOk, GrowsOk, PermanentOk, Between, RostersBetween, TerminalKey, PageLength;
    FewTransitions(id, w, device, rank);
    RowsAre(id, w, device, w.devices[device].certificate.value.certificate.membershipEpoch - 1, rank);
    assert DeviceOk(id, w, device, w.devices[device]);
  }

  /**
   Reading from 0: the stored certificate decodes under the key handed out, at most one
   transition comes back, and the first roster of the page lists that certificate.
   */
  lemma FirstRead(id: nat, w: Tables, device: nat, token: nat, size: Size, r: Result<View, ReadError>, rank: Rank)
    requires Sound(id, w, rank) && IsCertified(w, device) && w.devices[device].tokenHash == Hash(token)
    requires Answer(w, device, token, 0, size, r)
    ensures w.devices[device].certificate.Some? && 1 <= FinalEpoch(w, device) <= |w.rosters|
    ensures var c := w.devices[device].certificate.value;
            && r.Ok? && c.certificate.membershipEpoch >= 1
            && SignedCertificateValid(c, r.value.key) && r.value.certificate == Some(c)
            && r.value.key == KeyAt(w.transitions, w.authorityKey, FinalEpoch(w, device))
            && |r.value.transitions| <= 1
            && NextPage(w, device, c.certificate.membershipEpoch - 1, size, r.value)
            && r.value.rosters != [] && c in r.value.rosters[0].roster.active
  {
    hide ChainOk, KeysOk, DevicesOk, ActiveOk, RevokedOk, GrowsOk, PermanentOk;
    hide Answer, PageLength, SignedCertificateValid;
    CertifiedLife(id, w, device, rank);
    HandedKeyIs(id, w, device, rank);
    FirstAnswer(id, w, device, token, size, r, rank);
    var start := w.devices[device].certificate.value.certificate.membershipEpoch - 1;
    ViewIsNextPage(id, w, device, start, size, r.value, rank);
    assert r.value.rosters[0] == w.rosters[start];
  }

  lemma FewTransitions(id: nat, w: Tables, device: nat, rank: Rank)
    requires Sound(id, w, rank) && IsCertified(w, device) && w.devices[device].certificate.Some?
    ensures |Between(w.transitions, w.devices[device].certificate.value.certificate.membershipEpoch - 1,
                     LastEpoch(w.devices[device]))| <= 1
  {
    CertifiedLife(id, w, device, rank);
    TransitionsOrdered(id, w);
    ActivationsBounded(id, w);
    assert DeviceOk(id, w, device, w.devices[device]);
    AtMostOne(w.transitions, w.devices[device].certificate.value.certificate.membershipEpoch,
              LastEpoch(w.devices[device]));
  }

  /** Reading on: the next rosters, unless more than 256 transitions are still to come. */
  lemma LaterRead(id: nat, w: Tables, device: nat, token: nat, after: nat, size: Size, r: Result<View, ReadError>,
                  rank: Rank)
    requires Sound(id, w, rank) && IsCertified(w, device) && w.devices[device].tokenHash == Hash(token) && after > 0
    requires Answer(w, device, token, after, size, r)
    ensures 1 <= FinalEpoch(w, device) <= |w.rosters|
    ensures r.Err? <==> |Between(w.transitions, after, LastEpoch(w.devices[device]))| > MAX_TRANSITIONS
    ensures r.Err? ==> r.error == TooManyTransitions
    ensures r.Ok? ==> NextPage(w, device, after, size, r.value)
  {
    assert DeviceOk(id, w, device, w.devices[device]);
    RowsAre(id, w, device, after, rank);
    if r.Ok? { ViewIsNextPage(id, w, device, after, size, r.value, rank); }
  }

  /** From its certificate's own epoch on, a device never meets the transition limit. */
  lemma FollowingNeverFails(id: nat, w: Tables, device: nat, token: nat, after: nat, size: Size,
                            r: Result<View, ReadError>, rank: Rank)
    requires Sound(id, w, rank) && IsCertified(w, device) && w.devices[device].tokenHash == Hash(token)
    requires w.devices[device].certificate.Some?
    requires 0 < w.devices[device].certificate.value.certificate.membershipEpoch <= after
    requires Answer(w, device, token, after, size, r)
    ensures r.Ok? && r.value.transitions == []
  {
    NoLaterTransitions(id, w, device, after, rank);
    LaterRead(id, w, device, token, after, size, r, rank);
    assert DeviceOk(id, w, device, w.devices[device]);
  }

  lemma NoLaterTransitions(id: nat, w: Tables, device: nat, after: nat, rank: Rank)
    requires Sound(id, w, rank) && IsCertified(w, device)
    requires w.devices[device].certificate.Some?
    requires w.devices[device].certificate.value.certificate.membershipEpoch <= after
    ensures Between(w.transitions, after, LastEpoch(w.devices[device])) == []
  {
    CertifiedLife(id, w, device, rank);
    ActivationsBounded(id, w);
    assert DeviceOk(id, w, device, w.devices[device]);
    BetweenEmpty(w.transitions, after, LastEpoch(w.devices[device]));
  }

  // ----------------------------------------------------------------- following pages

  function Collected(views: seq<View>): seq<SignedRoster> {
    if views == [] then [] else views[0].rosters + Collected(views[1..])
  }

  /** Each view answers a request from the last epoch of the one before, up to the last readable roster. */
  predicate Followed(w: Tables, device: nat, token: nat, start: nat, after: nat, size: Size, views: seq<View>)
    requires device in w.devices
    decreases |views|
  {
    if start >= FinalEpoch(w, device) then views == []
    else
      && views != [] && Answer(w, device, token, after, size, Ok(views[0]))
      && Followed(w, device, token, start + |views[0].rosters|, start + |views[0].rosters|, size, views[1..])
  }

  predicate PageAt(rs: seq<SignedRoster>, start: nat, e: nat, v: View) {
    e <= |rs| && 1 <= |v.rosters| <= e - start && v.rosters == rs[start..start + |v.rosters|]
  }

  /** Each view holds the next rosters of the chain, at least one. */
  predicate Tiled(rs: seq<SignedRoster>, start: nat, e: nat, views: seq<View>)
    decreases |views|
  {
    if start >= e then views == []
    else views != [] && PageAt(rs, start, e, views[0]) && Tiled(rs, start + |views[0].rosters|, e, views[1..])
  }

  lemma {:induction false} TilesCover(rs: seq<SignedRoster>, start: nat, e: nat, views: seq<View>)
    requires start <= e <= |rs| && Tiled(rs, start, e, views)
    ensures Collected(views) == rs[start..e] && forall v | v in views :: v.rosters != []
    decreases |views|
  {
    if start < e {
      var next := start + |views[0].rosters|;
      TilesCover(rs, next, e, views[1..]);
      assert rs[start..next] + rs[next..e] == rs[start..e];
    }
  }

  /** Every answer to a request from a later epoch is the next page. */
  ghost predicate AllPages(w: Tables, device: nat, token: nat, size: Size, e: nat) {
    forall after: nat, v | 0 < after < e && Answer(w, device, token, after, size, Ok(v)) ::
      PageAt(w.rosters, after, e, v)
  }

  lemma AnswersArePages(id: nat, w: Tables, device: nat, token: nat, size: Size, rank: Rank)
    requires Sound(id, w, rank) && IsCertified(w, device) && w.devices[device].tokenHash == Hash(token)
    ensures FinalEpoch(w, device) >= 0 && AllPages(w, device, token, size, FinalEpoch(w, device))
  {
    CertifiedLife(id, w, device, rank);
    forall after: nat, v | 0 < after < FinalEpoch(w, device) && Answer(w, device, token, after, size, Ok(v))
      ensures PageAt(w.rosters, after, FinalEpoch(w, device), v)
    {
      LaterRead(id, w, device, token, after, size, Ok(v), rank);
    }
  }

  lemma {:induction false} FollowedTiles(w: Tables, device: nat, token: nat, after: nat, size: Size, views: seq<View>)
    requires device in w.devices && FinalEpoch(w, device) >= 0
    requires AllPages(w, device, token, size, FinalEpoch(w, device))
    requires after > 0 && Followed(w, device, token, after, after, size, views)
    ensures Tiled(w.rosters, after, FinalEpoch(w, device), views)
    decreases |views|
  {
    if after < FinalEpoch(w, device) {
      assert PageAt(w.rosters, after, FinalEpoch(w, device), views[0]);
      FollowedTiles(w, device, token, after + |views[0].rosters|, size, views[1..]);
    }
  }

  lemma FirstPage(id: nat, w: Tables, device: nat, token: nat, start: nat, size: Size, v: View, rank: Rank)
    requires Sound(id, w, rank) && IsCertified(w, device) && w.devices[device].tokenHash == Hash(token)
    requires w.devices[device].certificate.Some? && Answer(w, device, token, 0, size, Ok(v))
    requires start == w.devices[device].certificate.value.certificate.membershipEpoch - 1
    ensures start < FinalEpoch(w, device) && PageAt(w.rosters, start, FinalEpoch(w, device), v)
  {
    hide ChainOk, KeysOk, DevicesOk, ActiveOk, RevokedOk, GrowsOk, PermanentOk, Answer, PageLength;
    CertifiedLife(id, w, device, rank);
    FirstRead(id, w, device, token, size, Ok(v), rank);
  }

  /** From 0 the pages give every roster from the certificate's own to the last readable one, each exactly once. */
  lemma PagesFromZero(id: nat, w: Tables, device: nat, token: nat, start: nat, size: Size, views: seq<View>, rank: Rank)
    requires Sound(id, w, rank) && IsCertified(w, device) && w.devices[device].tokenHash == Hash(token)
    requires w.devices[device].certificate.Some?
    requires start == w.devices[device].certificate.value.certificate.membershipEpoch - 1
    requires Followed(w, device, token, start, 0, size, views)
    ensures start < FinalEpoch(w, device) <= |w.rosters|
    ensures Collected(views) == w.rosters[start..FinalEpoch(w, device)]
    ensures forall v | v in views :: v.rosters != []
  {
    hide ChainOk, KeysOk, DevicesOk, ActiveOk, RevokedOk, GrowsOk, PermanentOk, Answer, AllPages;
    assert 0 <= start < FinalEpoch(w, device) <= |w.rosters| by { CertifiedLife(id, w, device, rank); }
    AnswersArePages(id, w, device, token, size, rank);
    FirstPage(id, w, device, token, start, size, views[0], rank);
    FollowedTiles(w, device, token, start + |views[0].rosters|, size, views[1..]);
    TilesCover(w.rosters, start, FinalEpoch(w, device), views);
  }

  /**
   A device following its pages: reading from 0 and on from the last epoch it got, until the
   latest one, it collects its whole chain. No read fails and the loop ends.
   */
  method ReadChain(ghost id: nat, w: Tables, device: nat, token: nat, size: Size, ghost rank: Rank)
    returns (all: seq<SignedRoster>)
    requires Sound(id, w, rank) && IsCertified(w, device) && w.devices[device].tokenHash == Hash(token)
    ensures w.devices[device].certificate.Some?
    ensures var start := w.devices[device].certificate.value.certificate.membershipEpoch - 1;
            0 <= start < FinalEpoch(w, device) <= |w.rosters| && all == w.rosters[start..FinalEpoch(w, device)]
  {
    hide ChainOk, KeysOk, DevicesOk, ActiveOk, RevokedOk, GrowsOk, PermanentOk, Answer;
    ghost var start := FirstEpoch(id, w, device, rank);
    var first := ReadMembershipState(w, device, token, 0, size);
    var page := CheckFirst(id, w, device, token, size, first, rank);
    all := page.rosters;
    var after := page.rosters[|page.rosters| - 1].roster.epoch;
    while after < page.latest
      invariant start < after == start + |all| <= page.latest == FinalEpoch(w, device) <= |w.rosters|
      invariant all == w.rosters[start..after]
      decreases page.latest - after
    {
      var next := ReadMembershipState(w, device, token, after, size);
      var more := CheckNext(id, w, device, token, after, size, next, rank);
      all := all + more.rosters;
      after := more.rosters[|more.rosters| - 1].roster.epoch;
    }
  }

  lemma FirstEpoch(id: nat, w: Tables, device: nat, rank: Rank) returns (start: nat)
    requires Sound(id, w, rank) && IsCertified(w, device)
    ensures w.devices[device].certificate.Some?
    ensures start == w.devices[device].certificate.value.certificate.membershipEpoch - 1
    ensures start < FinalEpoch(w, device) <= |w.rosters|
  {
    CertifiedLife(id, w, device, rank);
    start := w.devices[device].certificate.value.certificate.membershipEpoch - 1;
  }

  /** A page of the chain: its last roster's epoch is where it ends. */
  predicate EndsAt(w: Tables, start: nat, e: nat, v: View) {
    PageAt(w.rosters, start, e, v) && v.latest == e
    && v.rosters[|v.rosters| - 1].roster.epoch == start + |v.rosters|
  }

  lemma PageEnds(id: nat, w: Tables, start: nat, e: nat, v: View, rank: Rank)
    requires ChainOk(id, w, rank) && PageAt(w.rosters, start, e, v) && v.latest == e
    ensures EndsAt(w, start, e, v)
  {
    assert RosterLinked(id, w, start + |v.rosters| - 1, rank);
  }

  method CheckFirst(ghost id: nat, w: Tables, device: nat, token: nat, size: Size, r: Result<View, ReadError>,
                    ghost rank: Rank)
    returns (v: View)
    requires Sound(id, w, rank) && IsCertified(w, device) && w.devices[device].tokenHash == Hash(token)
    requires Answer(w, device, token, 0, size, r) && w.devices[device].certificate.Some?
    requires 0 < w.devices[device].certificate.value.certificate.membershipEpoch
    requires 0 < FinalEpoch(w, device)
    ensures EndsAt(w, w.devices[device].certificate.value.certificate.membershipEpoch - 1, FinalEpoch(w, device), v)
  {
    hide KeysOk, DevicesOk, ActiveOk, RevokedOk, GrowsOk, PermanentOk, Answer, PageLength, SignedCertificateValid;
    FirstRead(id, w, device, token, size, r, rank);
    v := r.value;
    PageEnds(id, w, w.devices[device].certificate.value.certificate.membershipEpoch - 1, FinalEpoch(w, device), v,
             rank);
  }

  method CheckNext(ghost id: nat, w: Tables, device: nat, token: nat, after: nat, size: Size,
                   r: Result<View, ReadError>, ghost rank: Rank)
    returns (v: View)
    requires Sound(id, w, rank) && IsCertified(w, device) && w.devices[device].tokenHash == Hash(token)
    requires Answer(w, device, token, after, size, r) && w.devices[device].certificate.Some?
    requires 0 < w.devices[device].certificate.value.certificate.membershipEpoch <= after < FinalEpoch(w, device)
    ensures EndsAt(w, after, FinalEpoch(w, device), v)
  {
    hide KeysOk, DevicesOk, ActiveOk, RevokedOk, GrowsOk, PermanentOk, Answer, PageLength;
    FollowingNeverFails(id, w, device, token, after, size, r, rank);
    LaterRead(id, w, device, token, after, size, r, rank);
    v := r.value;
    PageEnds(id, w, after, FinalEpoch(w, device), v, rank);
  }
}
