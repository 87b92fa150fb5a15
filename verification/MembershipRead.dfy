/**
 ReadMembershipState on one snapshot of a workspace's tables: which key it hands out, which
 transitions it returns, and how its pages cover the roster chain.
 */
module MembershipRead {
  import opened Base
  import opened Membership
  import opened Workspace

  const MAX_TRANSITIONS := 256
  const PAGE_ROSTERS := 256
  const PAGE_BYTES := 1024 * 1024

  /** The size of a roster's encoding. */
  type Size = SignedRoster -> nat

  datatype ViewState = ViewPendingProof | ViewPendingApproval | ViewApproved

  datatype View = View(
    state: ViewState,
    key: Key,
    certificate: Option<SignedCertificate>,
    transitions: seq<SignedKeyTransition>,
    rosters: seq<SignedRoster>,
    latest: int)

  datatype ReadError = Unavailable | InvalidStoredCertificate | TooManyTransitions | NotContiguous

  // ------------------------------------------------------------------ selected rows

  /** Transitions taking effect after one epoch and up to another, in the order of the table. */
  function Between(ts: seq<SignedKeyTransition>, low: int, high: int): seq<SignedKeyTransition> {
    if ts == [] then []
    else
      var t := ts[|ts| - 1];
      Between(ts[..|ts| - 1], low, high) + (if low < t.transition.activationEpoch <= high then [t] else [])
  }

  function RostersBetween(rs: seq<SignedRoster>, low: int, high: int): seq<SignedRoster> {
    if rs == [] then []
    else
      var s := rs[|rs| - 1];
      RostersBetween(rs[..|rs| - 1], low, high) + (if low < s.roster.epoch <= high then [s] else [])
  }

  /** The newest transition in force at the epoch, else the key before all transitions. */
  function TerminalKey(ts: seq<SignedKeyTransition>, current: Key, last: int): Key {
    var effective := Between(ts, 0, last);
    if effective != [] then effective[|effective| - 1].transition.newKey
    else if ts != [] then ts[0].transition.previousKey
    else current
  }

  // ------------------------------------------------------------------------ one page

  function TotalSize(rs: seq<SignedRoster>, size: Size): nat {
    if rs == [] then 0 else TotalSize(rs[..|rs| - 1], size) + size(rs[|rs| - 1])
  }

  /** How many of the rows fit on a page: the first always, then while the bytes allow. */
  predicate PageLength(rows: seq<SignedRoster>, size: Size, k: nat) {
    && k <= |rows| && k <= PAGE_ROSTERS
    && (rows != [] ==> k >= 1)
    && (k > 1 ==> TotalSize(rows[..k], size) <= PAGE_BYTES)
    && (k < |rows| && k < PAGE_ROSTERS ==> TotalSize(rows[..k], size) + size(rows[k]) > PAGE_BYTES)
  }

  /** The rows carry consecutive epochs. */
  predicate Consecutive(rows: seq<SignedRoster>, first: int) {
    forall i | 0 <= i < |rows| :: rows[i].roster.epoch == first + i
  }

  /** The roster loop: stops at a gap with an error, and at a full page without one. */
  method CollectPage(rows: seq<SignedRoster>, first: int, size: Size) returns (r: Result<seq<SignedRoster>, ReadError>)
    requires |rows| <= PAGE_ROSTERS
    ensures r.Ok? ==> r.value <= rows && PageLength(rows, size, |r.value|) && Consecutive(r.value, first)
    ensures r.Err? ==> r.error == NotContiguous && !Consecutive(rows, first)
    ensures Consecutive(rows, first) ==> r.Ok?
  {
    var page: seq<SignedRoster> := [];
    var expected, bytes := first, 0;
    for i := 0 to |rows|
      invariant page == rows[..i] && expected == first + i && bytes == TotalSize(page, size)
      invariant i > 1 ==> bytes <= PAGE_BYTES
      invariant Consecutive(page, first)
    {
      var s := rows[i];
      if s.roster.epoch != expected { return Err(NotContiguous); }
      if |page| != 0 && bytes + size(s) > PAGE_BYTES { return Ok(page); }
      assert rows[..i + 1][..i] == rows[..i];
      page := page + [s];
      bytes := bytes + size(s);
      expected := expected + 1;
    }
    return Ok(page);
  }

  /** The transition loop: more rows than the response limit are an error. */
  method CollectTransitions(rows: seq<SignedKeyTransition>) returns (r: Result<seq<SignedKeyTransition>, ReadError>)
    ensures r == if |rows| > MAX_TRANSITIONS then Err(TooManyTransitions) else Ok(rows)
  {
    var kept: seq<SignedKeyTransition> := [];
    for i := 0 to |rows|
      invariant kept == rows[..i] && i <= MAX_TRANSITIONS
    {
      if |kept| == MAX_TRANSITIONS { return Err(TooManyTransitions); }
      kept := kept + [rows[i]];
    }
    assert rows[..|rows|] == rows;
    return Ok(kept);
  }

  // ------------------------------------------------------------------------ one read

  /** The row the first query returns: the credential fits, and the device is live or was revoked in a roster. */
  predicate Readable(w: Tables, device: nat, token: nat) {
    && device in w.devices
    && var d := w.devices[device];
       && d.tokenHash == Hash(token)
       && ((d.revokedAt.None? && d.status != Revoked) || (d.status == Revoked && d.revokedEpoch.Some?))
  }

  function LastEpoch(d: Device): int {
    if d.revokedEpoch.Some? then d.revokedEpoch.value else MAX_INT64
  }

  function HandedKey(w: Tables, d: Device): Key {
    if d.revokedEpoch.Some? then TerminalKey(w.transitions, w.authorityKey, LastEpoch(d)) else w.authorityKey
  }

  /** The stored certificate decodes under a key. */
  predicate Decodes(d: Device, key: Key) {
    d.certificate.Some? && SignedCertificateValid(d.certificate.value, key)
  }

  /** Reading from 0 starts at the certificate's own roster. */
  function StartEpoch(d: Device, after: int): int
    requires after == 0 ==> d.certificate.Some?
  {
    if after == 0 then d.certificate.value.certificate.membershipEpoch - 1 else after
  }

  /** The first rows of a query with a row limit. */
  function Limited<T>(rows: seq<T>, limit: nat): seq<T> {
    if |rows| <= limit then rows else rows[..limit]
  }

  /** A successful answer to a certified device. */
  predicate ViewOf(w: Tables, d: Device, start: int, size: Size, v: View) {
    var rows := RostersBetween(w.rosters, start, LastEpoch(d));
    && v.state == ViewApproved && v.key == HandedKey(w, d) && v.certificate == d.certificate
    && v.transitions == Between(w.transitions, start, LastEpoch(d))
    && v.rosters <= rows && PageLength(rows, size, |v.rosters|) && Consecutive(v.rosters, start + 1)
    && v.latest == (if d.revokedEpoch.Some? then d.revokedEpoch.value
                    else if w.rosters == [] then 0 else w.rosters[|w.rosters| - 1].roster.epoch)
  }

  /** ReadMembershipState's answer to one request. */
  predicate Answer(w: Tables, device: nat, token: nat, after: int, size: Size, r: Result<View, ReadError>) {
    if after < 0 || !Readable(w, device, token) then r == Err(Unavailable)
    else
      var d := w.devices[device];
      if d.status == PendingProof then r == Ok(View(ViewPendingProof, w.authorityKey, d.certificate, [], [], 0))
      else if d.status == PendingApproval
      then r == Ok(View(ViewPendingApproval, w.authorityKey, d.certificate, [], [], 0))
      else if after == 0 && !Decodes(d, HandedKey(w, d)) then r == Err(InvalidStoredCertificate)
      else
        var start := StartEpoch(d, after);
        if |Between(w.transitions, start, LastEpoch(d))| > MAX_TRANSITIONS then r == Err(TooManyTransitions)
        else if r.Ok? then ViewOf(w, d, start, size, r.value)
        else r.error == NotContiguous && !Consecutive(RostersBetween(w.rosters, start, LastEpoch(d)), start + 1)
  }

  method ReadMembershipState(w: Tables, device: nat, token: nat, after: int, size: Size)
    returns (r: Result<View, ReadError>)
    ensures Answer(w, device, token, after, size, r)
  {
    if after < 0 || !Readable(w, device, token) { return Err(Unavailable); }
    var d := w.devices[device];
    if d.status == PendingProof { return Ok(View(ViewPendingProof, w.authorityKey, d.certificate, [], [], 0)); }
    if d.status == PendingApproval { return Ok(View(ViewPendingApproval, w.authorityKey, d.certificate, [], [], 0)); }
    var last, key := MAX_INT64, w.authorityKey;
    if d.revokedEpoch.Some? {
      last := d.revokedEpoch.value;
      key := TerminalKey(w.transitions, w.authorityKey, last);
    }
    if after == 0 && !Decodes(d, key) { return Err(InvalidStoredCertificate); }
    var start := StartEpoch(d, after);
    var transitions := CollectTransitions(Limited(Between(w.transitions, start, last), MAX_TRANSITIONS + 1));
    if transitions.Err? { return Err(TooManyTransitions); }
    var rows := RostersBetween(w.rosters, start, last);
    var page := CollectPage(Limited(rows, PAGE_ROSTERS), start + 1, size);
    if page.Err? { return Err(NotContiguous); }
    LimitedPage(rows, size, page.value);
    var latest := if d.revokedEpoch.Some? then last
                  else if |w.rosters| == 0 then 0 else w.rosters[|w.rosters| - 1].roster.epoch;
    return Ok(View(ViewApproved, key, d.certificate, transitions.value, page.value, latest));
  }

  /** The row limit of the query and the limit of the page are one. */
  lemma LimitedPage(rows: seq<SignedRoster>, size: Size, page: seq<SignedRoster>)
    requires page <= Limited(rows, PAGE_ROSTERS) && PageLength(Limited(rows, PAGE_ROSTERS), size, |page|)
    ensures page <= rows && PageLength(rows, size, |page|)
  {
    assert rows[..|page|] == Limited(rows, PAGE_ROSTERS)[..|page|];
  }

  lemma {:induction false} TotalGrows(rows: seq<SignedRoster>, size: Size, j: nat, k: nat)
    requires j <= k <= |rows|
    ensures TotalSize(rows[..j], size) <= TotalSize(rows[..k], size)
    decreases k
  {
    if j < k {
      assert rows[..k][..k - 1] == rows[..k - 1];
      TotalGrows(rows, size, j, k - 1);
    }
  }

  /** The rows determine the page. */
  lemma OnePage(rows: seq<SignedRoster>, size: Size, j: nat, k: nat)
    requires PageLength(rows, size, j) && PageLength(rows, size, k)
    ensures j == k
  {
    var low, high := Min(j, k), Max(j, k);
    if low < high {
      assert rows[..low + 1][..low] == rows[..low];
      TotalGrows(rows, size, low + 1, high);
    }
  }
}
