/** What the state of a run says about the commands before it. */
module AdmissionHistory {
  import opened Base
  import opened Membership
  import opened Workspace
  import opened Admission
  import opened AdmissionLaws
  import opened AdmissionRuns

  // ------------------------------------------------------- the effect on one row

  predicate IsMembership(c: Command) {
    c.ApproveDevice? || c.RenameDevice? || c.RevokeDevice? || c.RotateAuthority?
  }

  predicate Registers(s: State, c: Command, id: nat, x: nat) {
    c.RegisterPending? && c.device == x && Hash(c.code) in s.pairing && s.pairing[Hash(c.code)].workspace == id
  }

  predicate IsProof(c: Command, id: nat, x: nat) {
    c.CompleteProof? && c.workspace == id && c.device == x
  }

  predicate IsTokenRotation(c: Command, id: nat, x: nat) {
    c.RotateCredential? && c.workspace == id && c.device == x
  }

  /** The row a registration inserts. */
  predicate InsertedBy(d: Device, c: Command) {
    && c.RegisterPending? && c.challenge.Some? && c.identityKey.Some?
    && d == PendingDevice(c.deviceType, c.name, c.identityKey.value, c.token, c.challenge.value)
  }

  predicate ProvedBy(o: Device, d: Device, c: Command) {
    && c.CompleteProof? && Proves(o, c.token, c.digest, c.secret, c.now)
    && d == o.(status := PendingApproval, proofCompletedAt := Some(Millis(c.now)), secretHash := None)
  }

  predicate RotatedBy(o: Device, d: Device, c: Command) {
    && c.RotateCredential? && o.status == Approved && o.tokenHash == Hash(c.token) && c.token != c.newToken
    && d == o.(tokenHash := Hash(c.newToken), credentialVersion := o.credentialVersion + 1)
  }

  /** What a successful command does to one row. */
  predicate RowEffect(s: State, c: Command, n: State, id: nat, x: nat) {
    if Exists(s, id, x) then
      && Exists(n, id, x) && !Registers(s, c, id, x)
      && var o, d := Row(s, id, x), Row(n, id, x);
         if IsProof(c, id, x) then ProvedBy(o, d, c)
         else if IsTokenRotation(c, id, x) then RotatedBy(o, d, c)
         else Moved(o, d)
    else
      && !IsProof(c, id, x) && !IsTokenRotation(c, id, x)
      && (Exists(n, id, x) <==> Registers(s, c, id, x))
      && (Exists(n, id, x) ==> InsertedBy(Row(n, id, x), c))
  }

  lemma MembershipMoves(s: State, c: Command, rank: Rank)
    requires Good(s, rank) && IsMembership(c) && Step(s, c, rank).Ok?
    ensures var n := Step(s, c, rank).value;
            && c.workspace in s.workspaces && c.workspace in n.workspaces
            && n == s.(workspaces := s.workspaces[c.workspace := n.workspaces[c.workspace]])
            && TablesStep(s.workspaces[c.workspace], n.workspaces[c.workspace])
            && (!c.RotateAuthority? ==> SameAuthority(s.workspaces[c.workspace], n.workspaces[c.workspace]))
  {
    var id := c.workspace;
    var w := s.workspaces[id];
    if c.ApproveDevice? {
      ApproveAdvances(id, w, c.device, c.roles, c.key, Millis(c.now), rank);
    } else if c.RenameDevice? {
      RenameAdvances(id, w, c.device, c.name, c.key, Millis(c.now), rank);
    } else if c.RevokeDevice? {
      RevokeAdvances(id, w, c.device, c.key, Millis(c.now), rank);
    } else {
      RotateAdvances(id, w, c.key, c.newKey, Millis(c.now), rank);
    }
  }

  lemma MovesEffect(s: State, c: Command, n: State, id: nat, x: nat)
    requires IsMembership(c) && c.workspace in s.workspaces && c.workspace in n.workspaces
    requires n == s.(workspaces := s.workspaces[c.workspace := n.workspaces[c.workspace]])
    requires TablesStep(s.workspaces[c.workspace], n.workspaces[c.workspace])
    ensures RowEffect(s, c, n, id, x)
  {
  }

  lemma MembershipEffect(s: State, c: Command, id: nat, x: nat, rank: Rank)
    requires Good(s, rank) && IsMembership(c) && Step(s, c, rank).Ok?
    ensures RowEffect(s, c, Step(s, c, rank).value, id, x)
  {
    MembershipMoves(s, c, rank);
    MovesEffect(s, c, Step(s, c, rank).value, id, x);
  }

  lemma RegisterEffect(s: State, c: Command, id: nat, x: nat, rank: Rank)
    requires c.RegisterPending? && Step(s, c, rank).Ok?
    ensures RowEffect(s, c, Step(s, c, rank).value, id, x)
  {
  }

  lemma RowStepEffect(s: State, c: Command, id: nat, x: nat, rank: Rank)
    requires (c.CompleteProof? || c.RotateCredential?) && Step(s, c, rank).Ok?
    ensures RowEffect(s, c, Step(s, c, rank).value, id, x)
  {
  }

  lemma CodeEffect(s: State, c: Command, id: nat, x: nat, rank: Rank)
    requires (c.CreateWorkspace? || c.IssuePairingCode? || c.IssueRotationCode?) && Step(s, c, rank).Ok?
    ensures RowEffect(s, c, Step(s, c, rank).value, id, x)
  {
  }

  lemma StepEffect(s: State, c: Command, id: nat, x: nat, rank: Rank)
    requires Good(s, rank) && Step(s, c, rank).Ok?
    ensures RowEffect(s, c, Step(s, c, rank).value, id, x)
  {
    if IsMembership(c) {
      MembershipEffect(s, c, id, x, rank);
    } else if c.RegisterPending? {
      RegisterEffect(s, c, id, x, rank);
    } else if c.CompleteProof? || c.RotateCredential? {
      RowStepEffect(s, c, id, x, rank);
    } else {
      CodeEffect(s, c, id, x, rank);
    }
  }

  // ----------------------------------------------------------- where a row came from

  /** The registration that inserted the row. */
  function Origin(run: Run, id: nat, x: nat, rank: Rank): Option<Command> {
    if run.Start? then None
    else if Succeeded(run, rank) && Registers(After(run.earlier, rank), run.command, id, x) then Some(run.command)
    else Origin(run.earlier, id, x, rank)
  }

  /** How many registrations inserted the row. */
  function Insertions(run: Run, id: nat, x: nat, rank: Rank): nat {
    if run.Start? then 0
    else Insertions(run.earlier, id, x, rank)
         + (if Succeeded(run, rank) && Registers(After(run.earlier, rank), run.command, id, x) then 1 else 0)
  }

  /** The proofs accepted for the device. */
  function Proofs(run: Run, id: nat, x: nat, rank: Rank): seq<Command> {
    if run.Start? then []
    else Proofs(run.earlier, id, x, rank)
         + (if Succeeded(run, rank) && IsProof(run.command, id, x) then [run.command] else [])
  }

  /** The credential rotations that succeeded for the device. */
  function Rotations(run: Run, id: nat, x: nat, rank: Rank): nat {
    if run.Start? then 0
    else Rotations(run.earlier, id, x, rank)
         + (if Succeeded(run, rank) && IsTokenRotation(run.command, id, x) then 1 else 0)
  }

  /** The proof answers the registration's own challenge, with its credential, before its expiry. */
  predicate Answers(origin: Command, p: Command) {
    && origin.RegisterPending? && origin.challenge.Some? && p.CompleteProof?
    && p.token == origin.token && p.digest == origin.challenge.value.digest && p.secret == origin.challenge.value.secret
    && Millis(p.now) < Millis(origin.challenge.value.expiresAt)
  }

  predicate Vouched(origin: Option<Command>, proofs: seq<Command>, rotations: nat, d: Device) {
    && origin.Some? && origin.value.RegisterPending? && origin.value.identityKey.Some?
    && d.deviceType == origin.value.deviceType && d.identityKey == origin.value.identityKey.value
    && (forall p | p in proofs :: Answers(origin.value, p))
    && d.credentialVersion == 1 + rotations
    && match d.status
       case PendingProof => proofs == [] && InsertedBy(d, origin.value)
       case PendingApproval => |proofs| == 1 && d.certificate.None?
       case Approved => |proofs| == 1
       case Revoked => |proofs| <= 1 && (d.certificate.Some? ==> |proofs| == 1)
  }

  /** The state of a row restates its history. */
  predicate History(run: Run, id: nat, x: nat, rank: Rank) {
    var origin, proofs, rotations := Origin(run, id, x, rank), Proofs(run, id, x, rank), Rotations(run, id, x, rank);
    if Exists(After(run, rank), id, x) then
      Insertions(run, id, x, rank) == 1 && Vouched(origin, proofs, rotations, Row(After(run, rank), id, x))
    else Insertions(run, id, x, rank) == 0 && origin.None? && proofs == [] && rotations == 0
  }

  lemma MovedVouched(origin: Option<Command>, proofs: seq<Command>, rotations: nat, o: Device, d: Device)
    requires Vouched(origin, proofs, rotations, o) && Moved(o, d)
    ensures Vouched(origin, proofs, rotations, d)
  {
  }

  lemma ProvedVouched(origin: Option<Command>, rotations: nat, o: Device, d: Device, c: Command)
    requires Vouched(origin, [], rotations, o) && ProvedBy(o, d, c)
    ensures Vouched(origin, [c], rotations, d)
  {
  }

  lemma RotatedVouched(origin: Option<Command>, proofs: seq<Command>, rotations: nat, o: Device, d: Device, c: Command)
    requires Vouched(origin, proofs, rotations, o) && RotatedBy(o, d, c)
    ensures Vouched(origin, proofs, rotations + 1, d)
  {
  }

  lemma HistoryStep(run: Run, id: nat, x: nat, rank: Rank)
    requires Succeeded(run, rank) && History(run.earlier, id, x, rank)
    requires RowEffect(After(run.earlier, rank), run.command, After(run, rank), id, x)
    ensures History(run, id, x, rank)
  {
    var s, n, c := After(run.earlier, rank), After(run, rank), run.command;
    var origin, proofs := Origin(run.earlier, id, x, rank), Proofs(run.earlier, id, x, rank);
    var rotations := Rotations(run.earlier, id, x, rank);
    if Exists(s, id, x) {
      var o, d := Row(s, id, x), Row(n, id, x);
      if IsProof(c, id, x) {
        ProvedVouched(origin, rotations, o, d, c);
      } else if IsTokenRotation(c, id, x) {
        RotatedVouched(origin, proofs, rotations, o, d, c);
      } else {
        MovedVouched(origin, proofs, rotations, o, d);
      }
    }
  }

  /**
   In every run: a device comes from exactly one registration; it is approved only after exactly one
   accepted proof, which answers that registration's challenge in time with its credential;
   and its credential version is one more than its successful rotations.
   */
  lemma {:induction false} HistoryHolds(run: Run, id: nat, x: nat, rank: Rank)
    requires Injective(rank)
    ensures History(run, id, x, rank)
  {
    if run.Then? {
      HistoryHolds(run.earlier, id, x, rank);
      if Succeeded(run, rank) {
        AlwaysGood(run.earlier, rank);
        StepEffect(After(run.earlier, rank), run.command, id, x, rank);
        HistoryStep(run, id, x, rank);
      }
    }
  }
}
