/** Codes and tokens over a run: who issued what a device presents, and that a token names one device. */
module AdmissionCredentials {
  import opened Base
  import opened Membership
  import opened Workspace
  import opened Admission
  import opened AdmissionRuns
  import opened AdmissionHistory

  // ------------------------------------------------------------------ issued codes

  /** The command that issued a pairing code. */
  function PairingIssuer(run: Run, code: nat, rank: Rank): Option<Command> {
    if run.Start? then None
    else if Succeeded(run, rank) && run.command.IssuePairingCode? && run.command.code == code then Some(run.command)
    else PairingIssuer(run.earlier, code, rank)
  }

  /** The command that issued a rotation code. */
  function RotationIssuer(run: Run, code: nat, rank: Rank): Option<Command> {
    if run.Start? then None
    else if Succeeded(run, rank) && run.command.IssueRotationCode? && run.command.code == code then Some(run.command)
    else RotationIssuer(run.earlier, code, rank)
  }

  /** The stored code says what its issuer said. */
  predicate PairingAsIssued(s: State, code: nat, issuer: Option<Command>) {
    if Hash(code) !in s.pairing then issuer.None?
    else
      && issuer.Some? && issuer.value.IssuePairingCode?
      && var c, i := s.pairing[Hash(code)], issuer.value;
         && c.workspace == i.workspace && c.deviceType == i.deviceType && c.expiresAt == Millis(i.now + i.ttl)
         && 0 < i.ttl <= MAX_CODE_TTL
         && (c.boundName.None? <==> i.boundName == "") && (c.boundName.Some? ==> c.boundName.value == i.boundName)
  }

  predicate RotationAsIssued(s: State, code: nat, issuer: Option<Command>) {
    if Hash(code) !in s.rotation then issuer.None?
    else
      && issuer.Some? && issuer.value.IssueRotationCode?
      && var c, i := s.rotation[Hash(code)], issuer.value;
         c.workspace == i.workspace && c.device == i.device && c.expiresAt == Millis(i.now + i.ttl)
         && 0 < i.ttl <= MAX_CODE_TTL
  }

  lemma PairingIssuedStep(s: State, c: Command, code: nat, issuer: Option<Command>, rank: Rank)
    requires Step(s, c, rank).Ok? && PairingAsIssued(s, code, issuer)
    ensures PairingAsIssued(Step(s, c, rank).value, code,
                            if c.IssuePairingCode? && c.code == code then Some(c) else issuer)
  {
  }

  lemma RotationIssuedStep(s: State, c: Command, code: nat, issuer: Option<Command>, rank: Rank)
    requires Step(s, c, rank).Ok? && RotationAsIssued(s, code, issuer)
    ensures RotationAsIssued(Step(s, c, rank).value, code,
                             if c.IssueRotationCode? && c.code == code then Some(c) else issuer)
  {
  }

  lemma {:induction false} PairingCodesAsIssued(run: Run, code: nat, rank: Rank)
    ensures PairingAsIssued(After(run, rank), code, PairingIssuer(run, code, rank))
  {
    if run.Then? {
      PairingCodesAsIssued(run.earlier, code, rank);
      if Succeeded(run, rank) {
        PairingIssuedStep(After(run.earlier, rank), run.command, code, PairingIssuer(run.earlier, code, rank), rank);
      }
    }
  }

  lemma {:induction false} RotationCodesAsIssued(run: Run, code: nat, rank: Rank)
    ensures RotationAsIssued(After(run, rank), code, RotationIssuer(run, code, rank))
  {
    if run.Then? {
      RotationCodesAsIssued(run.earlier, code, rank);
      if Succeeded(run, rank) {
        RotationIssuedStep(After(run.earlier, rank), run.command, code, RotationIssuer(run.earlier, code, rank), rank);
      }
    }
  }

  /**
   A device registers only with a code issued earlier in the run, before its expiry and for its
   type and name, and it joins the workspace the code was issued for.
   */
  lemma RegistrationWasInvited(run: Run, rank: Rank)
    requires Succeeded(run, rank) && run.command.RegisterPending?
    ensures var c, issuer := run.command, PairingIssuer(run.earlier, run.command.code, rank);
            && issuer.Some? && issuer.value.IssuePairingCode?
            && var i := issuer.value;
               && i.deviceType == c.deviceType && (i.boundName == "" || i.boundName == c.name)
               && Millis(c.now) < Millis(i.now + i.ttl) && 0 < i.ttl <= MAX_CODE_TTL
               && !Exists(After(run.earlier, rank), i.workspace, c.device)
               && Exists(After(run, rank), i.workspace, c.device)
  {
    PairingCodesAsIssued(run.earlier, run.command.code, rank);
  }

  /** A credential rotates only with a code issued earlier in the run for that very device, before its expiry. */
  lemma RotationWasInvited(run: Run, rank: Rank)
    requires Succeeded(run, rank) && run.command.RotateCredential?
    ensures var c, issuer := run.command, RotationIssuer(run.earlier, run.command.code, rank);
            && issuer.Some? && issuer.value.IssueRotationCode?
            && var i := issuer.value;
               && i.workspace == c.workspace && i.device == c.device
               && Millis(c.now) < Millis(i.now + i.ttl) && 0 < i.ttl <= MAX_CODE_TTL
  {
    RotationCodesAsIssued(run.earlier, run.command.code, rank);
  }

  // ------------------------------------------------------------------------- tokens

  /** The command gives a row a token it did not have. */
  function NewToken(c: Command): Option<Hash> {
    if c.RegisterPending? then Some(Hash(c.token)) else if c.RotateCredential? then Some(Hash(c.newToken)) else None
  }

  lemma NewTokenIsFree(s: State, c: Command, rank: Rank)
    requires Step(s, c, rank).Ok? && NewToken(c).Some?
    ensures !TokenTaken(s.workspaces, NewToken(c).value)
  {
  }

  lemma FreeOfRow(s: State, h: Hash, id: nat, x: nat)
    requires !TokenTaken(s.workspaces, h) && Exists(s, id, x)
    ensures Row(s, id, x).tokenHash != h
  {
    assert !HasToken(s.workspaces[id], h);
  }

  /** The row's token is the one it had, or the one the command brings. */
  predicate TokenAfter(s: State, c: Command, n: State, id: nat, x: nat) {
    Exists(n, id, x) ==>
      || (Exists(s, id, x) && Row(n, id, x).tokenHash == Row(s, id, x).tokenHash)
      || ((Registers(s, c, id, x) || IsTokenRotation(c, id, x)) && NewToken(c) == Some(Row(n, id, x).tokenHash))
  }

  lemma EffectOnToken(s: State, c: Command, n: State, id: nat, x: nat)
    requires RowEffect(s, c, n, id, x)
    ensures TokenAfter(s, c, n, id, x)
  {
  }

  predicate Different(s: State, id: nat, x: nat, j: nat, y: nat) {
    Exists(s, id, x) && Exists(s, j, y) && (id, x) != (j, y) ==> Row(s, id, x).tokenHash != Row(s, j, y).tokenHash
  }

  lemma TokenStep(s: State, c: Command, id: nat, x: nat, j: nat, y: nat, rank: Rank)
    requires Good(s, rank) && Step(s, c, rank).Ok? && Different(s, id, x, j, y)
    ensures Different(Step(s, c, rank).value, id, x, j, y)
  {
    var n := Step(s, c, rank).value;
    assert TokenAfter(s, c, n, id, x) by { StepEffect(s, c, id, x, rank); EffectOnToken(s, c, n, id, x); }
    assert TokenAfter(s, c, n, j, y) by { StepEffect(s, c, j, y, rank); EffectOnToken(s, c, n, j, y); }
    if NewToken(c).Some? {
      NewTokenIsFree(s, c, rank);
      if Exists(s, id, x) { FreeOfRow(s, NewToken(c).value, id, x); }
      if Exists(s, j, y) { FreeOfRow(s, NewToken(c).value, j, y); }
    }
    TokensStayApart(s, c, n, id, x, j, y);
  }

  lemma TokensStayApart(s: State, c: Command, n: State, id: nat, x: nat, j: nat, y: nat)
    requires TokenAfter(s, c, n, id, x) && TokenAfter(s, c, n, j, y) && Different(s, id, x, j, y)
    requires NewToken(c).Some? && Exists(s, id, x) ==> Row(s, id, x).tokenHash != NewToken(c).value
    requires NewToken(c).Some? && Exists(s, j, y) ==> Row(s, j, y).tokenHash != NewToken(c).value
    ensures Different(n, id, x, j, y)
  {
  }

  /** In every run no two devices, of any workspaces, share a token: a token authenticates at most one device. */
  lemma {:induction false} TokenNamesOneDevice(run: Run, id: nat, x: nat, j: nat, y: nat, rank: Rank)
    requires Injective(rank)
    ensures Different(After(run, rank), id, x, j, y)
    ensures forall token ::
              (Authenticate(After(run, rank), id, x, token).Some? && Authenticate(After(run, rank), j, y, token).Some?)
              ==> id == j && x == y
  {
    if run.Then? {
      TokenNamesOneDevice(run.earlier, id, x, j, y, rank);
      if Succeeded(run, rank) {
        AlwaysGood(run.earlier, rank);
        TokenStep(After(run.earlier, rank), run.command, id, x, j, y, rank);
      }
    }
  }
}
