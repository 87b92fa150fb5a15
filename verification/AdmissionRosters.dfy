/** What the published rosters and authority transitions say, over every run, in terms of the rows and the commands. */
module AdmissionRosters {
  import opened Base
  import opened Membership
  import opened Workspace
  import opened WorkspaceLaws
  import opened WorkspaceOps
  import opened AuthorityRotation
  import opened Admission
  import opened AdmissionLaws
  import opened AdmissionRuns
  import opened AdmissionLedger
  import opened AdmissionTheorems

  // ------------------------------------------------------------------------- revocations

  /** The entry of a certified device that was revoked. */
  function EntryOf(x: nat, d: Device): Option<Revocation> {
    if d.status == Revoked && d.certificate.Some? && d.revokedAt.Some? then
      Some(Revocation(d.certificate.value.id, x, d.revokedAt.value))
    else None
  }

  lemma RevokedIsListed(id: nat, w: Tables, x: nat)
    requires DevicesOk(id, w) && RevokedOk(w) && GrowsOk(w) && x in w.devices && EntryOf(x, w.devices[x]).Some?
    ensures EntryOf(x, w.devices[x]).value in Revocations(w)
  {
    var d := w.devices[x];
    assert DeviceOk(id, w, x, d);
    var c, e := d.certificate.value, d.revokedEpoch.value;
    assert RevokedAt(w, x, c, e);
    var v :| v in w.rosters[e - 1].roster.revocations && v.device == x && v.certificateId == c.id;
    GrowsTransitive(w, e - 1, |w.rosters| - 1, v);
    assert v in Revocations(w);
  }

  /** In every run the newest roster revokes exactly the certified devices that were revoked, as of that time. */
  lemma RevokedIsRevocation(run: Run, id: nat, v: Revocation, rank: Rank)
    requires Injective(rank) && id in After(run, rank).workspaces
    ensures var w := After(run, rank).workspaces[id];
            v in Revocations(w) <==> exists x :: x in w.devices && EntryOf(x, w.devices[x]) == Some(v)
  {
    AlwaysGood(run, rank);
    var w := After(run, rank).workspaces[id];
    if x :| x in w.devices && EntryOf(x, w.devices[x]) == Some(v) { RevokedIsListed(id, w, x); }
    if v in Revocations(w) {
      assert DeviceOk(id, w, v.device, w.devices[v.device]);
      assert EntryOf(v.device, w.devices[v.device]) == Some(v);
    }
  }

  // ---------------------------------------------------------- certificate transitions

  /** What the roster a command publishes says about replaced certificates: a rename names one, nothing else does. */
  predicate Announces(r: Roster, c: Command, w: Tables, n: Tables) {
    if c.RenameDevice? then
      && c.device in w.devices && w.devices[c.device].certificateId.Some?
      && c.device in n.devices && n.devices[c.device].certificateId.Some?
      && r.transitions == [CertificateTransition(c.workspace, c.device, w.devices[c.device].certificateId.value,
                                                 n.devices[c.device].certificateId.value, |n.rosters|, LastDigest(w),
                                                 DisplayName, Millis(c.now))]
    else r.transitions == []
  }

  lemma RenameAnnounces(id: nat, w: Tables, c: Command, rank: Rank)
    requires Sound(id, w, rank) && c.RenameDevice? && c.workspace == id
    requires Rename(w, id, c.device, c.name, c.key, Millis(c.now), rank).Ok?
    ensures var n := Rename(w, id, c.device, c.name, c.key, Millis(c.now), rank).value;
            |n.rosters| == |w.rosters| + 1 && Announces(n.rosters[|w.rosters|].roster, c, w, n)
  {
    hide Rename, ChainOk, KeysOk, ActiveOk, RevokedOk, GrowsOk, PermanentOk;
    RenameExact(id, w, c.device, c.name, c.key, Millis(c.now), rank);
    assert DeviceOk(id, w, c.device, w.devices[c.device]);
  }

  lemma ApproveAnnounces(id: nat, w: Tables, c: Command, rank: Rank)
    requires Sound(id, w, rank) && c.ApproveDevice? && c.workspace == id
    requires Approve(w, id, c.device, c.roles, c.key, Millis(c.now), rank).Ok?
    ensures var n := Approve(w, id, c.device, c.roles, c.key, Millis(c.now), rank).value;
            |n.rosters| == |w.rosters| + 1 && Announces(n.rosters[|w.rosters|].roster, c, w, n)
  {
    hide Approve, Sound;
    ApproveExact(id, w, c.device, c.roles, c.key, Millis(c.now), rank);
  }

  lemma RevokeAnnounces(id: nat, w: Tables, c: Command, rank: Rank)
    requires Sound(id, w, rank) && c.RevokeDevice? && c.workspace == id
    requires Revoke(w, id, c.device, c.key, Millis(c.now), rank).Ok?
    requires c.device in w.devices && w.devices[c.device].status == Approved
    ensures var n := Revoke(w, id, c.device, c.key, Millis(c.now), rank).value;
            |n.rosters| == |w.rosters| + 1 && Announces(n.rosters[|w.rosters|].roster, c, w, n)
  {
    hide Revoke, Sound;
    RevokeExact(id, w, c.device, c.key, Millis(c.now), rank);
  }

  lemma RotateAnnounces(id: nat, w: Tables, c: Command, rank: Rank)
    requires Sound(id, w, rank) && c.RotateAuthority? && c.workspace == id
    requires Rotate(w, id, c.key, c.newKey, Millis(c.now), rank).Ok?
    ensures var n := Rotate(w, id, c.key, c.newKey, Millis(c.now), rank).value;
            |n.rosters| == |w.rosters| + 1 && Announces(n.rosters[|w.rosters|].roster, c, w, n)
  {
    hide Rotate, Sound;
    RotateExact(id, w, c.key, c.newKey, Millis(c.now), rank);
  }

  /** The newest roster lists the certificates of the approved devices and the revocations of the revoked ones. */
  ghost predicate Lists(n: Tables) {
    && (forall c :: c in Active(n) <==>
          exists x :: x in n.devices && n.devices[x].status == Approved && n.devices[x].certificate == Some(c))
    && (forall v :: v in Revocations(n) <==> exists x :: x in n.devices && EntryOf(x, n.devices[x]) == Some(v))
  }

  lemma NewestLists(run: Run, id: nat, rank: Rank)
    requires Injective(rank) && id in After(run, rank).workspaces
    ensures Lists(After(run, rank).workspaces[id])
  {
    var n := After(run, rank).workspaces[id];
    hide After, EntryOf, Active, Revocations;
    forall c
      ensures c in Active(n) <==>
              exists x :: x in n.devices && n.devices[x].status == Approved && n.devices[x].certificate == Some(c)
    {
      ActiveIsApproved(run, id, c, rank);
    }
    forall v ensures v in Revocations(n) <==> exists x :: x in n.devices && EntryOf(x, n.devices[x]) == Some(v) {
      RevokedIsRevocation(run, id, v, rank);
    }
  }

  /**
   In every run a publishing command appends one roster. It lists exactly the certificates of the
   approved devices and the revocations of the revoked ones, and names a replaced certificate
   exactly if the command was a rename.
   */
  lemma RosterSays(run: Run, id: nat, rank: Rank)
    requires Injective(rank) && Succeeded(run, rank)
    requires Publishing(run.command, id, Target(run.earlier, run.command, id, rank))
    ensures id in After(run.earlier, rank).workspaces && id in After(run, rank).workspaces
    ensures var w, n := After(run.earlier, rank).workspaces[id], After(run, rank).workspaces[id];
            && |n.rosters| == |w.rosters| + 1 && w.rosters <= n.rosters
            && Announces(n.rosters[|w.rosters|].roster, run.command, w, n) && Lists(n)
  {
    AlwaysGood(run.earlier, rank);
    StepKeeps(After(run.earlier, rank), run.command, rank);
    hide Step, Sound, Listed, Announces, Lists;
    StepAnnounces(run, id, rank);
    NewestLists(run, id, rank);
  }

  lemma StepAnnounces(run: Run, id: nat, rank: Rank)
    requires Injective(rank) && Succeeded(run, rank)
    requires Publishing(run.command, id, Target(run.earlier, run.command, id, rank))
    ensures id in After(run.earlier, rank).workspaces && id in After(run, rank).workspaces
    ensures var w, n := After(run.earlier, rank).workspaces[id], After(run, rank).workspaces[id];
            |n.rosters| == |w.rosters| + 1 && Announces(n.rosters[|w.rosters|].roster, run.command, w, n)
  {
    hide Sound, Announces, Approve, Rename, Revoke, Rotate;
    AlwaysGood(run.earlier, rank);
    var s, c := After(run.earlier, rank), run.command;
    var w := s.workspaces[id];
    if c.ApproveDevice? {
      ApproveAnnounces(id, w, c, rank);
    } else if c.RenameDevice? {
      RenameAnnounces(id, w, c, rank);
    } else if c.RevokeDevice? {
      LedgerHolds(run.earlier, id, c.device, rank);
      RevokeAnnounces(id, w, c, rank);
    } else {
      RotateAnnounces(id, w, c, rank);
    }
  }

  // ------------------------------------------------------------ authority transitions

  /** The transition a rotation adds: from the old key to the new, in force from the roster it publishes. */
  predicate Handover(w: Tables, n: Tables, c: Command)
    requires c.RotateAuthority?
  {
    && |n.transitions| == |w.transitions| + 1 && w.transitions <= n.transitions
    && var t := n.transitions[|w.transitions|].transition;
       && t.workspace == c.workspace && t.epoch == n.authorityEpoch == w.authorityEpoch + 1
       && t.previousKey == c.key == w.authorityKey && t.newKey == c.newKey == n.authorityKey
       && t.activationEpoch == |n.rosters| == |w.rosters| + 1 && t.previousRosterDigest == LastDigest(w)
       && t.previousDigest == w.transitionDigest && t.issuedAt == Millis(c.now)
       && n.transitionDigest == TransitionDigestOf(t)
  }

  /** In every run a rotation adds exactly that transition. */
  lemma RotationRecorded(run: Run, rank: Rank)
    requires Injective(rank) && Succeeded(run, rank) && run.command.RotateAuthority?
    ensures var s, n, id := After(run.earlier, rank), After(run, rank), run.command.workspace;
            id in s.workspaces && id in n.workspaces && Handover(s.workspaces[id], n.workspaces[id], run.command)
  {
    hide Rotate, Sound;
    AlwaysGood(run.earlier, rank);
    var s, c := After(run.earlier, rank), run.command;
    RotateExact(c.workspace, s.workspaces[c.workspace], c.key, c.newKey, Millis(c.now), rank);
  }

  /** What a rotation reports, read off the tables it leaves. */
  function ReportOf(n: Tables): Rotated
    requires n.transitions != []
  {
    Rotated(n.authorityEpoch, n.transitionDigest, |n.rosters|, LastDigest(n), n.transitions[|n.transitions| - 1])
  }

  /** The recovery lookup finds that report at once. */
  lemma RotationReports(run: Run, rank: Rank)
    requires Injective(rank) && Succeeded(run, rank) && run.command.RotateAuthority?
    ensures var n, id := After(run, rank), run.command.workspace;
            && id in n.workspaces && n.workspaces[id].transitions != []
            && Completed(n.workspaces[id], run.command.newKey) == Ok(Some(ReportOf(n.workspaces[id])))
  {
    hide Step, DevicesOk, ActiveOk, RevokedOk, GrowsOk, PermanentOk, Completed;
    RotationRecorded(run, rank);
    AlwaysGood(run, rank);
    var n := After(run, rank).workspaces[run.command.workspace];
    CompletedExact(run.command.workspace, n, run.command.newKey, rank);
    assert TransitionLinked(run.command.workspace, n, |n.transitions| - 1);
  }
}
