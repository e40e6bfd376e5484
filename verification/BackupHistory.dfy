/** What a backup row is, told by the steps that took effect on it. */
module BackupHistory {
  import opened Common
  import opened Histories
  import opened Backups
  import BackupRuns

  datatype Step = Step(op: Operation, now: Time)

  function Next(b: Backup, s: Step): Backup {
    if Guard(s.op, b) then Effect(s.op, b, s.now) else b
  }

  /** The row after some steps were tried on it. */
  function Play(b: Backup, steps: seq<Step>): Backup {
    if steps == [] then b else Next(Play(b, steps[..|steps| - 1]), steps[|steps| - 1])
  }

  /** The steps that took effect. */
  function Effective(b: Backup, steps: seq<Step>): seq<Step> {
    if steps == [] then []
    else
      var before, s := steps[..|steps| - 1], steps[|steps| - 1];
      Effective(b, before) + (if Guard(s.op, Play(b, before)) then [s] else [])
  }

  predicate IsClaim(s: Step) { s.op.Claim? }

  predicate IsFail(s: Step) { s.op.Fail? }

  predicate IsUpload(s: Step) { s.op.Upload? }

  predicate IsVerify(s: Step) { s.op.Verify? }

  predicate IsPrune(s: Step) { s.op.Prune? }

  predicate Ends(s: Step) { IsFail(s) || IsUpload(s) }

  predicate IsAny(s: Step) { true }

  function TimeOf(s: Option<Step>): Option<Time> {
    if s.Some? then Some(s.value.now) else None
  }

  /** Every column, by the last or first step that concerns it. */
  ghost predicate ColumnsTell(start: Backup, h: seq<Step>, b: Backup) {
    && b.policy == start.policy && b.scheduledAt == start.scheduledAt
    && b.startedAt == TimeOf(First(h, IsClaim))
    && b.finishedAt == TimeOf(Last(h, Ends))
    && b.uploadedAt == TimeOf(Last(h, IsUpload))
    && b.verifiedAt == TimeOf(Last(h, IsVerify))
    && b.prunedAt == TimeOf(Last(h, IsPrune))
    && b.artifact == ArtifactAfter(start, Last(h, IsUpload))
    && b.error == ErrorAfter(Last(h, IsAny))
  }

  function ArtifactAfter(start: Backup, last: Option<Step>): Artifact {
    match last
    case Some(Step(Upload(artifact), _)) => artifact
    case _ => start.artifact
  }

  /** A failure leaves its message, anything else clears it. */
  function ErrorAfter(last: Option<Step>): Option<string> {
    match last
    case Some(Step(Fail(message), _)) => Some(message)
    case Some(Step(FailVerification(message), _)) => Some(message)
    case _ => None
  }

  predicate LastIsOp(h: seq<Step>, p: Step -> bool) {
    h != [] && p(h[|h| - 1])
  }

  predicate IsFailVerification(s: Step) { s.op.FailVerification? }

  ghost predicate StatusTells(h: seq<Step>, b: Backup) {
    && (b.status == Pending <==> h == [])
    && (b.status == Running <==> LastIsOp(h, IsClaim))
    && (b.status == Failed <==> LastIsOp(h, IsFail))
    && (b.status == Uploaded <==> LastIsOp(h, IsUpload))
    && (b.status == VerificationFailed <==> LastIsOp(h, IsFailVerification))
    && (b.status == Verified <==> Has(h, IsVerify) && !Has(h, IsPrune))
    && (b.status == Pruned <==> Has(h, IsPrune))
  }

  /** Which steps are accepted next. */
  ghost predicate AcceptanceTells(h: seq<Step>, b: Backup) {
    && (Guard(Claim, b) <==> !Has(h, IsUpload))
    && (forall m :: Guard(Fail(m), b) <==> !Has(h, IsUpload))
    && (forall a :: Guard(Upload(a), b) <==> LastIsOp(h, IsClaim))
    && (Guard(Verify, b) <==> Has(h, IsUpload) && !Has(h, IsVerify))
    && (forall m :: Guard(FailVerification(m), b) <==> Has(h, IsUpload) && !Has(h, IsVerify))
    && (Guard(Prune, b) <==> Has(h, IsVerify) && !Has(h, IsPrune))
  }

  ghost predicate Tells(start: Backup, h: seq<Step>, b: Backup) {
    ColumnsTell(start, h, b) && StatusTells(h, b) && BackupRuns.RowCoherent(b)
  }

  lemma AppendAll(h: seq<Step>, s: Step)
    ensures First(h + [s], IsClaim) ==
            if First(h, IsClaim).Some? then First(h, IsClaim) else if IsClaim(s) then Some(s) else None
    ensures Last(h + [s], Ends) == if Ends(s) then Some(s) else Last(h, Ends)
    ensures Last(h + [s], IsUpload) == if IsUpload(s) then Some(s) else Last(h, IsUpload)
    ensures Last(h + [s], IsVerify) == if IsVerify(s) then Some(s) else Last(h, IsVerify)
    ensures Last(h + [s], IsPrune) == if IsPrune(s) then Some(s) else Last(h, IsPrune)
    ensures Last(h + [s], IsAny) == Some(s)
    ensures (h + [s])[|h + [s]| - 1] == s
  {
    Append(h, s, IsClaim);
    Append(h, s, Ends);
    Append(h, s, IsUpload);
    Append(h, s, IsVerify);
    Append(h, s, IsPrune);
    Append(h, s, IsAny);
  }

  lemma TellsStep(start: Backup, h: seq<Step>, b: Backup, s: Step)
    requires Tells(start, h, b) && start.artifact.reference == "" && Guard(s.op, b)
    ensures Tells(start, h + [s], Effect(s.op, b, s.now))
  {
    AppendAll(h, s);
    BackupRuns.OperationKeepsRow(s.op, b, s.now);
    ColumnsStep(start, h, b, s);
    StatusStep(start, h, b, s);
  }

  lemma ColumnsStep(start: Backup, h: seq<Step>, b: Backup, s: Step)
    requires Tells(start, h, b) && start.artifact.reference == "" && Guard(s.op, b)
    ensures ColumnsTell(start, h + [s], Effect(s.op, b, s.now))
  {
    AppendAll(h, s);
  }

  lemma StatusStep(start: Backup, h: seq<Step>, b: Backup, s: Step)
    requires Tells(start, h, b) && start.artifact.reference == "" && Guard(s.op, b)
    ensures StatusTells(h + [s], Effect(s.op, b, s.now))
  {
    AppendAll(h, s);
  }

  lemma TellsAcceptance(start: Backup, h: seq<Step>, b: Backup)
    requires Tells(start, h, b) && start.artifact.reference == ""
    ensures AcceptanceTells(h, b)
  {
  }

  lemma {:induction false} TellsAlways(start: Backup, steps: seq<Step>)
    requires start == NewBackup(start.policy, start.scheduledAt, Pending, "", start.artifact.metadata)
    ensures Tells(start, Effective(start, steps), Play(start, steps))
    decreases steps
  {
    if steps != [] {
      var before, s := steps[..|steps| - 1], steps[|steps| - 1];
      TellsAlways(start, before);
      var h := Effective(start, before);
      if Guard(s.op, Play(start, before)) {
        TellsStep(start, h, Play(start, before), s);
      } else {
        assert h + [] == h;
      }
    }
  }

  /**
   Whatever is tried on a new backup, in any order: the steps that took effect tell every
   column of the row, its status, and which step is accepted next.
   */
  lemma HistoryTells(start: Backup, steps: seq<Step>)
    requires start == NewBackup(start.policy, start.scheduledAt, Pending, "", start.artifact.metadata)
    ensures var h, b := Effective(start, steps), Play(start, steps);
            ColumnsTell(start, h, b) && StatusTells(h, b) && AcceptanceTells(h, b)
  {
    TellsAlways(start, steps);
    TellsAcceptance(start, Effective(start, steps), Play(start, steps));
  }

  /** In terms of the time stamps alone. */
  lemma AcceptedByTimes(b: Backup)
    requires BackupRuns.RowCoherent(b)
    ensures Guard(Claim, b) <==> b.uploadedAt.None?
    ensures forall m :: Guard(Fail(m), b) <==> b.uploadedAt.None?
    ensures Guard(Verify, b) <==> b.uploadedAt.Some? && b.verifiedAt.None?
    ensures forall m :: Guard(FailVerification(m), b) <==> b.uploadedAt.Some? && b.verifiedAt.None?
    ensures Guard(Prune, b) <==> b.verifiedAt.Some? && b.prunedAt.None?
  {
  }

  /** A backup that was not uploaded yet, failed or not, can still be taken: a retried job ends verified. */
  lemma RetryEndsVerified(b: Backup, a: Artifact, t: Time)
    requires BackupRuns.RowCoherent(b) && b.uploadedAt.None?
    ensures var steps := [Step(Claim, t), Step(Upload(a), t), Step(Verify, t)];
            Effective(b, steps) == steps && Play(b, steps).status == Verified && Play(b, steps).artifact == a
  {
    var s1, s2, s3 := Step(Claim, t), Step(Upload(a), t), Step(Verify, t);
    var steps := [s1, s2, s3];
    assert steps[..2] == [s1, s2] && [s1, s2][..1] == [s1] && [s1][..0] == [];
    assert Play(b, [s1]) == Next(b, s1) && Play(b, [s1, s2]) == Next(Next(b, s1), s2);
    assert Effective(b, [s1]) == [] + [s1] && Effective(b, [s1, s2]) == [s1] + [s2];
  }

  // ---------------------------------------------------------------- rows of a run

  /** The step that an event tries on a row. */
  function StepOn(e: BackupRuns.Event, id: Uuid): Option<Step> {
    match e
    case Work(i, op, now) => if i == id then Some(Step(op, now)) else None
    case PruneOne(_, i, now) => if i == id then Some(Step(Prune, now)) else None
    case _ => None
  }

  function StepsOn(events: seq<BackupRuns.Event>, id: Uuid): seq<Step> {
    if events == [] then []
    else
      var s := StepOn(events[|events| - 1], id);
      StepsOn(events[..|events| - 1], id) + (if s.Some? then [s.value] else [])
  }

  lemma RowMoves(s: BackupRuns.System, e: BackupRuns.Event, id: Uuid)
    requires id in s.rows
    ensures id in BackupRuns.Apply(s, e).rows
    ensures BackupRuns.Apply(s, e).rows[id] ==
            if StepOn(e, id).Some? then Next(s.rows[id], StepOn(e, id).value) else s.rows[id]
  {
  }

  lemma PlayAppend(b: Backup, events: seq<BackupRuns.Event>, e: BackupRuns.Event, id: Uuid)
    ensures Play(b, StepsOn(events + [e], id)) ==
            if StepOn(e, id).Some? then Next(Play(b, StepsOn(events, id)), StepOn(e, id).value)
            else Play(b, StepsOn(events, id))
  {
    assert (events + [e])[..|events|] == events;
    var steps := StepsOn(events, id);
    if StepOn(e, id).Some? {
      assert (steps + [StepOn(e, id).value])[..|steps|] == steps;
    } else {
      assert steps + [] == steps;
    }
  }

  /** So a row of any run is what the steps tried on it since it was there tell. */
  lemma {:induction false} RowsPlay(trace: seq<BackupRuns.System>, events: seq<BackupRuns.Event>, m: nat, n: nat,
                                    id: Uuid)
    requires BackupRuns.IsRun(trace, events) && m <= n <= |events| && id in trace[m].rows
    ensures id in trace[n].rows && trace[n].rows[id] == Play(trace[m].rows[id], StepsOn(events[m..n], id))
    decreases n
  {
    if m < n {
      RowsPlay(trace, events, m, n - 1, id);
      assert BackupRuns.Step(trace[n - 1], events[n - 1], trace[n]);
      assert events[m..n] == events[m..n - 1] + [events[n - 1]];
      RowMoves(trace[n - 1], events[n - 1], id);
      PlayAppend(trace[m].rows[id], events[m..n - 1], events[n - 1], id);
    }
  }

  // ---------------------------------------------------------------- new rows

  /** A new backup is refused exactly if its identifier is taken or it would share a slot with another of its policy. */
  lemma RefusedExactly(rows: Rows, id: Uuid, b: Backup)
    requires SlotsUnique(rows)
    ensures Inserted(rows, id, b) == if id !in rows && SlotsUnique(rows[id := b]) then rows[id := b] else rows
  {
    if id !in rows {
      var rows' := rows[id := b];
      if SlotTaken(rows, b.policy, b.scheduledAt) {
        var o :| o in rows && rows[o].policy == b.policy && rows[o].scheduledAt == b.scheduledAt;
        assert rows'[o] == rows[o] && rows'[id] == b && o != id;
        assert !SlotsUnique(rows');
      } else {
        assert SlotsUnique(rows');
      }
    }
  }

  lemma NewIsGiven(policy: Uuid, scheduledAt: Time, status: Status, reference: string, metadata: string)
    ensures var b := NewBackup(policy, scheduledAt, status, reference, metadata);
            && b.policy == policy && b.scheduledAt == scheduledAt && b.status == status
            && b.artifact == Artifact(reference, metadata, None, [])
            && b.startedAt == b.uploadedAt == b.finishedAt == b.verifiedAt == b.prunedAt == None && b.error == None
  {
  }
}
