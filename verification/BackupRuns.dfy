/** Whole runs of the backup table with concurrent workers, restores and stale prune passes. */
module BackupRuns {
  import opened Common
  import opened Backups
  import Retention
  import RetentionLaws
  import Calendar

  /**
   `pinned` are the backups some restore still needs; `plans` are the identifiers
   each running prune pass selected from its snapshot; a pass may end at any point.
   */
  datatype System = System(rows: Rows, pinned: set<Uuid>, plans: map<nat, set<Uuid>>)

  const EMPTY := System(map[], {}, map[])

  datatype Event =
    | Create(id: Uuid, backup: Backup)
    | Work(id: Uuid, op: Operation, now: Time)
    | Pin(id: Uuid)
    | Unpin(id: Uuid)
    | Plan(pass: nat, policy: Uuid, snapshot: seq<Retention.Entry>, quotas: Retention.Quotas)
    | PruneOne(pass: nat, id: Uuid, now: Time)
    | EndPass(pass: nat)

  /** What the query for a policy's verified, unpinned backups may return. */
  ghost predicate IsSnapshot(s: System, policy: Uuid, snapshot: seq<Retention.Entry>) {
    && RetentionLaws.NewestFirst(snapshot)
    && Retention.DistinctIds(snapshot)
    && Calendar.AllOnCalendar(snapshot)
    && (forall e :: e in snapshot ==> Listed(s, policy, e))
    && (forall id :: IsListed(s, policy, id) ==> exists e :: e in snapshot && e.id == id)
  }

  predicate IsListed(s: System, policy: Uuid, id: Uuid) {
    id in s.rows && id !in s.pinned && s.rows[id].policy == policy && s.rows[id].status == Verified
  }

  predicate Listed(s: System, policy: Uuid, e: Retention.Entry) {
    IsListed(s, policy, e.id) && s.rows[e.id].scheduledAt == e.scheduledAt
  }

  /** Retention policies may differ from pass to pass, and passes may act on old snapshots. */
  ghost predicate Enabled(s: System, e: Event) {
    match e
    case Create(_, b) =>
      b == NewBackup(b.policy, b.scheduledAt, Pending, "", b.artifact.metadata)
    case Work(_, op, _) => op != Prune
    case Pin(_) => true
    case Unpin(_) => true
    case Plan(_, policy, snapshot, _) => IsSnapshot(s, policy, snapshot)
    case PruneOne(pass, id, _) => pass in s.plans && id in s.plans[pass]
    case EndPass(_) => true
  }

  function Selected(q: Retention.Quotas, snapshot: seq<Retention.Entry>): set<Uuid> {
    set e | e in Retention.Dropped(q, snapshot) :: e.id
  }

  function Apply(s: System, e: Event): System {
    match e
    case Create(id, b) => s.(rows := Inserted(s.rows, id, b))
    case Work(id, op, now) => s.(rows := Updated(s.rows, id, op, now))
    case Pin(id) => s.(pinned := s.pinned + {id})
    case Unpin(id) => s.(pinned := s.pinned - {id})
    case Plan(pass, _, snapshot, q) => s.(plans := s.plans[pass := Selected(q, snapshot)])
    case PruneOne(_, id, now) => s.(rows := Updated(s.rows, id, Prune, now))
    case EndPass(pass) => s.(plans := s.plans - {pass})
  }

  ghost predicate Step(s: System, e: Event, s': System) {
    Enabled(s, e) && s' == Apply(s, e)
  }

  /** `trace[n]` is the state after the first `n` events. */
  ghost predicate IsRun(trace: seq<System>, events: seq<Event>) {
    && |trace| == |events| + 1
    && trace[0] == EMPTY
    && forall n {:trigger events[n]} :: 0 <= n < |events| ==> Step(trace[n], events[n], trace[n + 1])
  }

  // ---------------------------------------------------------------- one row over a run

  ghost predicate RowCoherent(b: Backup) {
    && (b.uploadedAt.Some? <==> b.status in {Uploaded, VerificationFailed, Verified, Pruned})
    && (b.verifiedAt.Some? <==> b.status in {Verified, Pruned})
    && (b.prunedAt.Some? <==> b.status == Pruned)
    && (b.uploadedAt.None? ==> b.artifact.reference == "" && b.artifact.sizeBytes == None && b.artifact.digest == [])
    && (b.status == Running ==> b.startedAt.Some?)
  }

  /** What later operations may still change in a row. */
  ghost predicate Later(b: Backup, b': Backup) {
    && b'.policy == b.policy && b'.scheduledAt == b.scheduledAt
    && (b.startedAt.Some? ==> b'.startedAt == b.startedAt)
    && (b.uploadedAt.Some? ==> b'.uploadedAt == b.uploadedAt && b'.artifact == b.artifact)
    && (b.verifiedAt.Some? ==> b'.verifiedAt == b.verifiedAt)
    && (b.prunedAt.Some? ==> b' == b)
    && (b.uploadedAt.Some? ==> b'.status !in {Pending, Running, Failed})
    && (b.status == Verified ==> b'.status in {Verified, Pruned})
  }

  lemma OperationKeepsRow(op: Operation, b: Backup, now: Time)
    requires RowCoherent(b) && Guard(op, b)
    ensures RowCoherent(Effect(op, b, now)) && Later(b, Effect(op, b, now))
  {
  }

  /** A running backup has no artifact yet, so the second guard of `MarkUploaded` never rejects one. */
  lemma UploadNeverRejectsRunning(b: Backup, a: Artifact)
    requires RowCoherent(b)
    ensures Guard(Upload(a), b) <==> b.status == Running
  {
  }

  /** Some backup of the same policy is scheduled later than `id` and was verified at some point. */
  ghost predicate HasNewerVerified(rows: Rows, id: Uuid)
    requires id in rows
  {
    exists b :: b in rows && rows[b].policy == rows[id].policy &&
                rows[b].status in {Verified, Pruned} && rows[b].scheduledAt > rows[id].scheduledAt
  }

  ghost predicate RowsInv(rows: Rows) {
    SlotsUnique(rows) && forall id :: id in rows ==> RowCoherent(rows[id])
  }

  /** Every backup a pass still intends to prune is superseded. */
  ghost predicate PlansInv(rows: Rows, plans: map<nat, set<Uuid>>) {
    forall pass, id :: pass in plans && id in plans[pass] ==> id in rows && HasNewerVerified(rows, id)
  }

  ghost predicate PrunedInv(rows: Rows) {
    forall id :: id in rows && rows[id].status == Pruned ==> HasNewerVerified(rows, id)
  }

  ghost predicate Inv(s: System) {
    RowsInv(s.rows) && PlansInv(s.rows, s.plans) && PrunedInv(s.rows)
  }

  ghost predicate RowsLater(rows: Rows, rows': Rows) {
    forall id :: id in rows ==> id in rows' && Later(rows[id], rows'[id])
  }

  lemma UpdateStep(rows: Rows, id: Uuid, op: Operation, now: Time)
    requires RowsInv(rows)
    ensures RowsInv(Updated(rows, id, op, now)) && RowsLater(rows, Updated(rows, id, op, now))
  {
    if Accepts(rows, id, op) {
      OperationKeepsRow(op, rows[id], now);
    }
  }

  lemma InsertStep(rows: Rows, id: Uuid, b: Backup)
    requires RowsInv(rows) && b == NewBackup(b.policy, b.scheduledAt, Pending, "", b.artifact.metadata)
    ensures RowsInv(Inserted(rows, id, b)) && RowsLater(rows, Inserted(rows, id, b))
  {
  }

  lemma RowsStep(s: System, e: Event)
    requires RowsInv(s.rows) && Enabled(s, e)
    ensures RowsInv(Apply(s, e).rows) && RowsLater(s.rows, Apply(s, e).rows)
  {
    match e
    case Create(id, b) => InsertStep(s.rows, id, b);
    case Work(id, op, now) => UpdateStep(s.rows, id, op, now);
    case PruneOne(_, id, now) => UpdateStep(s.rows, id, Prune, now);
    case _ =>
  }

  /** "Has a newer verified backup" is never lost again. */
  lemma NewerVerifiedStays(rows: Rows, rows': Rows, id: Uuid)
    requires id in rows && HasNewerVerified(rows, id) && RowsLater(rows, rows') && RowsInv(rows)
    ensures id in rows' && HasNewerVerified(rows', id)
  {
    var b :| b in rows && rows[b].policy == rows[id].policy &&
             rows[b].status in {Verified, Pruned} && rows[b].scheduledAt > rows[id].scheduledAt;
    assert Later(rows[b], rows'[b]) && Later(rows[id], rows'[id]);
    assert b in rows';
  }

  /** Whatever a pass selects is older than the head of its snapshot, which is verified. */
  lemma SelectedHasNewer(s: System, policy: Uuid, snapshot: seq<Retention.Entry>, q: Retention.Quotas, id: Uuid)
    requires RowsInv(s.rows) && IsSnapshot(s, policy, snapshot) && id in Selected(q, snapshot)
    ensures id in s.rows && HasNewerVerified(s.rows, id)
  {
    var e :| e in Retention.Dropped(q, snapshot) && e.id == id;
    RetentionLaws.KeptByIndex(q, snapshot, e);
    var i: nat :| i < |snapshot| && snapshot[i] == e && !Retention.Retained(q, snapshot, i);
    var head := snapshot[0];
    assert i > 0 && head.id != id;
    assert head in snapshot && e in snapshot;
    assert Listed(s, policy, head) && Listed(s, policy, e);
    assert s.rows[head.id].scheduledAt > s.rows[id].scheduledAt;
  }

  /** Plans made earlier stay sound while rows move on. */
  lemma PlansStay(rows: Rows, rows': Rows, plans: map<nat, set<Uuid>>)
    requires RowsInv(rows) && PlansInv(rows, plans) && RowsLater(rows, rows')
    ensures PlansInv(rows', plans)
  {
    forall pass, id | pass in plans && id in plans[pass] ensures id in rows' && HasNewerVerified(rows', id) {
      NewerVerifiedStays(rows, rows', id);
    }
  }

  lemma PlansStep(s: System, e: Event)
    requires Inv(s) && Enabled(s, e)
    ensures PlansInv(Apply(s, e).rows, Apply(s, e).plans)
  {
    if e.Plan? {
      forall id | id in Selected(e.quotas, e.snapshot) ensures id in s.rows && HasNewerVerified(s.rows, id) {
        SelectedHasNewer(s, e.policy, e.snapshot, e.quotas, id);
      }
    } else {
      RowsStep(s, e);
      PlansStay(s.rows, Apply(s, e).rows, s.plans);
    }
  }

  lemma PrunedStep(s: System, e: Event)
    requires Inv(s) && Enabled(s, e)
    ensures PrunedInv(Apply(s, e).rows)
  {
    var s' := Apply(s, e);
    RowsStep(s, e);
    forall id | id in s'.rows && s'.rows[id].status == Pruned ensures HasNewerVerified(s'.rows, id) {
      PrunedBy(s, e, id);
      NewerVerifiedStays(s.rows, s'.rows, id);
    }
  }

  /** A pruned backup was pruned before, or is the one that some pass prunes now. */
  lemma PrunedBy(s: System, e: Event, id: Uuid)
    requires Enabled(s, e) && id in Apply(s, e).rows && Apply(s, e).rows[id].status == Pruned
    ensures id in s.rows
    ensures s.rows[id].status == Pruned ||
            (e.PruneOne? && e.id == id && e.pass in s.plans && id in s.plans[e.pass])
  {
  }

  lemma {:induction false} InvAlways(trace: seq<System>, events: seq<Event>, n: nat)
    requires IsRun(trace, events) && n <= |events|
    ensures Inv(trace[n])
  {
    if n == 0 {
    } else {
      InvAlways(trace, events, n - 1);
      assert Step(trace[n - 1], events[n - 1], trace[n]);
      RowsStep(trace[n - 1], events[n - 1]);
      PlansStep(trace[n - 1], events[n - 1]);
      PrunedStep(trace[n - 1], events[n - 1]);
    }
  }

  lemma RowsLaterTransitive(a: Rows, b: Rows, c: Rows)
    requires RowsInv(a) && RowsInv(b) && RowsInv(c) && RowsLater(a, b) && RowsLater(b, c)
    ensures RowsLater(a, c)
  {
    forall id | id in a ensures id in c && Later(a[id], c[id]) {
      LaterTransitive(a[id], b[id], c[id]);
    }
  }

  lemma LaterTransitive(a: Backup, b: Backup, c: Backup)
    requires RowCoherent(a) && RowCoherent(b) && RowCoherent(c) && Later(a, b) && Later(b, c)
    ensures Later(a, c)
  {
  }

  /** Artifact, size, digest and the time stamps are written once, and pruned is final. */
  lemma {:induction false} WrittenOnce(trace: seq<System>, events: seq<Event>, m: nat, n: nat)
    requires IsRun(trace, events) && m <= n <= |events|
    ensures RowsLater(trace[m].rows, trace[n].rows)
    ensures forall id :: id in trace[n].rows ==> RowCoherent(trace[n].rows[id])
    decreases n
  {
    InvAlways(trace, events, n);
    if m < n {
      WrittenOnce(trace, events, m, n - 1);
      InvAlways(trace, events, m);
      InvAlways(trace, events, n - 1);
      assert Step(trace[n - 1], events[n - 1], trace[n]);
      RowsStep(trace[n - 1], events[n - 1]);
      RowsLaterTransitive(trace[m].rows, trace[n - 1].rows, trace[n].rows);
    }
  }

  // ---------------------------------------------------------------- the newest recovery point

  predicate IsVerified(s: System, id: Uuid) {
    id in s.rows && s.rows[id].status == Verified
  }

  /** `id` was verified at some moment up to `n`. */
  ghost predicate EverVerified(trace: seq<System>, n: nat, id: Uuid)
    requires n < |trace|
  {
    exists m: nat :: m <= n && IsVerified(trace[m], id)
  }

  lemma OnlyVerifiedIsPruned(s: System, e: Event, id: Uuid)
    requires Enabled(s, e) && id in Apply(s, e).rows && Apply(s, e).rows[id].status == Pruned
    ensures id in s.rows && s.rows[id].status in {Verified, Pruned}
  {
  }

  /** Nothing is pruned that was not verified before. */
  lemma {:induction false} WasVerified(trace: seq<System>, events: seq<Event>, n: nat, id: Uuid)
    requires IsRun(trace, events) && n <= |events|
    requires id in trace[n].rows && trace[n].rows[id].status in {Verified, Pruned}
    ensures EverVerified(trace, n, id)
  {
    if IsVerified(trace[n], id) {
    } else {
      assert n > 0;
      assert Step(trace[n - 1], events[n - 1], trace[n]);
      OnlyVerifiedIsPruned(trace[n - 1], events[n - 1], id);
      WasVerified(trace, events, n - 1, id);
      var m: nat :| m <= n - 1 && IsVerified(trace[m], id);
    }
  }

  /**
   The backup with the greatest scheduled time among all ever verified in its
   policy is still verified, whatever stale passes did in between.
   */
  lemma NewestVerifiedIsNeverPruned(trace: seq<System>, events: seq<Event>, n: nat, id: Uuid)
    requires IsRun(trace, events) && n <= |events|
    requires EverVerified(trace, n, id) && id in trace[n].rows
    requires forall o | o in trace[n].rows && EverVerified(trace, n, o) ::
               trace[n].rows[o].policy == trace[n].rows[id].policy ==>
                 trace[n].rows[o].scheduledAt <= trace[n].rows[id].scheduledAt
    ensures trace[n].rows[id].status == Verified
  {
    var rows := trace[n].rows;
    InvAlways(trace, events, n);
    var m: nat :| m <= n && IsVerified(trace[m], id);
    WrittenOnce(trace, events, m, n);
    InvAlways(trace, events, m);
    assert Later(trace[m].rows[id], rows[id]);
    if rows[id].status == Pruned {
      var b :| b in rows && rows[b].policy == rows[id].policy &&
               rows[b].status in {Verified, Pruned} && rows[b].scheduledAt > rows[id].scheduledAt;
      WasVerified(trace, events, n, b);
      assert false;
    }
  }

  /** A policy that ever had a verified backup keeps at least one to restore from. */
  lemma RecoveryPointRemains(trace: seq<System>, events: seq<Event>, n: nat, id: Uuid)
    requires IsRun(trace, events) && n <= |events| && EverVerified(trace, n, id)
    ensures id in trace[n].rows
    ensures exists b :: IsVerified(trace[n], b) && trace[n].rows[b].policy == trace[n].rows[id].policy
  {
    var m: nat :| m <= n && IsVerified(trace[m], id);
    WrittenOnce(trace, events, m, n);
    InvAlways(trace, events, m);
    InvAlways(trace, events, n);
    assert Later(trace[m].rows[id], trace[n].rows[id]);
    var b := SurvivorAbove(trace[n].rows, id, trace[n].rows.Keys);
    assert IsVerified(trace[n], b);
  }

  /** Climbing to newer verified backups ends at one that was never pruned. */
  lemma {:induction false} SurvivorAbove(rows: Rows, id: Uuid, above: set<Uuid>) returns (b: Uuid)
    requires PrunedInv(rows) && id in rows && rows[id].status in {Verified, Pruned}
    requires forall o :: o in rows && rows[o].scheduledAt >= rows[id].scheduledAt ==> o in above
    ensures b in rows && rows[b].status == Verified && rows[b].policy == rows[id].policy
    decreases |above|
  {
    b := id;
    if rows[id].status == Pruned {
      b :| b in rows && rows[b].policy == rows[id].policy &&
           rows[b].status in {Verified, Pruned} && rows[b].scheduledAt > rows[id].scheduledAt;
      assert id in above;
      b := SurvivorAbove(rows, b, above - {id});
    }
  }

  // ---------------------------------------------------------------- snapshots exist

  function EntryAt(rows: Rows, id: Uuid): (e: Retention.Entry)
    requires id in rows
    ensures e.id == id && e.scheduledAt == rows[id].scheduledAt && Calendar.OnCalendar(e)
  {
    Calendar.EntryOf(id, rows[id].scheduledAt)
  }

  /** `es` lists these backups, newest first. */
  ghost predicate Lists(rows: Rows, ids: set<Uuid>, es: seq<Retention.Entry>)
    requires ids <= rows.Keys
  {
    && RetentionLaws.NewestFirst(es) && Retention.DistinctIds(es)
    && (forall e :: e in es ==> e.id in ids && e == EntryAt(rows, e.id))
    && (forall id :: id in ids ==> EntryAt(rows, id) in es)
  }

  lemma {:induction false} SortedEntries(rows: Rows, ids: set<Uuid>) returns (es: seq<Retention.Entry>)
    requires ids <= rows.Keys
    ensures Lists(rows, ids, es)
    decreases ids
  {
    if ids == {} {
      es := [];
    } else {
      var oldest := OldestOf(rows, ids);
      es := SortedEntries(rows, ids - {oldest});
      AppendOldest(rows, ids, es, oldest);
      es := es + [EntryAt(rows, oldest)];
    }
  }

  lemma AppendOldest(rows: Rows, ids: set<Uuid>, es: seq<Retention.Entry>, oldest: Uuid)
    requires ids <= rows.Keys && oldest in ids && Lists(rows, ids - {oldest}, es)
    requires forall o :: o in ids ==> rows[oldest].scheduledAt <= rows[o].scheduledAt
    ensures Lists(rows, ids, es + [EntryAt(rows, oldest)])
  {
    forall i | 0 <= i < |es| ensures es[i].id in ids && es[i].id != oldest && es[i] == EntryAt(rows, es[i].id) {
      assert es[i] in es;
    }
  }

  lemma {:induction false} OldestOf(rows: Rows, ids: set<Uuid>) returns (oldest: Uuid)
    requires ids != {} && ids <= rows.Keys
    ensures oldest in ids && forall o :: o in ids ==> rows[oldest].scheduledAt <= rows[o].scheduledAt
    decreases ids
  {
    oldest :| oldest in ids;
    if ids != {oldest} {
      var other := OldestOf(rows, ids - {oldest});
      oldest := if rows[oldest].scheduledAt <= rows[other].scheduledAt then oldest else other;
    }
  }

  /** The query always has an answer, so a pass can always be planned. */
  lemma SnapshotExists(s: System, policy: Uuid) returns (snapshot: seq<Retention.Entry>)
    ensures IsSnapshot(s, policy, snapshot)
  {
    var ids := set id | id in s.rows && IsListed(s, policy, id);
    snapshot := SortedEntries(s.rows, ids);
    forall id | IsListed(s, policy, id) ensures exists e :: e in snapshot && e.id == id {
      assert id in ids && EntryAt(s.rows, id) in snapshot;
    }
  }
}
