/** The backup table: guarded row updates, in place. */
module Backups {
  import opened Common

  datatype Status = Pending | Running | Uploaded | Verified | VerificationFailed | Failed | Pruned

  /** The columns that `MarkUploaded` fixes. */
  datatype Artifact = Artifact(reference: string, metadata: string, sizeBytes: Option<int>, digest: seq<int>)

  datatype Backup = Backup(
    policy: Uuid,
    scheduledAt: Time,
    status: Status,
    artifact: Artifact,
    startedAt: Option<Time>,
    uploadedAt: Option<Time>,
    finishedAt: Option<Time>,
    verifiedAt: Option<Time>,
    prunedAt: Option<Time>,
    error: Option<string>)

  type Rows = map<Uuid, Backup>

  datatype Operation =
    | Claim
    | Fail(message: string)
    | Upload(artifact: Artifact)
    | Verify
    | FailVerification(message: string)
    | Prune

  /** The `WHERE` clause of each update, apart from the identifier. */
  predicate Guard(op: Operation, b: Backup) {
    match op
    case Claim => b.status in {Pending, Running, Failed}
    case Fail(_) => b.status in {Pending, Running, Failed}
    case Upload(_) => b.status == Running && b.artifact.reference == ""
    case Verify => b.status in {Uploaded, VerificationFailed}
    case FailVerification(_) => b.status in {Uploaded, VerificationFailed}
    case Prune => b.status == Verified
  }

  /** The `SET` clauses of each update. */
  function Effect(op: Operation, b: Backup, now: Time): Backup {
    match op
    case Claim =>
      b.(status := Running, startedAt := if b.startedAt.None? then Some(now) else b.startedAt, error := None)
    case Fail(message) => b.(status := Failed, error := Some(message), finishedAt := Some(now))
    case Upload(a) =>
      b.(artifact := a, status := Uploaded, uploadedAt := Some(now), finishedAt := Some(now), error := None)
    case Verify => b.(status := Verified, verifiedAt := Some(now), error := None)
    case FailVerification(message) => b.(status := VerificationFailed, error := Some(message))
    case Prune => b.(status := Pruned, prunedAt := Some(now))
  }

  predicate Accepts(rows: Rows, id: Uuid, op: Operation) {
    id in rows && Guard(op, rows[id])
  }

  function Updated(rows: Rows, id: Uuid, op: Operation, now: Time): Rows {
    if Accepts(rows, id, op) then rows[id := Effect(op, rows[id], now)] else rows
  }

  function NewBackup(policy: Uuid, scheduledAt: Time, status: Status, reference: string, metadata: string): Backup {
    Backup(policy, scheduledAt, status, Artifact(reference, metadata, None, []), None, None, None, None, None, None)
  }

  predicate SlotTaken(rows: Rows, policy: Uuid, scheduledAt: Time) {
    exists id :: id in rows && rows[id].policy == policy && rows[id].scheduledAt == scheduledAt
  }

  function Inserted(rows: Rows, id: Uuid, b: Backup): Rows {
    if id in rows || SlotTaken(rows, b.policy, b.scheduledAt) then rows else rows[id := b]
  }

  /** A policy never has two backups in one scheduled slot. */
  ghost predicate SlotsUnique(rows: Rows) {
    forall a, b | a in rows && b in rows && rows[a].policy == rows[b].policy ::
      rows[a].scheduledAt == rows[b].scheduledAt ==> a == b
  }

  class BackupTable {
    var rows: Rows

    constructor ()
      ensures rows == map[] && SlotsUnique(rows)
    {
      rows := map[];
    }

    method Create(id: Uuid, policy: Uuid, scheduledAt: Time, status: Status, reference: string, metadata: string)
      returns (ok: bool)
      requires SlotsUnique(rows)
      modifies this
      ensures SlotsUnique(rows)
      ensures ok == (id !in old(rows) && !SlotTaken(old(rows), policy, scheduledAt))
      ensures rows == Inserted(old(rows), id, NewBackup(policy, scheduledAt, status, reference, metadata))
    {
      ok := id !in rows && !SlotTaken(rows, policy, scheduledAt);
      if ok {
        rows := rows[id := NewBackup(policy, scheduledAt, status, reference, metadata)];
      }
    }

    method Claim(id: Uuid, now: Time) returns (ok: bool)
      modifies this
      ensures ok == Accepts(old(rows), id, Operation.Claim)
      ensures rows == Updated(old(rows), id, Operation.Claim, now)
    {
      ok := id in rows && rows[id].status in {Pending, Running, Failed};
      if ok {
        var started := if rows[id].startedAt.None? then Some(now) else rows[id].startedAt;
        rows := rows[id := rows[id].(status := Running, startedAt := started, error := None)];
      }
    }

    /** Losing the race is not reported: the source ignores the row count here. */
    method MarkFailed(id: Uuid, message: string, now: Time)
      modifies this
      ensures rows == Updated(old(rows), id, Fail(message), now)
    {
      if id in rows && rows[id].status in {Pending, Running, Failed} {
        rows := rows[id := rows[id].(status := Failed, error := Some(message), finishedAt := Some(now))];
      }
    }

    method MarkUploaded(id: Uuid, artifact: Artifact, now: Time) returns (ok: bool)
      modifies this
      ensures ok == Accepts(old(rows), id, Upload(artifact))
      ensures rows == Updated(old(rows), id, Upload(artifact), now)
    {
      ok := id in rows && rows[id].status == Running && rows[id].artifact.reference == "";
      if ok {
        rows := rows[id := rows[id].(artifact := artifact, status := Uploaded, uploadedAt := Some(now),
        finishedAt := Some(now), error := None)];
      }
    }

    method MarkVerified(id: Uuid, now: Time) returns (ok: bool)
      modifies this
      ensures ok == Accepts(old(rows), id, Verify)
      ensures rows == Updated(old(rows), id, Verify, now)
    {
      ok := id in rows && rows[id].status in {Uploaded, VerificationFailed};
      if ok {
        rows := rows[id := rows[id].(status := Verified, verifiedAt := Some(now), error := None)];
      }
    }

    method MarkVerificationFailed(id: Uuid, message: string, now: Time) returns (ok: bool)
      modifies this
      ensures ok == Accepts(old(rows), id, FailVerification(message))
      ensures rows == Updated(old(rows), id, FailVerification(message), now)
    {
      ok := id in rows && rows[id].status in {Uploaded, VerificationFailed};
      if ok {
        rows := rows[id := rows[id].(status := VerificationFailed, error := Some(message))];
      }
    }

    method MarkPruned(id: Uuid, now: Time) returns (ok: bool)
      modifies this
      ensures ok == Accepts(old(rows), id, Prune)
      ensures rows == Updated(old(rows), id, Prune, now)
    {
      ok := id in rows && rows[id].status == Verified;
      if ok {
        rows := rows[id := rows[id].(status := Pruned, prunedAt := Some(now))];
      }
    }
  }

}
