/** The deployment table, and when a change still waits for deployments. */
module Deployments {
  import opened Common

  datatype Status = Queued | Running | Cancelling | Cancelled | Succeeded | Failed | OtherStatus(name: string)

  datatype Deployment = Deployment(
    change: Uuid,
    status: Status,
    step: Option<string>,
    startedAt: Option<Time>,
    finishedAt: Option<Time>,
    error: Option<string>)

  type Rows = map<Uuid, Deployment>

  datatype Operation =
    | MarkRunning(step: string)
    | SetCurrentStep(step: string)
    | MarkSucceeded
    | MarkFailed(message: string)
    | MarkCancelling(reason: string)
    | MarkCancelled(reason: string)

  predicate Guard(op: Operation, d: Deployment) {
    match op
    case MarkRunning(_) => d.status in {Queued, Running}
    case SetCurrentStep(_) => d.status == Running
    case MarkSucceeded => d.status == Running
    case MarkFailed(_) => d.status in {Queued, Running, Cancelling}
    case MarkCancelling(_) => d.status in {Queued, Running, Cancelling}
    case MarkCancelled(_) => d.status == Cancelling
  }

  function Effect(op: Operation, d: Deployment, now: Time): Deployment {
    match op
    case MarkRunning(step) =>
      d.(status := Running, step := Some(step), finishedAt := None, error := None,
        startedAt := if d.startedAt.None? then Some(now) else d.startedAt)
    case SetCurrentStep(step) => d.(step := Some(step))
    case MarkSucceeded => d.(status := Succeeded, step := Some("serving"), finishedAt := Some(now), error := None)
    case MarkFailed(message) =>
      d.(status := Failed, step := Some("failed"), finishedAt := Some(now), error := Some(message))
    case MarkCancelling(reason) => d.(status := Cancelling, step := Some("rollback"), error := Some(reason))
    case MarkCancelled(reason) =>
      d.(status := Cancelled, step := Some("rolled_back"), finishedAt := Some(now), error := Some(reason))
  }

  predicate Accepts(rows: Rows, id: Uuid, op: Operation) {
    id in rows && Guard(op, rows[id])
  }

  function Updated(rows: Rows, id: Uuid, op: Operation, now: Time): Rows {
    if Accepts(rows, id, op) then rows[id := Effect(op, rows[id], now)] else rows
  }

  /** The deployments of a change that have not succeeded. */
  function Remaining(rows: Rows, change: Uuid): set<Uuid> {
    set id | id in rows && rows[id].change == change && rows[id].status != Succeeded
  }

  class DeploymentTable {
    var rows: Rows

    /** Status, step and times are stored as given. */
    method Create(id: Uuid, d: Deployment) returns (ok: bool)
      modifies this
      ensures ok == (id !in old(rows))
      ensures rows == if ok then old(rows)[id := d] else old(rows)
    {
      ok := id !in rows;
      if ok {
        rows := rows[id := d];
      }
    }

    method MarkRunning(id: Uuid, step: string, now: Time)
      modifies this
      ensures rows == Updated(old(rows), id, Operation.MarkRunning(step), now)
    {
      if id in rows && rows[id].status in {Queued, Running} {
        var started := if rows[id].startedAt.None? then Some(now) else rows[id].startedAt;
        rows := rows[id := rows[id].(status := Running, step := Some(step), startedAt := started,
        finishedAt := None, error := None)];
      }
    }

    method SetCurrentStep(id: Uuid, step: string, now: Time) returns (ok: bool)
      modifies this
      ensures ok == Accepts(old(rows), id, Operation.SetCurrentStep(step))
      ensures rows == Updated(old(rows), id, Operation.SetCurrentStep(step), now)
    {
      ok := id in rows && rows[id].status == Running;
      if ok {
        rows := rows[id := rows[id].(step := Some(step))];
      }
    }

    method MarkSucceeded(id: Uuid, now: Time)
      modifies this
      ensures rows == Updated(old(rows), id, Operation.MarkSucceeded, now)
    {
      if id in rows && rows[id].status == Running {
        rows := rows[id := rows[id].(status := Succeeded, step := Some("serving"), finishedAt := Some(now),
        error := None)];
      }
    }

    method MarkFailed(id: Uuid, message: string, now: Time)
      modifies this
      ensures rows == Updated(old(rows), id, Operation.MarkFailed(message), now)
    {
      if id in rows && rows[id].status in {Queued, Running, Cancelling} {
        rows := rows[id := rows[id].(status := Failed, step := Some("failed"), finishedAt := Some(now),
        error := Some(message))];
      }
    }

    method MarkCancelling(id: Uuid, reason: string, now: Time)
      modifies this
      ensures rows == Updated(old(rows), id, Operation.MarkCancelling(reason), now)
    {
      if id in rows && rows[id].status in {Queued, Running, Cancelling} {
        rows := rows[id := rows[id].(status := Cancelling, step := Some("rollback"), error := Some(reason))];
      }
    }

    method MarkCancelled(id: Uuid, reason: string, now: Time)
      modifies this
      ensures rows == Updated(old(rows), id, Operation.MarkCancelled(reason), now)
    {
      if id in rows && rows[id].status == Cancelling {
        rows := rows[id := rows[id].(status := Cancelled, step := Some("rolled_back"), finishedAt := Some(now),
        error := Some(reason))];
      }
    }

    method RemainingForChange(change: Uuid) returns (count: nat)
      ensures count == |Remaining(rows, change)|
      ensures count == 0 <==> forall id :: id in rows && rows[id].change == change ==> rows[id].status == Succeeded
    {
      var left := Remaining(rows, change);
      count := |left|;
      if count == 0 {
        forall id | id in rows && rows[id].change == change ensures rows[id].status == Succeeded {
          assert id !in left;
        }
      } else {
        var id :| id in left;
      }
    }
  }

  // ---------------------------------------------------------------- runs

  datatype Event = Insert(id: Uuid, deployment: Deployment) | Update(id: Uuid, op: Operation, now: Time)

  function Apply(rows: Rows, e: Event): Rows {
    match e
    case Insert(id, d) => if id in rows then rows else rows[id := d]
    case Update(id, op, now) => Updated(rows, id, op, now)
  }

  /** `trace[n]` is the table after the first `n` events. */
  ghost predicate IsRun(trace: seq<Rows>, events: seq<Event>) {
    && |trace| == |events| + 1
    && forall n {:trigger events[n]} :: 0 <= n < |events| ==> trace[n + 1] == Apply(trace[n], events[n])
  }

  predicate IsTerminal(status: Status) {
    status in {Succeeded, Failed, Cancelled}
  }

  /** On its way to being cancelled, or ended without success. */
  predicate IsDoomed(status: Status) {
    status in {Cancelling, Cancelled, Failed}
  }

  ghost predicate Coherent(d: Deployment) {
    d.finishedAt.Some? <==> IsTerminal(d.status)
  }

  ghost predicate Later(d: Deployment, d': Deployment) {
    && d'.change == d.change
    && (IsTerminal(d.status) ==> d' == d)
    && (IsDoomed(d.status) ==> IsDoomed(d'.status))
    && (Coherent(d) ==> Coherent(d'))
  }

  lemma RowsStep(rows: Rows, e: Event, id: Uuid)
    requires id in rows
    ensures id in Apply(rows, e) && Later(rows[id], Apply(rows, e)[id])
  {
  }

  /**
   Ended deployments never change, cancelling ones never run or succeed again, and
   the finish time is set exactly on ended ones.
   */
  lemma {:induction false} DeploymentsOnlyMoveForward(trace: seq<Rows>, events: seq<Event>, m: nat, n: nat, id: Uuid)
    requires IsRun(trace, events) && m <= n <= |events| && id in trace[m]
    ensures id in trace[n] && Later(trace[m][id], trace[n][id])
    decreases n
  {
    if m < n {
      DeploymentsOnlyMoveForward(trace, events, m, n - 1, id);
      assert events[n - 1] == events[n - 1];
      RowsStep(trace[n - 1], events[n - 1], id);
    }
  }

  /** From an empty table the finish time is set exactly on ended deployments, if it is when they are inserted. */
  lemma {:induction false} FinishedExactlyWhenEnded(trace: seq<Rows>, events: seq<Event>, n: nat, id: Uuid)
    requires IsRun(trace, events) && trace[0] == map[] && n <= |events| && id in trace[n]
    requires forall k :: 0 <= k < n && events[k].Insert? ==> Coherent(events[k].deployment)
    ensures trace[n][id].finishedAt.Some? <==> IsTerminal(trace[n][id].status)
  {
    if n > 0 {
      assert events[n - 1] == events[n - 1];
      if id in trace[n - 1] {
        FinishedExactlyWhenEnded(trace, events, n - 1, id);
        RowsStep(trace[n - 1], events[n - 1], id);
      }
    }
  }

  /** A change with a cancelling, cancelled or failed deployment never has none remaining again. */
  lemma DoomedChangeNeverCompletes(trace: seq<Rows>, events: seq<Event>, m: nat, n: nat, id: Uuid)
    requires IsRun(trace, events) && m <= n <= |events|
    requires id in trace[m] && IsDoomed(trace[m][id].status)
    ensures id in trace[n] && id in Remaining(trace[n], trace[m][id].change)
    ensures |Remaining(trace[n], trace[m][id].change)| > 0
  {
    DeploymentsOnlyMoveForward(trace, events, m, n, id);
    assert id in Remaining(trace[n], trace[m][id].change);
  }

  /** While no deployment is added to a change, the ones remaining only become fewer. */
  lemma {:induction false} RemainingShrinks(trace: seq<Rows>, events: seq<Event>, m: nat, n: nat, change: Uuid)
    requires IsRun(trace, events) && m <= n <= |events|
    requires forall k :: m <= k < n && events[k].Insert? ==> events[k].deployment.change != change
    ensures Remaining(trace[n], change) <= Remaining(trace[m], change)
    decreases n
  {
    if m < n {
      RemainingShrinks(trace, events, m, n - 1, change);
      assert events[n - 1] == events[n - 1];
      forall id | id in Remaining(trace[n], change) ensures id in Remaining(trace[n - 1], change) {
        if id in trace[n - 1] {
          RowsStep(trace[n - 1], events[n - 1], id);
        }
      }
    }
  }
}
