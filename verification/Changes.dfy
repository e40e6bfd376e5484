/** The change table, and whether an environment's setup is complete. */
module Changes {
  import opened Common

  datatype Kind = EnvironmentSetup | OtherKind(name: string)

  datatype Status = Committed | Running | Completed | Failed | Cancelling | Cancelled | OtherStatus(name: string)

  datatype Change = Change(
    kind: Kind,
    environment: Uuid,
    status: Status,
    committedAt: Option<Time>,
    startedAt: Option<Time>,
    finishedAt: Option<Time>,
    cancelledAt: Option<Time>,
    error: Option<string>)

  type Rows = map<Uuid, Change>

  datatype Operation =
    | MarkRunning
    | MarkCompleted
    | MarkFailed(message: string)
    | MarkBuildCancelled
    | ResetBuildForRetry
    | MarkCancelling(reason: string)
    | MarkCancelled(reason: string)
  {
    /** The steps that running, failing, cancelling and retrying builds take. */
    predicate ByBuild() {
      !MarkCancelling? && !MarkCancelled?
    }
  }

  predicate Guard(op: Operation, c: Change) {
    match op
    case MarkCancelling(_) => c.status in {Committed, Running, Cancelling}
    case MarkCancelled(_) => c.status == Cancelling
    case _ => true
  }

  function Effect(op: Operation, c: Change, now: Time): Change {
    match op
    case MarkRunning =>
      c.(status := Running, startedAt := if c.startedAt.None? then Some(now) else c.startedAt,
        finishedAt := None, error := None)
    case MarkCompleted => c.(status := Completed, finishedAt := Some(now), error := None)
    case MarkFailed(message) => c.(status := Failed, finishedAt := Some(now), error := Some(message))
    case MarkBuildCancelled =>
      if c.kind == EnvironmentSetup
      then c.(status := Committed, startedAt := None, finishedAt := None, cancelledAt := None, error := None)
      else c.(status := Cancelled, finishedAt := Some(now), cancelledAt := Some(now),
             error := Some("Build cancelled by user"))
    case ResetBuildForRetry =>
      c.(status := Committed, startedAt := None, finishedAt := None, cancelledAt := None, error := None)
    case MarkCancelling(reason) => c.(status := Cancelling, error := Some(reason))
    case MarkCancelled(reason) =>
      c.(status := Cancelled, finishedAt := Some(now), cancelledAt := Some(now), error := Some(reason))
  }

  predicate Accepts(rows: Rows, id: Uuid, op: Operation) {
    id in rows && Guard(op, rows[id])
  }

  function Updated(rows: Rows, id: Uuid, op: Operation, now: Time): Rows {
    if Accepts(rows, id, op) then rows[id := Effect(op, rows[id], now)] else rows
  }

  class ChangeTable {
    var rows: Rows

    method MarkRunning(id: Uuid, now: Time)
      modifies this
      ensures rows == Updated(old(rows), id, Operation.MarkRunning, now)
    {
      if id in rows {
        var started := if rows[id].startedAt.None? then Some(now) else rows[id].startedAt;
        rows := rows[id := rows[id].(status := Running, startedAt := started, finishedAt := None, error := None)];
      }
    }

    method MarkCompleted(id: Uuid, now: Time)
      modifies this
      ensures rows == Updated(old(rows), id, Operation.MarkCompleted, now)
    {
      if id in rows {
        rows := rows[id := rows[id].(status := Completed, finishedAt := Some(now), error := None)];
      }
    }

    method MarkFailed(id: Uuid, message: string, now: Time)
      modifies this
      ensures rows == Updated(old(rows), id, Operation.MarkFailed(message), now)
    {
      if id in rows {
        rows := rows[id := rows[id].(status := Failed, finishedAt := Some(now), error := Some(message))];
      }
    }

    method MarkBuildCancelled(id: Uuid, now: Time)
      modifies this
      ensures rows == Updated(old(rows), id, Operation.MarkBuildCancelled, now)
    {
      if id in rows {
        var setup := rows[id].kind == EnvironmentSetup;
        var c := rows[id];
        rows := rows[id := c.(
        status := if setup then Committed else Cancelled,
        startedAt := if setup then None else c.startedAt,
        finishedAt := if setup then None else Some(now),
        cancelledAt := if setup then None else Some(now),
        error := if setup then None else Some("Build cancelled by user"))];
      }
    }

    method ResetBuildForRetry(id: Uuid, now: Time)
      modifies this
      ensures rows == Updated(old(rows), id, Operation.ResetBuildForRetry, now)
    {
      if id in rows {
        rows := rows[id := rows[id].(status := Committed, startedAt := None, finishedAt := None, cancelledAt := None,
        error := None)];
      }
    }

    method MarkCancelling(id: Uuid, reason: string, now: Time)
      modifies this
      ensures rows == Updated(old(rows), id, Operation.MarkCancelling(reason), now)
    {
      if id in rows && rows[id].status in {Committed, Running, Cancelling} {
        rows := rows[id := rows[id].(status := Cancelling, error := Some(reason))];
      }
    }

    method MarkCancelled(id: Uuid, reason: string, now: Time)
      modifies this
      ensures rows == Updated(old(rows), id, Operation.MarkCancelled(reason), now)
    {
      if id in rows && rows[id].status == Cancelling {
        rows := rows[id := rows[id].(status := Cancelled, finishedAt := Some(now), cancelledAt := Some(now),
        error := Some(reason))];
      }
    }
  }

  // ---------------------------------------------------------------- setup completeness

  /** A setup change that counts: committed and not cancelled. */
  predicate IsSetup(c: Change, environment: Uuid) {
    c.kind == EnvironmentSetup && c.environment == environment && c.committedAt.Some? && c.cancelledAt.None?
  }

  /** `results` are the changes with a resulting state revision of the environment. */
  predicate SetupComplete(rows: Rows, results: set<Uuid>, environment: Uuid) {
    exists id :: id in rows && id in results && IsSetup(rows[id], environment)
  }

  /** The one step that takes a setup change out of the count is `MarkCancelled` taking effect. */
  lemma SetupLostExactly(op: Operation, c: Change, now: Time, environment: Uuid)
    requires Guard(op, c) && IsSetup(c, environment)
    ensures IsSetup(Effect(op, c, now), environment) <==> !op.MarkCancelled?
  {
  }

  datatype Event = Update(id: Uuid, op: Operation, now: Time) | LinkResult(id: Uuid)

  datatype System = System(rows: Rows, results: set<Uuid>)

  function Apply(s: System, e: Event): System {
    match e
    case Update(id, op, now) => s.(rows := Updated(s.rows, id, op, now))
    case LinkResult(id) => s.(results := s.results + {id})
  }

  function Run(s: System, events: seq<Event>): System {
    if events == [] then s else Apply(Run(s, events[..|events| - 1]), events[|events| - 1])
  }

  lemma BuildStepKeepsSetup(s: System, e: Event, id: Uuid, environment: Uuid)
    requires e.Update? ==> e.op.ByBuild()
    requires id in s.rows && id in s.results && IsSetup(s.rows[id], environment)
    ensures var s' := Apply(s, e);
            id in s'.rows && id in s'.results && IsSetup(s'.rows[id], environment) &&
            s'.rows[id].committedAt == s.rows[id].committedAt
  {
  }

  /** No sequence of build runs, failures, cancellations and retries undoes a complete setup. */
  lemma {:induction false} SetupSurvivesBuilds(s: System, events: seq<Event>, environment: Uuid)
    requires SetupComplete(s.rows, s.results, environment)
    requires forall n :: 0 <= n < |events| && events[n].Update? ==> events[n].op.ByBuild()
    ensures SetupComplete(Run(s, events).rows, Run(s, events).results, environment)
    decreases events
  {
    if events == [] {
    } else {
      var init := events[..|events| - 1];
      SetupSurvivesBuilds(s, init, environment);
      var before := Run(s, init);
      var id :| id in before.rows && id in before.results && IsSetup(before.rows[id], environment);
      BuildStepKeepsSetup(before, events[|events| - 1], id, environment);
    }
  }

  /** For one step of any kind: setup is lost exactly if the step cancels the only change that counts. */
  lemma SetupStepExactly(s: System, id: Uuid, op: Operation, now: Time, environment: Uuid)
    requires SetupComplete(s.rows, s.results, environment)
    ensures SetupComplete(Updated(s.rows, id, op, now), s.results, environment) <==>
            !(op.MarkCancelled? && Accepts(s.rows, id, op) &&
              forall o :: o in s.rows && o in s.results && IsSetup(s.rows[o], environment) ==> o == id)
  {
    var rows := Updated(s.rows, id, op, now);
    var o :| o in s.rows && o in s.results && IsSetup(s.rows[o], environment);
    if Accepts(s.rows, id, op) && op.MarkCancelled? {
      if w :| w in s.rows && w in s.results && IsSetup(s.rows[w], environment) && w != id {
        assert rows[w] == s.rows[w];
      }
    } else {
      assert IsSetup(rows[o], environment);
    }
  }

  /** Cancelling a committed setup change undoes the setup, and retrying it brings it back. */
  lemma CancelledSetupReturnsOnRetry(c: Change, environment: Uuid, reason: string, now: Time)
    requires IsSetup(c, environment) && c.status in {Committed, Running, Cancelling}
    ensures var cancelling := Effect(MarkCancelling(reason), c, now);
            var cancelled := Effect(MarkCancelled(reason), cancelling, now);
            && Guard(MarkCancelling(reason), c) && Guard(MarkCancelled(reason), cancelling)
            && !IsSetup(cancelled, environment)
            && IsSetup(Effect(ResetBuildForRetry, cancelled, now), environment)
  {
  }
}
