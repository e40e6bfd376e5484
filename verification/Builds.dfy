/** The build table: a worker and a user race on the same row. */
module Builds {
  import opened Common
  import opened Text

  datatype Status = Pending | Running | Succeeded | Failed | Cancelled

  datatype Build = Build(
    status: Status,
    step: Option<string>,
    artifact: Option<string>,
    digest: seq<int>,
    startedAt: Option<Time>,
    finishedAt: Option<Time>,
    error: Option<string>)

  type Rows = map<Uuid, Build>

  datatype Operation =
    | MarkRunning
    | MarkProgress(step: string)
    | MarkSucceeded(reference: string, digest: seq<int>)
    | MarkFailed(message: string)
    | MarkCancelled
    | ResetForRetry
  {
    predicate Finishes() {
      MarkSucceeded? || MarkFailed? || MarkCancelled?
    }
  }

  const DIGEST_SIZE := 32

  predicate Contains(s: string, part: string) {
    exists i :: 0 <= i <= |s| && part <= s[i..]
  }

  predicate IsImmutableArtifact(reference: string, digest: seq<int>) {
    Contains(reference, "@sha256:") && |digest| == DIGEST_SIZE
  }

  /** Argument checks and `WHERE` clause of each update, apart from the identifier. */
  predicate Guard(op: Operation, b: Build) {
    match op
    case MarkRunning => b.status in {Pending, Running}
    case MarkProgress(step) => TrimSpace(step) != "" && b.status == Running
    case MarkSucceeded(reference, digest) => IsImmutableArtifact(reference, digest) && b.status == Running
    case MarkFailed(_) => b.status in {Pending, Running}
    case MarkCancelled => b.status in {Pending, Running}
    case ResetForRetry => b.status in {Failed, Cancelled}
  }

  function Effect(op: Operation, b: Build, now: Time): Build {
    match op
    case MarkRunning =>
      b.(status := Running, step := Some("starting"), finishedAt := None, error := None,
        startedAt := if b.startedAt.None? then Some(now) else b.startedAt)
    case MarkProgress(step) => b.(step := Some(TrimSpace(step)))
    case MarkSucceeded(reference, digest) =>
      b.(status := Succeeded, artifact := Some(reference), digest := digest, step := Some("completed"),
        finishedAt := Some(now), error := None)
    case MarkFailed(message) =>
      b.(status := Failed, finishedAt := Some(now), step := Some("failed"), error := Some(message))
    case MarkCancelled =>
      b.(status := Cancelled, finishedAt := Some(now), step := Some("cancelled"),
        error := Some("Build cancelled by user"))
    case ResetForRetry => Build(Pending, Some("queued"), None, [], None, None, None)
  }

  predicate Accepts(rows: Rows, id: Uuid, op: Operation) {
    id in rows && Guard(op, rows[id])
  }

  function Updated(rows: Rows, id: Uuid, op: Operation, now: Time): Rows {
    if Accepts(rows, id, op) then rows[id := Effect(op, rows[id], now)] else rows
  }

  class BuildTable {
    var rows: Rows

    method MarkRunning(id: Uuid, now: Time) returns (ok: bool)
      modifies this
      ensures ok == Accepts(old(rows), id, Operation.MarkRunning)
      ensures rows == Updated(old(rows), id, Operation.MarkRunning, now)
    {
      ok := id in rows && rows[id].status in {Pending, Running};
      if ok {
        var started := if rows[id].startedAt.None? then Some(now) else rows[id].startedAt;
        rows := rows[id := rows[id].(status := Running, step := Some("starting"), startedAt := started,
        finishedAt := None, error := None)];
      }
    }

    method MarkProgress(id: Uuid, step: string, now: Time) returns (ok: bool)
      modifies this
      ensures ok == Accepts(old(rows), id, Operation.MarkProgress(step))
      ensures rows == Updated(old(rows), id, Operation.MarkProgress(step), now)
    {
      var trimmed := TrimSpace(step);
      if trimmed == "" {
        return false;
      }
      ok := id in rows && rows[id].status == Running;
      if ok {
        rows := rows[id := rows[id].(step := Some(trimmed))];
      }
    }

    method MarkSucceeded(id: Uuid, reference: string, digest: seq<int>, now: Time) returns (ok: bool)
      modifies this
      ensures ok == Accepts(old(rows), id, Operation.MarkSucceeded(reference, digest))
      ensures rows == Updated(old(rows), id, Operation.MarkSucceeded(reference, digest), now)
    {
      if !Contains(reference, "@sha256:") || |digest| != DIGEST_SIZE {
        return false;
      }
      ok := id in rows && rows[id].status == Running;
      if ok {
        rows := rows[id := rows[id].(status := Succeeded, artifact := Some(reference), digest := digest,
        step := Some("completed"), finishedAt := Some(now), error := None)];
      }
    }

    /** Losing the race is not reported: the source ignores the row count here. */
    method MarkFailed(id: Uuid, message: string, now: Time)
      modifies this
      ensures rows == Updated(old(rows), id, Operation.MarkFailed(message), now)
    {
      if id in rows && rows[id].status in {Pending, Running} {
        rows := rows[id := rows[id].(status := Failed, finishedAt := Some(now), step := Some("failed"),
        error := Some(message))];
      }
    }

    method MarkCancelled(id: Uuid, now: Time) returns (ok: bool)
      modifies this
      ensures ok == Accepts(old(rows), id, Operation.MarkCancelled)
      ensures rows == Updated(old(rows), id, Operation.MarkCancelled, now)
    {
      ok := id in rows && rows[id].status in {Pending, Running};
      if ok {
        rows := rows[id := rows[id].(status := Cancelled, finishedAt := Some(now), step := Some("cancelled"),
        error := Some("Build cancelled by user"))];
      }
    }

    method ResetForRetry(id: Uuid, now: Time) returns (ok: bool)
      modifies this
      ensures ok == Accepts(old(rows), id, Operation.ResetForRetry)
      ensures rows == Updated(old(rows), id, Operation.ResetForRetry, now)
    {
      ok := id in rows && rows[id].status in {Failed, Cancelled};
      if ok {
        rows := rows[id := rows[id].(status := Pending, step := Some("queued"), startedAt := None, finishedAt := None,
        error := None, artifact := None, digest := [])];
      }
    }
  }

  // ---------------------------------------------------------------- runs

  datatype Event = Event(id: Uuid, op: Operation, now: Time)

  /** `trace[n]` is the table after the first `n` events. */
  ghost predicate IsRun(trace: seq<Rows>, events: seq<Event>) {
    && |trace| == |events| + 1
    && forall n {:trigger events[n]} :: 0 <= n < |events| ==>
         trace[n + 1] == Updated(trace[n], events[n].id, events[n].op, events[n].now)
  }

  /** Event `n` takes effect on build `id`. */
  ghost predicate TakesEffect(trace: seq<Rows>, events: seq<Event>, n: nat, id: Uuid)
    requires |trace| == |events| + 1 && n < |events|
  {
    events[n].id == id && Accepts(trace[n], id, events[n].op)
  }

  predicate IsTerminal(status: Status) {
    status in {Succeeded, Failed, Cancelled}
  }

  ghost predicate Coherent(b: Build) {
    && (b.status == Succeeded ==> b.artifact.Some? && IsImmutableArtifact(b.artifact.value, b.digest))
    && (b.status != Succeeded ==> b.artifact.None? && b.digest == [])
    && (b.finishedAt.Some? <==> IsTerminal(b.status))
    && (b.status == Running ==> b.startedAt.Some?)
  }

  /** How one event moves build `id`. */
  lemma RowMoves(trace: seq<Rows>, events: seq<Event>, n: nat, id: Uuid)
    requires IsRun(trace, events) && n < |events| && id in trace[n]
    ensures id in trace[n + 1]
    ensures trace[n + 1][id] ==
            if TakesEffect(trace, events, n, id)
            then Effect(events[n].op, trace[n][id], events[n].now)
            else trace[n][id]
  {
    assert events[n] == events[n];
  }

  /** An artifact is present exactly on succeeded builds, a finish time exactly on finished ones. */
  lemma {:induction false} CoherentAlways(trace: seq<Rows>, events: seq<Event>, m: nat, n: nat, id: Uuid)
    requires IsRun(trace, events) && m <= n <= |events| && id in trace[m] && Coherent(trace[m][id])
    ensures id in trace[n] && Coherent(trace[n][id])
    ensures trace[m][id].status == Succeeded ==> trace[n][id] == trace[m][id]
    decreases n
  {
    if m < n {
      CoherentAlways(trace, events, m, n - 1, id);
      RowMoves(trace, events, n - 1, id);
    }
  }

  /** How many of the events `m` to `n` finished build `id`. */
  ghost function Finishes(trace: seq<Rows>, events: seq<Event>, m: nat, n: nat, id: Uuid): nat
    requires |trace| == |events| + 1 && m <= n <= |events|
    decreases n
  {
    if m == n then 0
    else Finishes(trace, events, m, n - 1, id) +
         (if TakesEffect(trace, events, n - 1, id) && events[n - 1].op.Finishes() then 1 else 0)
  }

  ghost predicate NoReset(trace: seq<Rows>, events: seq<Event>, m: nat, n: nat, id: Uuid)
    requires |trace| == |events| + 1 && m <= n <= |events|
  {
    forall k :: m <= k < n && TakesEffect(trace, events, k, id) ==> events[k].op != ResetForRetry
  }

  /** Between two resets exactly the first of succeed, fail and cancel takes effect. */
  lemma {:induction false} OneFinishBetweenResets(trace: seq<Rows>, events: seq<Event>, m: nat, n: nat, id: Uuid)
    requires IsRun(trace, events) && m <= n <= |events| && id in trace[m]
    requires NoReset(trace, events, m, n, id) && !IsTerminal(trace[m][id].status)
    ensures id in trace[n]
    ensures Finishes(trace, events, m, n, id) == if IsTerminal(trace[n][id].status) then 1 else 0
    decreases n
  {
    if m < n {
      OneFinishBetweenResets(trace, events, m, n - 1, id);
      RowMoves(trace, events, n - 1, id);
    }
  }

  lemma {:induction false} PendingAgain(trace: seq<Rows>, events: seq<Event>, m: nat, n: nat, id: Uuid) returns (k: nat)
    requires IsRun(trace, events) && m <= n <= |events|
    requires id in trace[m] && trace[m][id].status != Pending
    requires id in trace[n] && trace[n][id].status == Pending
    ensures m <= k < n && TakesEffect(trace, events, k, id) && events[k].op == ResetForRetry
    decreases n
  {
    assert m < n;
    KeepsId(trace, events, m, n - 1, id);
    RowMoves(trace, events, n - 1, id);
    if trace[n - 1][id].status == Pending {
      k := PendingAgain(trace, events, m, n - 1, id);
    } else {
      k := n - 1;
    }
  }

  lemma {:induction false} KeepsId(trace: seq<Rows>, events: seq<Event>, m: nat, n: nat, id: Uuid)
    requires IsRun(trace, events) && m <= n <= |events| && id in trace[m]
    ensures id in trace[n]
    decreases n
  {
    if m < n {
      KeepsId(trace, events, m, n - 1, id);
      RowMoves(trace, events, n - 1, id);
    }
  }

  lemma {:induction false} RunningAgain(trace: seq<Rows>, events: seq<Event>, m: nat, n: nat, id: Uuid) returns (k: nat)
    requires IsRun(trace, events) && m <= n <= |events|
    requires id in trace[m] && trace[m][id].status != Running
    requires id in trace[n] && trace[n][id].status == Running
    ensures m <= k < n && TakesEffect(trace, events, k, id) && events[k].op == MarkRunning
    ensures id in trace[k] && trace[k][id].status == Pending
    decreases n
  {
    assert m < n;
    KeepsId(trace, events, m, n - 1, id);
    RowMoves(trace, events, n - 1, id);
    if trace[n - 1][id].status == Running {
      k := RunningAgain(trace, events, m, n - 1, id);
    } else {
      k := n - 1;
    }
  }

  /** A cancelled (or failed) build succeeds only after a reset and a fresh start, in that order. */
  lemma {:induction false} SuccessAfterCancelNeedsReset(trace: seq<Rows>, events: seq<Event>, m: nat, n: nat, id: Uuid)
    returns (reset: nat, start: nat, success: nat)
    requires IsRun(trace, events) && m <= n <= |events|
    requires id in trace[m] && trace[m][id].status in {Failed, Cancelled}
    requires id in trace[n] && trace[n][id].status == Succeeded
    ensures m <= reset < start < success < n
    ensures TakesEffect(trace, events, reset, id) && events[reset].op == ResetForRetry
    ensures TakesEffect(trace, events, start, id) && events[start].op == MarkRunning
    ensures TakesEffect(trace, events, success, id) && events[success].op.MarkSucceeded?
    decreases n
  {
    KeepsId(trace, events, m, n - 1, id);
    RowMoves(trace, events, n - 1, id);
    if trace[n - 1][id].status == Succeeded {
      reset, start, success := SuccessAfterCancelNeedsReset(trace, events, m, n - 1, id);
    } else {
      success := n - 1;
      start := RunningAgain(trace, events, m, success, id);
      reset := PendingAgain(trace, events, m, start, id);
    }
  }
}
