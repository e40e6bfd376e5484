/** What a deployment is, told by the steps that took effect on it. */
module DeploymentHistory {
  import opened Common
  import opened Histories
  import opened Deployments

  datatype Step = Step(op: Operation, now: Time)

  function Next(d: Deployment, s: Step): Deployment {
    if Guard(s.op, d) then Effect(s.op, d, s.now) else d
  }

  /** The row after some steps were tried on it. */
  function Play(d: Deployment, steps: seq<Step>): Deployment {
    if steps == [] then d else Next(Play(d, steps[..|steps| - 1]), steps[|steps| - 1])
  }

  /** The steps that took effect. */
  function Effective(d: Deployment, steps: seq<Step>): seq<Step> {
    if steps == [] then []
    else
      var before, s := steps[..|steps| - 1], steps[|steps| - 1];
      Effective(d, before) + (if Guard(s.op, Play(d, before)) then [s] else [])
  }

  predicate Starts(s: Step) { s.op.MarkRunning? }

  predicate Cancels(s: Step) { s.op.MarkCancelling? }

  predicate Ends(s: Step) { s.op.MarkSucceeded? || s.op.MarkFailed? || s.op.MarkCancelled? }

  /** All but a change of step. */
  predicate Decides(s: Step) { !s.op.SetCurrentStep? }

  predicate IsAny(s: Step) { true }

  function TimeOf(s: Option<Step>): Option<Time> {
    if s.Some? then Some(s.value.now) else None
  }

  function ErrorAfter(last: Option<Step>): Option<string> {
    match last
    case Some(Step(MarkFailed(message), _)) => Some(message)
    case Some(Step(MarkCancelling(reason), _)) => Some(reason)
    case Some(Step(MarkCancelled(reason), _)) => Some(reason)
    case _ => None
  }

  function StepAfter(last: Option<Step>): Option<string> {
    match last
    case None => None
    case Some(Step(MarkRunning(step), _)) => Some(step)
    case Some(Step(SetCurrentStep(step), _)) => Some(step)
    case Some(Step(MarkSucceeded, _)) => Some("serving")
    case Some(Step(MarkFailed(_), _)) => Some("failed")
    case Some(Step(MarkCancelling(_), _)) => Some("rollback")
    case Some(Step(MarkCancelled(_), _)) => Some("rolled_back")
  }

  ghost predicate ColumnsTell(start: Deployment, h: seq<Step>, d: Deployment) {
    && d.change == start.change
    && d.startedAt == TimeOf(First(h, Starts))
    && d.finishedAt == TimeOf(Last(h, Ends))
    && d.error == ErrorAfter(Last(h, Decides))
    && d.step == StepAfter(Last(h, IsAny))
  }

  ghost predicate StatusTells(h: seq<Step>, d: Deployment) {
    var last := Last(h, Decides);
    && (d.status == Queued <==> last == None)
    && (d.status == Running <==> last.Some? && last.value.op.MarkRunning?)
    && (d.status == Cancelling <==> last.Some? && last.value.op.MarkCancelling?)
    && (d.status == Cancelled <==> last.Some? && last.value.op.MarkCancelled?)
    && (d.status == Succeeded <==> last.Some? && last.value.op.MarkSucceeded?)
    && (d.status == Failed <==> last.Some? && last.value.op.MarkFailed?)
  }

  /** Starts come before a cancellation, and an end comes last. */
  ghost predicate IsOrderly(h: seq<Step>) {
    var last := Last(h, Decides);
    && (Has(h, Ends) <==> last.Some? && Ends(last.value))
    && (last.Some? && last.value.op.MarkRunning? ==> Has(h, Starts) && !Has(h, Cancels))
    && (last.Some? && last.value.op.MarkCancelling? ==> Has(h, Cancels))
    && (last.Some? && last.value.op.MarkCancelled? ==> Has(h, Cancels))
    && (last.None? ==> !Has(h, Starts) && !Has(h, Cancels))
  }

  ghost predicate Tells(start: Deployment, h: seq<Step>, d: Deployment) {
    ColumnsTell(start, h, d) && StatusTells(h, d) && IsOrderly(h)
  }

  predicate Ended(h: seq<Step>) {
    Has(h, Ends)
  }

  /** Whether a step is accepted after a history. */
  predicate Accepted(h: seq<Step>, op: Operation) {
    match op
    case MarkRunning(_) => !Ended(h) && !Has(h, Cancels)
    case SetCurrentStep(_) => !Ended(h) && !Has(h, Cancels) && Has(h, Starts)
    case MarkSucceeded => !Ended(h) && !Has(h, Cancels) && Has(h, Starts)
    case MarkFailed(_) => !Ended(h)
    case MarkCancelling(_) => !Ended(h)
    case MarkCancelled(_) => !Ended(h) && Has(h, Cancels)
  }

  lemma TellsAcceptance(start: Deployment, h: seq<Step>, d: Deployment, op: Operation)
    requires Tells(start, h, d)
    ensures Guard(op, d) <==> Accepted(h, op)
  {
    LastIs(h, Decides);
  }

  lemma AppendAll(h: seq<Step>, s: Step)
    ensures First(h + [s], Starts) ==
            if First(h, Starts).Some? then First(h, Starts) else if Starts(s) then Some(s) else None
    ensures Last(h + [s], Starts) == if Starts(s) then Some(s) else Last(h, Starts)
    ensures Last(h + [s], Cancels) == if Cancels(s) then Some(s) else Last(h, Cancels)
    ensures Last(h + [s], Ends) == if Ends(s) then Some(s) else Last(h, Ends)
    ensures Last(h + [s], Decides) == if Decides(s) then Some(s) else Last(h, Decides)
    ensures Last(h + [s], IsAny) == Some(s)
  {
    Append(h, s, Starts);
    Append(h, s, Cancels);
    Append(h, s, Ends);
    Append(h, s, Decides);
    Append(h, s, IsAny);
  }

  lemma TellsStep(start: Deployment, h: seq<Step>, d: Deployment, s: Step)
    requires Tells(start, h, d) && Guard(s.op, d)
    ensures Tells(start, h + [s], Effect(s.op, d, s.now))
  {
    AppendAll(h, s);
  }

  ghost predicate IsNew(d: Deployment) {
    d == Deployment(d.change, Queued, None, None, None, None)
  }

  lemma {:induction false} TellsAlways(start: Deployment, steps: seq<Step>)
    requires IsNew(start)
    ensures Tells(start, Effective(start, steps), Play(start, steps))
    decreases steps
  {
    if steps != [] {
      var before, s := steps[..|steps| - 1], steps[|steps| - 1];
      TellsAlways(start, before);
      var h := Effective(start, before);
      if Guard(s.op, Play(start, before)) {
        TellsStep(start, h, Play(start, before), s);
      } else {
        assert h + [] == h;
      }
    }
  }

  /**
   Whatever is tried on a queued deployment, in any order: the steps that took effect tell
   every column of the row, its status, and which step is accepted next.
   */
  lemma HistoryTells(start: Deployment, steps: seq<Step>, op: Operation)
    requires IsNew(start)
    ensures var h, d := Effective(start, steps), Play(start, steps);
            ColumnsTell(start, h, d) && StatusTells(h, d) && (Guard(op, d) <==> Accepted(h, op))
  {
    TellsAlways(start, steps);
    TellsAcceptance(start, Effective(start, steps), Play(start, steps), op);
  }

  // ---------------------------------------------------------------- rows of a run

  predicate IsOn(e: Event, id: Uuid) {
    e.Update? && e.id == id
  }

  /** The steps of a run that were tried on a row. */
  function StepsOn(events: seq<Event>, id: Uuid): seq<Step> {
    if events == [] then []
    else
      var e := events[|events| - 1];
      StepsOn(events[..|events| - 1], id) + (if IsOn(e, id) then [Step(e.op, e.now)] else [])
  }

  lemma PlayAppend(d: Deployment, events: seq<Event>, e: Event, id: Uuid)
    ensures Play(d, StepsOn(events + [e], id)) ==
            if IsOn(e, id) then Next(Play(d, StepsOn(events, id)), Step(e.op, e.now)) else Play(d, StepsOn(events, id))
  {
    assert (events + [e])[..|events|] == events;
    var steps := StepsOn(events, id);
    assert steps + [] == steps;
    if IsOn(e, id) {
      assert (steps + [Step(e.op, e.now)])[..|steps|] == steps;
    }
  }

  lemma RowMoves(rows: Rows, e: Event, id: Uuid)
    requires id in rows
    ensures id in Apply(rows, e)
    ensures Apply(rows, e)[id] == if IsOn(e, id) then Next(rows[id], Step(e.op, e.now)) else rows[id]
  {
  }

  /** So a row of any run is what the steps tried on it since it was there tell. */
  lemma {:induction false} RowsPlay(trace: seq<Rows>, events: seq<Event>, m: nat, n: nat, id: Uuid)
    requires IsRun(trace, events) && m <= n <= |events| && id in trace[m]
    ensures id in trace[n] && trace[n][id] == Play(trace[m][id], StepsOn(events[m..n], id))
    decreases n
  {
    if m < n {
      RowsPlay(trace, events, m, n - 1, id);
      assert events[n - 1] == events[n - 1];
      RowMoves(trace[n - 1], events[n - 1], id);
      assert events[m..n] == events[m..n - 1] + [events[n - 1]];
      PlayAppend(trace[m][id], events[m..n - 1], events[n - 1], id);
    }
  }
}
