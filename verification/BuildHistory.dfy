/** What a build is, told by the steps that took effect on it. */
module BuildHistory {
  import opened Common
  import opened Text
  import opened Histories
  import opened Builds

  datatype Step = Step(op: Operation, now: Time)

  function Next(b: Build, s: Step): Build {
    if Guard(s.op, b) then Effect(s.op, b, s.now) else b
  }

  /** The row after some steps were tried on it. */
  function Play(b: Build, steps: seq<Step>): Build {
    if steps == [] then b else Next(Play(b, steps[..|steps| - 1]), steps[|steps| - 1])
  }

  /** The steps that took effect. */
  function Effective(b: Build, steps: seq<Step>): seq<Step> {
    if steps == [] then []
    else
      var before, s := steps[..|steps| - 1], steps[|steps| - 1];
      Effective(b, before) + (if Guard(s.op, Play(b, before)) then [s] else [])
  }

  predicate IsReset(s: Step) { s.op.ResetForRetry? }

  predicate Starts(s: Step) { s.op.MarkRunning? }

  predicate Ends(s: Step) { s.op.Finishes() }

  predicate Succeeds(s: Step) { s.op.MarkSucceeded? }

  /** All but progress. */
  predicate Decides(s: Step) { !s.op.MarkProgress? }

  predicate IsAny(s: Step) { true }

  /** The steps of the current attempt. */
  function Attempt(h: seq<Step>): seq<Step> {
    Since(h, IsReset)
  }

  function TimeOf(s: Option<Step>): Option<Time> {
    if s.Some? then Some(s.value.now) else None
  }

  function ErrorAfter(last: Option<Step>): Option<string> {
    match last
    case Some(Step(MarkFailed(message), _)) => Some(message)
    case Some(Step(MarkCancelled, _)) => Some("Build cancelled by user")
    case _ => None
  }

  function ArtifactAfter(last: Option<Step>): Option<string> {
    match last
    case Some(Step(MarkSucceeded(reference, _), _)) => Some(reference)
    case _ => None
  }

  function DigestAfter(last: Option<Step>): seq<int> {
    match last
    case Some(Step(MarkSucceeded(_, digest), _)) => digest
    case _ => []
  }

  function StepAfter(start: Build, last: Option<Step>): Option<string> {
    match last
    case None => start.step
    case Some(Step(MarkProgress(step), _)) => Some(TrimSpace(step))
    case Some(Step(MarkRunning, _)) => Some("starting")
    case Some(Step(MarkSucceeded(_, _), _)) => Some("completed")
    case Some(Step(MarkFailed(_), _)) => Some("failed")
    case Some(Step(MarkCancelled, _)) => Some("cancelled")
    case Some(Step(ResetForRetry, _)) => Some("queued")
  }

  /** Every column, by the steps of the current attempt. */
  ghost predicate ColumnsTell(start: Build, h: seq<Step>, b: Build) {
    var attempt := Attempt(h);
    && b.startedAt == TimeOf(First(attempt, Starts))
    && b.finishedAt == TimeOf(Last(attempt, Ends))
    && b.artifact == ArtifactAfter(Last(attempt, Succeeds))
    && b.digest == DigestAfter(Last(attempt, Succeeds))
    && b.error == ErrorAfter(Last(attempt, Decides))
    && b.step == StepAfter(start, Last(h, IsAny))
  }

  ghost predicate StatusTells(h: seq<Step>, b: Build) {
    var last := Last(Attempt(h), Decides);
    && (b.status == Pending <==> last == None)
    && (b.status == Running <==> last.Some? && last.value.op.MarkRunning?)
    && (b.status == Succeeded <==> last.Some? && last.value.op.MarkSucceeded?)
    && (b.status == Failed <==> last.Some? && last.value.op.MarkFailed?)
    && (b.status == Cancelled <==> last.Some? && last.value.op.MarkCancelled?)
  }

  /** An attempt is a start at most, progress, and one end at most, which comes last. */
  ghost predicate AttemptIsOrderly(h: seq<Step>) {
    var attempt := Attempt(h);
    && (Has(attempt, Ends) ==> Last(attempt, Decides) == Last(attempt, Ends))
    && (Has(attempt, Succeeds) <==> Last(attempt, Decides).Some? && Last(attempt, Decides).value.op.MarkSucceeded?)
    && (Has(attempt, Ends) <==> Last(attempt, Decides).Some? && Last(attempt, Decides).value.op.Finishes())
    && (Last(attempt, Decides).Some? ==> !IsReset(Last(attempt, Decides).value))
    && (Has(attempt, Starts) ==> Last(attempt, Decides).Some?)
    && (Last(attempt, Decides).Some? && Starts(Last(attempt, Decides).value) ==> Has(attempt, Starts))
  }

  ghost predicate Tells(start: Build, h: seq<Step>, b: Build) {
    ColumnsTell(start, h, b) && StatusTells(h, b) && AttemptIsOrderly(h)
  }

  predicate Ended(h: seq<Step>) {
    Has(Attempt(h), Ends)
  }

  /** Running: started in this attempt and not ended. */
  predicate IsOpen(h: seq<Step>) {
    Has(Attempt(h), Starts) && !Ended(h)
  }

  /** Whether a step is accepted after a history. */
  predicate Accepted(h: seq<Step>, op: Operation) {
    match op
    case MarkRunning => !Ended(h)
    case MarkProgress(step) => IsOpen(h) && TrimSpace(step) != ""
    case MarkSucceeded(reference, digest) =>
      IsOpen(h) && |digest| == 32 && exists i :: 0 <= i <= |reference| && "@sha256:" <= reference[i..]
    case MarkFailed(_) => !Ended(h)
    case MarkCancelled => !Ended(h)
    case ResetForRetry => Ended(h) && !Has(Attempt(h), Succeeds)
  }

  lemma TellsAcceptance(start: Build, h: seq<Step>, b: Build, op: Operation)
    requires Tells(start, h, b)
    ensures Guard(op, b) <==> Accepted(h, op)
  {
    var last := Last(Attempt(h), Decides);
    LastIs(Attempt(h), Decides);
    assert last.Some? && last.value.op.MarkRunning? ==> Starts(last.value);
  }

  lemma AppendAttempt(h: seq<Step>, s: Step)
    ensures Attempt(h + [s]) == if IsReset(s) then [] else Attempt(h) + [s]
    ensures Last(h + [s], IsAny) == Some(s)
    ensures !IsReset(s) ==>
              && First(Attempt(h) + [s], Starts) == (if First(Attempt(h), Starts).Some? then First(Attempt(h), Starts)
                                                     else if Starts(s) then Some(s) else None)
              && Last(Attempt(h) + [s], Starts) == (if Starts(s) then Some(s) else Last(Attempt(h), Starts))
              && Last(Attempt(h) + [s], Ends) == (if Ends(s) then Some(s) else Last(Attempt(h), Ends))
              && Last(Attempt(h) + [s], Succeeds) == (if Succeeds(s) then Some(s) else Last(Attempt(h), Succeeds))
              && Last(Attempt(h) + [s], Decides) == (if Decides(s) then Some(s) else Last(Attempt(h), Decides))
  {
    Append(h, s, IsReset);
    Append(h, s, IsAny);
    Append(Attempt(h), s, Starts);
    Append(Attempt(h), s, Ends);
    Append(Attempt(h), s, Succeeds);
    Append(Attempt(h), s, Decides);
  }

  lemma TellsStep(start: Build, h: seq<Step>, b: Build, s: Step)
    requires Tells(start, h, b) && Guard(s.op, b)
    ensures Tells(start, h + [s], Effect(s.op, b, s.now))
  {
    AppendAttempt(h, s);
  }

  ghost predicate IsNew(b: Build) {
    b == Build(Pending, b.step, None, [], None, None, None)
  }

  lemma {:induction false} TellsAlways(start: Build, steps: seq<Step>)
    requires IsNew(start)
    ensures Tells(start, Effective(start, steps), Play(start, steps))
    decreases steps
  {
    if steps != [] {
      var before, s := steps[..|steps| - 1], steps[|steps| - 1];
      TellsAlways(start, before);
      var h := Effective(start, before);
      if Guard(s.op, Play(start, before)) {
        TellsStep(start, h, Play(start, before), s);
      } else {
        assert h + [] == h;
      }
    }
  }

  /**
   Whatever a worker and a user try on a new build, in any order: the steps that took effect
   tell every column of the row, its status, and which step is accepted next.
   */
  lemma HistoryTells(start: Build, steps: seq<Step>, op: Operation)
    requires IsNew(start)
    ensures var h, b := Effective(start, steps), Play(start, steps);
            ColumnsTell(start, h, b) && StatusTells(h, b) && (Guard(op, b) <==> Accepted(h, op))
  {
    TellsAlways(start, steps);
    TellsAcceptance(start, Effective(start, steps), Play(start, steps), op);
  }

  // ---------------------------------------------------------------- rows of a run

  /** The steps of a run that were tried on a row. */
  function StepsOn(events: seq<Event>, id: Uuid): seq<Step> {
    if events == [] then []
    else
      var e := events[|events| - 1];
      StepsOn(events[..|events| - 1], id) + (if e.id == id then [Step(e.op, e.now)] else [])
  }

  lemma PlayAppend(b: Build, events: seq<Event>, e: Event, id: Uuid)
    ensures Play(b, StepsOn(events + [e], id)) ==
            if e.id == id then Next(Play(b, StepsOn(events, id)), Step(e.op, e.now)) else Play(b, StepsOn(events, id))
  {
    assert (events + [e])[..|events|] == events;
    var steps := StepsOn(events, id);
    assert (steps + [Step(e.op, e.now)])[..|steps|] == steps && steps + [] == steps;
  }

  /** So a row of any run is what the steps tried on it since it was there tell. */
  lemma {:induction false} RowsPlay(trace: seq<Rows>, events: seq<Event>, m: nat, n: nat, id: Uuid)
    requires IsRun(trace, events) && m <= n <= |events| && id in trace[m]
    ensures id in trace[n] && trace[n][id] == Play(trace[m][id], StepsOn(events[m..n], id))
    decreases n
  {
    if m < n {
      RowsPlay(trace, events, m, n - 1, id);
      RowMoves(trace, events, n - 1, id);
      assert events[m..n] == events[m..n - 1] + [events[n - 1]];
      PlayAppend(trace[m][id], events[m..n - 1], events[n - 1], id);
    }
  }
}
