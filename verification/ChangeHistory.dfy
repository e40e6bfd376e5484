/** What a change is, told by the steps that took effect on it. */
module ChangeHistory {
  import opened Common
  import opened Histories
  import opened Changes

  datatype Step = Step(op: Operation, now: Time)

  function Next(c: Change, s: Step): Change {
    if Guard(s.op, c) then Effect(s.op, c, s.now) else c
  }

  /** The row after some steps were tried on it. */
  function Play(c: Change, steps: seq<Step>): Change {
    if steps == [] then c else Next(Play(c, steps[..|steps| - 1]), steps[|steps| - 1])
  }

  /** The steps that took effect. */
  function Effective(c: Change, steps: seq<Step>): seq<Step> {
    if steps == [] then []
    else
      var before, s := steps[..|steps| - 1], steps[|steps| - 1];
      Effective(c, before) + (if Guard(s.op, Play(c, before)) then [s] else [])
  }

  predicate Starts(s: Step) { s.op.MarkRunning? }

  predicate IsAny(s: Step) { true }

  /** Only a cancellation in progress leaves the finish time alone. */
  predicate Settles(s: Step) { !s.op.MarkCancelling? }

  predicate Cancels(s: Step) { s.op.MarkCancelled? || s.op.MarkBuildCancelled? || s.op.ResetBuildForRetry? }

  /** A retry, and a cancelled build of a setup change, put the change back to where it began. */
  predicate Returns(setup: bool, s: Step) {
    s.op.ResetBuildForRetry? || (setup && s.op.MarkBuildCancelled?)
  }

  function Returning(setup: bool): Step -> bool {
    (s: Step) => Returns(setup, s)
  }

  function TimeOf(s: Option<Step>): Option<Time> {
    if s.Some? then Some(s.value.now) else None
  }

  /** The time of a step, unless it is one that clears. */
  function TimeUnless(s: Option<Step>, clears: bool): Option<Time> {
    if s.Some? && !clears then Some(s.value.now) else None
  }

  function ErrorAfter(setup: bool, last: Option<Step>): Option<string> {
    match last
    case Some(Step(MarkFailed(message), _)) => Some(message)
    case Some(Step(MarkCancelling(reason), _)) => Some(reason)
    case Some(Step(MarkCancelled(reason), _)) => Some(reason)
    case Some(Step(MarkBuildCancelled, _)) => if setup then None else Some("Build cancelled by user")
    case _ => None
  }

  function StatusAfter(setup: bool, last: Option<Step>): Status {
    match last
    case None => Committed
    case Some(Step(MarkRunning, _)) => Running
    case Some(Step(MarkCompleted, _)) => Completed
    case Some(Step(MarkFailed(_), _)) => Failed
    case Some(Step(MarkCancelling(_), _)) => Cancelling
    case Some(Step(MarkCancelled(_), _)) => Cancelled
    case Some(s) => if Returns(setup, s) then Committed else Cancelled
  }

  ghost predicate Tells(start: Change, h: seq<Step>, c: Change) {
    var setup := start.kind == EnvironmentSetup;
    var settled, cancelled := Last(h, Settles), Last(h, Cancels);
    && c.kind == start.kind && c.environment == start.environment && c.committedAt == start.committedAt
    && c.startedAt == TimeOf(First(Since(h, Returning(setup)), Starts))
    && c.finishedAt == TimeUnless(settled, settled.Some? && (Starts(settled.value) || Returns(setup, settled.value)))
    && c.cancelledAt == TimeUnless(cancelled, cancelled.Some? && Returns(setup, cancelled.value))
    && c.error == ErrorAfter(setup, Last(h, IsAny))
    && c.status == StatusAfter(setup, Last(h, IsAny))
  }

  /** Whether a step is accepted after a history. */
  predicate Accepted(setup: bool, h: seq<Step>, op: Operation) {
    var last := Last(h, IsAny);
    match op
    case MarkCancelling(_) =>
      last.None? || Starts(last.value) || last.value.op.MarkCancelling? || Returns(setup, last.value)
    case MarkCancelled(_) => last.Some? && last.value.op.MarkCancelling?
    case _ => true
  }

  lemma AppendAll(setup: bool, h: seq<Step>, s: Step)
    ensures Last(h + [s], IsAny) == Some(s)
    ensures Last(h + [s], Settles) == if Settles(s) then Some(s) else Last(h, Settles)
    ensures Last(h + [s], Cancels) == if Cancels(s) then Some(s) else Last(h, Cancels)
    ensures Returns(setup, s) ==> First(Since(h + [s], Returning(setup)), Starts) == None
    ensures !Returns(setup, s) ==>
              var before := First(Since(h, Returning(setup)), Starts);
              First(Since(h + [s], Returning(setup)), Starts) ==
              if before.Some? then before else if Starts(s) then Some(s) else None
  {
    Append(h, s, IsAny);
    Append(h, s, Settles);
    Append(h, s, Cancels);
    Append(h, s, Returning(setup));
    Append(Since(h, Returning(setup)), s, Starts);
  }

  lemma TellsStep(start: Change, h: seq<Step>, c: Change, s: Step)
    requires Tells(start, h, c) && Guard(s.op, c)
    ensures Tells(start, h + [s], Effect(s.op, c, s.now))
  {
    AppendAll(start.kind == EnvironmentSetup, h, s);
  }

  ghost predicate IsNew(c: Change) {
    c == Change(c.kind, c.environment, Committed, c.committedAt, None, None, None, None)
  }

  lemma {:induction false} TellsAlways(start: Change, steps: seq<Step>)
    requires IsNew(start)
    ensures Tells(start, Effective(start, steps), Play(start, steps))
    decreases steps
  {
    if steps != [] {
      var before, s := steps[..|steps| - 1], steps[|steps| - 1];
      TellsAlways(start, before);
      var h := Effective(start, before);
      if Guard(s.op, Play(start, before)) {
        TellsStep(start, h, Play(start, before), s);
      } else {
        assert h + [] == h;
      }
    }
  }

  lemma TellsAcceptance(start: Change, h: seq<Step>, c: Change, op: Operation)
    requires Tells(start, h, c)
    ensures Guard(op, c) <==> Accepted(start.kind == EnvironmentSetup, h, op)
  {
    var setup, last := start.kind == EnvironmentSetup, Last(h, IsAny);
    assert c.status == StatusAfter(setup, last);
    StatusAccepts(setup, last, c, op);
  }

  lemma StatusAccepts(setup: bool, last: Option<Step>, c: Change, op: Operation)
    requires c.status == StatusAfter(setup, last)
    ensures op.MarkCancelling? ==>
              (Guard(op, c) <==> last.None? || Starts(last.value) || last.value.op.MarkCancelling? ||
                                 Returns(setup, last.value))
    ensures op.MarkCancelled? ==> (Guard(op, c) <==> last.Some? && last.value.op.MarkCancelling?)
    ensures !op.MarkCancelling? && !op.MarkCancelled? ==> Guard(op, c)
  {
  }

  /**
   Whatever is tried on a committed change, in any order: the steps that took effect tell
   every column of the row, its status included, and which step is accepted next.
   */
  lemma HistoryTells(start: Change, steps: seq<Step>, op: Operation)
    requires IsNew(start)
    ensures var h, c := Effective(start, steps), Play(start, steps);
            Tells(start, h, c) && (Guard(op, c) <==> Accepted(start.kind == EnvironmentSetup, h, op))
  {
    TellsAlways(start, steps);
    TellsAcceptance(start, Effective(start, steps), Play(start, steps), op);
  }

  /** A setup change counts from its commit on, unless the last word on cancelling it is that it was cancelled. */
  lemma SetupByHistory(start: Change, steps: seq<Step>, environment: Uuid)
    requires IsNew(start)
    ensures var last := Last(Effective(start, steps), Cancels);
            IsSetup(Play(start, steps), environment) <==>
            && start.kind == EnvironmentSetup && start.environment == environment && start.committedAt.Some?
            && (last.Some? ==> !last.value.op.MarkCancelled?)
  {
    TellsAlways(start, steps);
    LastIs(Effective(start, steps), Cancels);
  }
}
