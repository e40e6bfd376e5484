/** What a DNS binding is, told by the requests and reports that took effect on it. */
module BindingHistory {
  import opened Common
  import opened Histories
  import opened DnsBindings
  import BindingRuns

  datatype Step = Step(op: Operation, now: Time)

  function Next(b: Binding, s: Step): Binding {
    if Guard(s.op, b) then Effect(s.op, b, s.now) else b
  }

  /** The row after some steps were tried on it. */
  function Play(b: Binding, steps: seq<Step>): Binding {
    if steps == [] then b else Next(Play(b, steps[..|steps| - 1]), steps[|steps| - 1])
  }

  /** The steps that took effect. */
  function Effective(b: Binding, steps: seq<Step>): seq<Step> {
    if steps == [] then []
    else
      var before, s := steps[..|steps| - 1], steps[|steps| - 1];
      Effective(b, before) + (if Guard(s.op, Play(b, before)) then [s] else [])
  }

  // ---------------------------------------------------------------- kinds of steps

  predicate IsReconfigure(s: Step) { s.op.Reconfigure? }

  predicate IsArchive(s: Step) { s.op.ArchiveGeneration? }

  predicate IsApplied(s: Step) { s.op.MarkApplied? }

  /** Requests to take the records away. */
  predicate IsRemoval(s: Step) { s.op.MarkRemoving? || s.op.RetryRemoval? }

  /** Requests that open a generation: all but those for a deployment alone. */
  predicate Opens(s: Step) {
    s.op.ByUser() && !s.op.PrepareDeployment?
  }

  predicate Adopts(s: Step) { s.op.ConfirmAdoption? || s.op.Reconfigure? }

  predicate Applies(s: Step) { s.op.MarkApplied? || s.op.Reconfigure? || s.op.Refresh? }

  predicate Asks(s: Step) { s.op.Reconfigure? || s.op.MarkRemoving? || s.op.PrepareDeployment? }

  predicate Dispatches(s: Step) { Asks(s) || s.op.MarkDeploymentDispatched? }

  /** Steps that say how far the work on a generation is. */
  predicate Moves(s: Step) {
    Opens(s) || s.op.MarkReconciling? || s.op.MarkApplied? || s.op.MarkState?
  }

  predicate Reports(s: Step) { Moves(s) || s.op.ArchiveGeneration? }

  // ---------------------------------------------------------------- columns

  function TimeIf(s: Option<Step>, p: Step -> bool): Option<Time> {
    if s.Some? && p(s.value) then Some(s.value.now) else None
  }

  function ZoneAfter(start: Binding, last: Option<Step>): Uuid {
    match last
    case Some(Step(Reconfigure(zone, _, _), _)) => zone
    case _ => start.zone
  }

  function AppliedAfter(last: Option<Step>): int {
    match last
    case Some(Step(MarkApplied(generation), _)) => generation
    case _ => 0
  }

  function RequestAfter(start: Binding, last: Option<Step>): Request {
    match last
    case Some(Step(Reconfigure(_, deploy, actor), _)) => Request(deploy, actor, "user", "")
    case Some(Step(MarkRemoving(deploy, actor), _)) => Request(deploy, actor, "user", "")
    case Some(Step(PrepareDeployment(actor, trigger, reference), _)) => Request(true, actor, trigger, reference)
    case _ => start.request
  }

  function ErrorAfter(last: Option<Step>): Option<string> {
    match last
    case Some(Step(MarkState(_, _, message), _)) => if message == "" then None else Some(message)
    case _ => None
  }

  function StateAfter(last: Option<Step>): State {
    match last
    case Some(Step(MarkState(_, state, _), _)) => state
    case Some(Step(MarkReconciling(_), _)) => Reconciling
    case Some(Step(MarkApplied(_), _)) => Applied
    case Some(s) => if IsRemoval(s) then Removing else Pending
    case None => Pending
  }

  predicate IsConfirm(s: Step) { s.op.ConfirmAdoption? }

  predicate IsDispatch(s: Step) { s.op.MarkDeploymentDispatched? }

  /** Every column, by the steps that concern it. */
  ghost predicate Tells(start: Binding, h: seq<Step>, b: Binding) {
    && b.domain == start.domain
    && b.zone == ZoneAfter(start, Last(h, IsReconfigure))
    && b.generation == 1 + Count(h, Opens)
    && b.appliedGeneration == AppliedAfter(Last(h, IsApplied))
    && b.adoptionConfirmedAt == TimeIf(Last(h, Adopts), IsConfirm)
    && b.appliedAt == TimeIf(Last(h, Applies), IsApplied)
    && b.archivedAt == TimeIf(Last(h, IsArchive), IsArchive)
    && b.request == RequestAfter(start, Last(h, Asks))
    && b.dispatchedAt == TimeIf(Last(h, Dispatches), IsDispatch)
    && b.lastError == ErrorAfter(Last(h, Reports))
    && b.state == StateAfter(Last(h, Moves))
  }

  // ---------------------------------------------------------------- acceptance

  /** A worker is at it: the last word on the generation is that work has begun. */
  predicate Busy(last: Option<Step>) {
    match last
    case Some(Step(MarkReconciling(_), _)) => true
    case Some(Step(MarkState(_, state, _), _)) => state == Reconciling
    case _ => false
  }

  /** The last word is that it went wrong. */
  predicate WentWrong(last: Option<Step>) {
    match last
    case Some(Step(MarkState(_, state, _), _)) => state in {Conflict, State.Failed, RemovalFailed}
    case _ => false
  }

  /** There is work that a worker may take up, or go on with, or try again. */
  predicate MayBegin(last: Option<Step>) {
    match last
    case None => true
    case Some(Step(MarkReconciling(_), _)) => true
    case Some(Step(MarkApplied(_), _)) => false
    case Some(Step(MarkState(_, state, _), _)) => state !in {Applied, Removing, RemovalFailed}
    case Some(s) => !IsRemoval(s)
  }

  /** Requests that would pull the ground from under a worker. */
  predicate Disturbs(op: Operation) {
    op.Reconfigure? || op.MarkRemoving? || op.Refresh?
  }

  /** Whether a step is accepted after a history. */
  predicate Accepted(h: seq<Step>, op: Operation) {
    var last, generation := Last(h, Moves), 1 + Count(h, Opens);
    if op.ByUser() then
      !Has(h, IsArchive) && !(Disturbs(op) && Busy(last)) && !(op.PrepareDeployment? && WentWrong(last))
    else
      && op.generation == generation
      && (op.MarkReconciling? ==> MayBegin(last))
      && (op.MarkDeploymentDispatched? ==> TimeIf(Last(h, Dispatches), IsDispatch).None?)
  }

  lemma TellsAcceptance(start: Binding, h: seq<Step>, b: Binding, op: Operation)
    requires Tells(start, h, b)
    ensures Guard(op, b) <==> Accepted(h, op)
  {
    LastIs(h, IsArchive);
    LastIs(h, Moves);
  }

  lemma AppendAll(h: seq<Step>, s: Step)
    ensures Last(h + [s], IsReconfigure) == if IsReconfigure(s) then Some(s) else Last(h, IsReconfigure)
    ensures Last(h + [s], IsApplied) == if IsApplied(s) then Some(s) else Last(h, IsApplied)
    ensures Last(h + [s], Adopts) == if Adopts(s) then Some(s) else Last(h, Adopts)
    ensures Last(h + [s], Applies) == if Applies(s) then Some(s) else Last(h, Applies)
    ensures Last(h + [s], IsArchive) == if IsArchive(s) then Some(s) else Last(h, IsArchive)
    ensures Last(h + [s], Asks) == if Asks(s) then Some(s) else Last(h, Asks)
    ensures Last(h + [s], Dispatches) == if Dispatches(s) then Some(s) else Last(h, Dispatches)
    ensures Last(h + [s], Reports) == if Reports(s) then Some(s) else Last(h, Reports)
    ensures Last(h + [s], Moves) == if Moves(s) then Some(s) else Last(h, Moves)
    ensures Count(h + [s], Opens) == Count(h, Opens) + (if Opens(s) then 1 else 0)
  {
    Append(h, s, IsReconfigure);
    Append(h, s, IsApplied);
    Append(h, s, Adopts);
    Append(h, s, Applies);
    Append(h, s, IsArchive);
    Append(h, s, Asks);
    Append(h, s, Dispatches);
    Append(h, s, Reports);
    Append(h, s, Moves);
    Append(h, s, Opens);
  }

  lemma TellsStep(start: Binding, h: seq<Step>, b: Binding, s: Step)
    requires Tells(start, h, b) && Guard(s.op, b)
    ensures Tells(start, h + [s], Effect(s.op, b, s.now))
  {
    AppendAll(h, s);
  }

  /** A binding as it is created: pending, at generation 1, nothing applied, with the user's deployment request. */
  ghost predicate IsNew(b: Binding) {
    && b.state == Pending && b.generation == 1 && b.appliedGeneration == 0
    && b.adoptionConfirmedAt == b.appliedAt == b.archivedAt == b.dispatchedAt == None && b.lastError == None
    && b.request.trigger == "user" && b.request.reference == ""
  }

  lemma NewIsGiven(domain: Uuid, zone: Uuid, deploy: bool, actor: Option<Uuid>)
    ensures var b := NewBinding(domain, zone, deploy, actor);
            IsNew(b) && b.domain == domain && b.zone == zone && b.request.deploy == deploy && b.request.actor == actor
  {
  }

  /** No domain has two bindings that are not archived. */
  ghost predicate DomainsUnique(rows: Rows) {
    forall a, b | a in rows && b in rows && rows[a].domain == rows[b].domain ::
      rows[a].archivedAt.None? && rows[b].archivedAt.None? ==> a == b
  }

  /** A new binding is refused exactly if its identifier is taken or its domain would have two. */
  lemma RefusedExactly(rows: Rows, id: Uuid, b: Binding)
    requires DomainsUnique(rows) && b.archivedAt.None?
    ensures Inserted(rows, id, b) == if id !in rows && DomainsUnique(rows[id := b]) then rows[id := b] else rows
  {
    if id !in rows {
      var rows' := rows[id := b];
      if DomainBound(rows, b.domain) {
        var o :| o in rows && rows[o].domain == b.domain && rows[o].archivedAt.None?;
        assert rows'[o] == rows[o] && rows'[id] == b && o != id;
        assert !DomainsUnique(rows');
      } else {
        assert DomainsUnique(rows');
      }
    }
  }

  /**
   Whatever users and workers try on a new binding, in any order: the steps that took effect
   tell every column of the row.
   */
  lemma {:induction false} HistoryTells(start: Binding, steps: seq<Step>)
    requires IsNew(start)
    ensures Tells(start, Effective(start, steps), Play(start, steps))
    decreases steps
  {
    if steps != [] {
      var before, s := steps[..|steps| - 1], steps[|steps| - 1];
      HistoryTells(start, before);
      var h := Effective(start, before);
      if Guard(s.op, Play(start, before)) {
        TellsStep(start, h, Play(start, before), s);
      } else {
        assert h + [] == h;
      }
    }
  }

  /** They also tell exactly which step is accepted next. */
  lemma AcceptedByHistory(start: Binding, steps: seq<Step>, op: Operation)
    requires IsNew(start)
    ensures Guard(op, Play(start, steps)) <==> Accepted(Effective(start, steps), op)
  {
    HistoryTells(start, steps);
    TellsAcceptance(start, Effective(start, steps), Play(start, steps), op);
  }

  // ---------------------------------------------------------------- what follows

  /** Right after a request that opens a generation, a worker may take it up exactly if it is not a removal. */
  lemma TakenUpExactly(b: Binding, op: Operation, now: Time)
    requires Guard(op, b) && Opens(Step(op, now))
    ensures var after := Effect(op, b, now);
            Guard(MarkReconciling(after.generation), after) <==> !(op.MarkRemoving? || op.RetryRemoval?)
  {
  }

  /** A binding is being removed only if the request that opened its generation asked for it, or a report said so. */
  lemma RemovingWasAsked(start: Binding, steps: seq<Step>)
    requires IsNew(start)
    requires Play(start, steps).state == Removing
    ensures var h := Effective(start, steps);
            && Last(h, Moves).Some?
            && (IsRemoval(Last(h, Moves).value) || Last(h, Moves).value.op.MarkState?)
            && (IsRemoval(Last(h, Moves).value) ==> Last(h, Opens) == Last(h, Moves))
  {
    HistoryTells(start, steps);
    LastOpening(Effective(start, steps));
  }

  lemma {:induction false} LastOpening(h: seq<Step>)
    ensures Last(h, Moves).Some? && Opens(Last(h, Moves).value) ==> Last(h, Opens) == Last(h, Moves)
    decreases h
  {
    if h != [] {
      LastOpening(h[..|h| - 1]);
    }
  }

  // ---------------------------------------------------------------- rows of a run

  /** The step that an event tries on a row. */
  function StepOn(s: BindingRuns.System, e: BindingRuns.Event, id: Uuid): Option<Step> {
    match e
    case User(i, op, now) => if i == id then Some(Step(op, now)) else None
    case Report(w, op, now) => if w in s.scopes && s.scopes[w].id == id then Some(Step(op, now)) else None
    case _ => None
  }

  /** The steps that a run tries on a row in events `m` to `n`. */
  ghost function StepsOn(trace: seq<BindingRuns.System>, events: seq<BindingRuns.Event>, m: nat, n: nat, id: Uuid)
    : seq<Step>
    requires |trace| == |events| + 1 && m <= n <= |events|
    decreases n
  {
    if m == n then []
    else
      var s := StepOn(trace[n - 1], events[n - 1], id);
      StepsOn(trace, events, m, n - 1, id) + (if s.Some? then [s.value] else [])
  }

  lemma RowMoves(s: BindingRuns.System, e: BindingRuns.Event, id: Uuid)
    requires BindingRuns.Enabled(s, e) && id in s.rows
    ensures id in BindingRuns.Apply(s, e).rows
    ensures BindingRuns.Apply(s, e).rows[id] ==
            if StepOn(s, e, id).Some? then Next(s.rows[id], StepOn(s, e, id).value) else s.rows[id]
  {
  }

  lemma PlayAppend(b: Binding, steps: seq<Step>, s: Option<Step>)
    ensures Play(b, steps + (if s.Some? then [s.value] else [])) ==
            if s.Some? then Next(Play(b, steps), s.value) else Play(b, steps)
  {
    if s.Some? {
      assert (steps + [s.value])[..|steps|] == steps;
    } else {
      assert steps + [] == steps;
    }
  }

  /** So a row of any run is what the steps tried on it since it was there tell. */
  lemma {:induction false} RowsPlay(trace: seq<BindingRuns.System>, events: seq<BindingRuns.Event>, m: nat, n: nat,
                                    id: Uuid)
    requires BindingRuns.IsRun(trace, events) && m <= n <= |events| && id in trace[m].rows
    ensures id in trace[n].rows
    ensures trace[n].rows[id] == Play(trace[m].rows[id], StepsOn(trace, events, m, n, id))
    decreases n
  {
    if m < n {
      RowsPlay(trace, events, m, n - 1, id);
      assert BindingRuns.Step(trace[n - 1], events[n - 1], trace[n]);
      RowMoves(trace[n - 1], events[n - 1], id);
      PlayAppend(trace[m].rows[id], StepsOn(trace, events, m, n - 1, id), StepOn(trace[n - 1], events[n - 1], id));
    }
  }
}
