/** Runs of the DNS binding protocol: any interleaving of users and any number of workers. */
module BindingRuns {
  import opened Common
  import opened DnsBindings

  /** `scopes[w]` is what worker `w` read last; it may have been overtaken since. */
  datatype System = System(rows: Rows, scopes: map<nat, Scope>)

  const EMPTY := System(map[], map[])

  datatype Event =
    | Create(id: Uuid, domain: Uuid, zone: Uuid, deploy: bool, actor: Option<Uuid>)
    | User(id: Uuid, op: Operation, now: Time)
    | Read(worker: nat, id: Uuid)
    | Report(worker: nat, op: Operation, now: Time)

  /** A worker reports only under the generation it read. */
  predicate Enabled(s: System, e: Event) {
    match e
    case Create(_, _, _, _, _) => true
    case User(_, op, _) => op.ByUser()
    case Read(_, id) => id in s.rows && s.rows[id].archivedAt.None?
    case Report(w, op, _) => w in s.scopes && !op.ByUser() && op.generation == s.scopes[w].generation
  }

  function Apply(s: System, e: Event): System
    requires Enabled(s, e)
  {
    match e
    case Create(id, domain, zone, deploy, actor) =>
      s.(rows := Inserted(s.rows, id, NewBinding(domain, zone, deploy, actor)))
    case User(id, op, now) => s.(rows := Updated(s.rows, id, op, now))
    case Read(w, id) => s.(scopes := s.scopes[w := ScopeOf(id, s.rows[id])])
    case Report(w, op, now) => s.(rows := Updated(s.rows, s.scopes[w].id, op, now))
  }

  ghost predicate Step(s: System, e: Event, s': System) {
    Enabled(s, e) && s' == Apply(s, e)
  }

  /** `trace[n]` is the state after the first `n` events. */
  ghost predicate IsRun(trace: seq<System>, events: seq<Event>) {
    && |trace| == |events| + 1
    && trace[0] == EMPTY
    && forall n {:trigger events[n]} :: 0 <= n < |events| ==> Step(trace[n], events[n], trace[n + 1])
  }

  /** Event `e` is a request on binding `id` that takes effect in `s`. */
  predicate AcceptedRequest(s: System, e: Event, id: Uuid) {
    e.User? && e.id == id && Accepts(s.rows, id, e.op)
  }

  // ---------------------------------------------------------------- one row over a run

  predicate Coherent(b: Binding) {
    1 <= b.generation && 0 <= b.appliedGeneration <= b.generation
  }

  /** What later operations may still change in a row. */
  ghost predicate Later(b: Binding, b': Binding) {
    && b'.domain == b.domain
    && b.generation <= b'.generation
    && b.appliedGeneration <= b'.appliedGeneration
    && (b'.generation == b.generation ==> b'.zone == b.zone && b'.adoptionConfirmedAt == b.adoptionConfirmedAt)
    && (b.archivedAt.Some? ==> b'.archivedAt.Some? && b'.generation == b.generation)
  }

  ghost predicate RowsLater(rows: Rows, rows': Rows) {
    forall id :: id in rows ==> id in rows' && Later(rows[id], rows'[id])
  }

  ghost predicate RowsInv(rows: Rows) {
    && (forall id :: id in rows ==> Coherent(rows[id]))
    && (forall a, b | a in rows && b in rows && rows[a].domain == rows[b].domain ::
          rows[a].archivedAt.None? && rows[b].archivedAt.None? ==> a == b)
  }

  /** A scope is never ahead of its row, and agrees with it while the generation stands. */
  ghost predicate ScopeInv(rows: Rows, scope: Scope) {
    && scope.id in rows
    && scope.generation <= rows[scope.id].generation
    && (scope.generation == rows[scope.id].generation ==>
          scope.zone == rows[scope.id].zone && scope.adoptionConfirmedAt == rows[scope.id].adoptionConfirmedAt)
  }

  ghost predicate Inv(s: System) {
    RowsInv(s.rows) && forall w :: w in s.scopes ==> ScopeInv(s.rows, s.scopes[w])
  }

  lemma RowStep(op: Operation, b: Binding, now: Time)
    requires Coherent(b) && Guard(op, b)
    ensures Coherent(Effect(op, b, now)) && Later(b, Effect(op, b, now))
    ensures op.ByUser() && Effect(op, b, now).generation == b.generation ==> op.PrepareDeployment?
  {
  }

  lemma UpdateStep(rows: Rows, id: Uuid, op: Operation, now: Time)
    requires RowsInv(rows)
    ensures RowsInv(Updated(rows, id, op, now)) && RowsLater(rows, Updated(rows, id, op, now))
  {
    if Accepts(rows, id, op) {
      RowStep(op, rows[id], now);
    }
  }

  lemma RowsStep(s: System, e: Event)
    requires RowsInv(s.rows) && Enabled(s, e)
    ensures RowsInv(Apply(s, e).rows) && RowsLater(s.rows, Apply(s, e).rows)
  {
    match e
    case User(id, op, now) => UpdateStep(s.rows, id, op, now);
    case Report(w, op, now) => UpdateStep(s.rows, s.scopes[w].id, op, now);
    case _ =>
  }

  lemma InvStep(s: System, e: Event)
    requires Inv(s) && Enabled(s, e)
    ensures Inv(Apply(s, e))
  {
    RowsStep(s, e);
    var s' := Apply(s, e);
    forall w | w in s'.scopes ensures ScopeInv(s'.rows, s'.scopes[w]) {
      if !(e.Read? && e.worker == w) {
        var scope := s.scopes[w];
        assert ScopeInv(s.rows, scope);
        assert Later(s.rows[scope.id], s'.rows[scope.id]);
      }
    }
  }

  lemma {:induction false} InvAlways(trace: seq<System>, events: seq<Event>, n: nat)
    requires IsRun(trace, events) && n <= |events|
    ensures Inv(trace[n])
  {
    if n == 0 {
    } else {
      InvAlways(trace, events, n - 1);
      assert Step(trace[n - 1], events[n - 1], trace[n]);
      InvStep(trace[n - 1], events[n - 1]);
    }
  }

  lemma RowsLaterTransitive(a: Rows, b: Rows, c: Rows)
    requires RowsLater(a, b) && RowsLater(b, c)
    ensures RowsLater(a, c)
  {
    forall id | id in a ensures id in c && Later(a[id], c[id]) {
      assert Later(a[id], b[id]) && Later(b[id], c[id]);
    }
  }

  /**
   Both generations only grow, and two moments with the same generation have the
   same zone and adoption time. Once archived, generation, zone and adoption stay.
   */
  lemma {:induction false} GenerationFixesTarget(trace: seq<System>, events: seq<Event>, m: nat, n: nat)
    requires IsRun(trace, events) && m <= n <= |events|
    ensures RowsLater(trace[m].rows, trace[n].rows)
    decreases n
  {
    InvAlways(trace, events, n);
    if m < n {
      GenerationFixesTarget(trace, events, m, n - 1);
      InvAlways(trace, events, n - 1);
      assert Step(trace[n - 1], events[n - 1], trace[n]);
      RowsStep(trace[n - 1], events[n - 1]);
      RowsLaterTransitive(trace[m].rows, trace[n - 1].rows, trace[n].rows);
    }
  }

  // ---------------------------------------------------------------- what a worker may rely on

  /** While the generation stands, the only request that can have succeeded is a deployment request. */
  lemma OnlyDeploymentRequestsBetween(trace: seq<System>, events: seq<Event>, m: nat, k: nat, n: nat, id: Uuid)
    requires IsRun(trace, events) && m <= k < n <= |events|
    requires id in trace[m].rows && id in trace[n].rows
    requires trace[m].rows[id].generation == trace[n].rows[id].generation
    requires AcceptedRequest(trace[k], events[k], id)
    ensures events[k].op.PrepareDeployment?
  {
    GenerationFixesTarget(trace, events, m, k);
    GenerationFixesTarget(trace, events, k, k + 1);
    GenerationFixesTarget(trace, events, k + 1, n);
    assert Step(trace[k], events[k], trace[k + 1]);
    InvAlways(trace, events, k);
    assert Later(trace[m].rows[id], trace[k].rows[id]);
    assert Later(trace[k].rows[id], trace[k + 1].rows[id]);
    assert Later(trace[k + 1].rows[id], trace[n].rows[id]);
    RowStep(events[k].op, trace[k].rows[id], events[k].now);
  }

  /** A report that takes effect was computed from the current zone and adoption time. */
  lemma AppliedReportIsCurrent(trace: seq<System>, events: seq<Event>, m: nat, n: nat, w: nat, id: Uuid)
    requires IsRun(trace, events) && m < n < |events|
    requires events[m] == Read(w, id)
    requires forall k :: m < k < n && events[k].Read? ==> events[k].worker != w
    requires events[n].Report? && events[n].worker == w && Accepts(trace[n].rows, id, events[n].op)
    ensures id in trace[m].rows
    ensures trace[n].rows[id].generation == trace[m].rows[id].generation
    ensures trace[n].rows[id].zone == trace[m].rows[id].zone
    ensures trace[n].rows[id].adoptionConfirmedAt == trace[m].rows[id].adoptionConfirmedAt
    ensures forall k :: m <= k < n && AcceptedRequest(trace[k], events[k], id) ==> events[k].op.PrepareDeployment?
    ensures events[n].op.MarkApplied? ==>
              trace[n + 1].rows[id].state == Applied &&
              trace[n + 1].rows[id].appliedGeneration == trace[m].rows[id].generation
  {
    assert Step(trace[m], events[m], trace[m + 1]);
    assert Step(trace[n], events[n], trace[n + 1]);
    ScopeUntouched(trace, events, m, n, w);
    GenerationFixesTarget(trace, events, m, n);
    assert Later(trace[m].rows[id], trace[n].rows[id]);
    forall k | m <= k < n && AcceptedRequest(trace[k], events[k], id) ensures events[k].op.PrepareDeployment? {
      OnlyDeploymentRequestsBetween(trace, events, m, k, n, id);
    }
  }

  lemma {:induction false} ScopeUntouched(trace: seq<System>, events: seq<Event>, m: nat, n: nat, w: nat)
    requires IsRun(trace, events) && m < n <= |events| && events[m].Read? && events[m].worker == w
    requires forall k :: m < k < n && events[k].Read? ==> events[k].worker != w
    ensures events[m].id in trace[m].rows
    ensures w in trace[n].scopes && trace[n].scopes[w] == ScopeOf(events[m].id, trace[m].rows[events[m].id])
    decreases n
  {
    assert Step(trace[m], events[m], trace[m + 1]);
    if m + 1 < n {
      ScopeUntouched(trace, events, m, n - 1, w);
      assert Step(trace[n - 1], events[n - 1], trace[n]);
    }
  }

  /** A worker that was overtaken changes nothing, whatever it reports. */
  lemma StaleReportChangesNothing(trace: seq<System>, events: seq<Event>, n: nat)
    requires IsRun(trace, events) && n < |events| && events[n].Report?
    ensures var scope := trace[n].scopes[events[n].worker];
            && scope.id in trace[n].rows
            && scope.generation <= trace[n].rows[scope.id].generation
            && (scope.generation < trace[n].rows[scope.id].generation ==> trace[n + 1] == trace[n])
  {
    assert Step(trace[n], events[n], trace[n + 1]);
    InvAlways(trace, events, n);
    assert ScopeInv(trace[n].rows, trace[n].scopes[events[n].worker]);
  }

  /** After an archive no request takes effect, and the binding keeps generation, zone and adoption time. */
  lemma ArchiveIsFinal(trace: seq<System>, events: seq<Event>, m: nat, n: nat, id: Uuid)
    requires IsRun(trace, events) && m <= n <= |events|
    requires id in trace[m].rows && trace[m].rows[id].archivedAt.Some?
    ensures id in trace[n].rows && trace[n].rows[id].archivedAt.Some?
    ensures trace[n].rows[id].generation == trace[m].rows[id].generation
    ensures trace[n].rows[id].zone == trace[m].rows[id].zone
    ensures trace[n].rows[id].adoptionConfirmedAt == trace[m].rows[id].adoptionConfirmedAt
    ensures n < |events| ==> !AcceptedRequest(trace[n], events[n], id)
  {
    GenerationFixesTarget(trace, events, m, n);
    assert Later(trace[m].rows[id], trace[n].rows[id]);
    if n < |events| {
      assert Step(trace[n], events[n], trace[n + 1]);
    }
  }

  // ---------------------------------------------------------------- applied means current

  predicate AppliedMeansCurrent(b: Binding) {
    b.state == Applied ==> b.appliedGeneration == b.generation
  }

  /** Only a `MarkState` that claims "applied" ahead of `MarkApplied` breaks the reading of the state. */
  lemma AppliedMeansCurrentExactly(op: Operation, b: Binding, now: Time)
    requires Coherent(b) && Guard(op, b) && AppliedMeansCurrent(b)
    ensures AppliedMeansCurrent(Effect(op, b, now)) <==>
            !(op.MarkState? && op.state == Applied && b.appliedGeneration != b.generation)
  {
  }

  lemma MarkStateCanClaimApplied()
    ensures var b := NewBinding(1, 1, false, None);
            var op := MarkState(1, Applied, "");
            Guard(op, b) && AppliedMeansCurrent(b) && !AppliedMeansCurrent(Effect(op, b, 0))
  {
    assert Guard(MarkState(1, Applied, ""), NewBinding(1, 1, false, None));
  }

  lemma {:induction false} AppliedAlwaysCurrent(trace: seq<System>, events: seq<Event>, n: nat)
    requires IsRun(trace, events) && n <= |events|
    requires forall k :: 0 <= k < n && events[k].Report? && events[k].op.MarkState? ==> events[k].op.state != Applied
    ensures forall id :: id in trace[n].rows ==> AppliedMeansCurrent(trace[n].rows[id])
  {
    if n == 0 {
    } else {
      AppliedAlwaysCurrent(trace, events, n - 1);
      InvAlways(trace, events, n - 1);
      var s, e := trace[n - 1], events[n - 1];
      assert Step(s, e, trace[n]);
      match e {
        case User(id, op, now) => UpdateKeepsApplied(s.rows, id, op, now);
        case Report(w, op, now) => UpdateKeepsApplied(s.rows, s.scopes[w].id, op, now);
        case _ =>
      }
    }
  }

  lemma UpdateKeepsApplied(rows: Rows, id: Uuid, op: Operation, now: Time)
    requires forall id :: id in rows ==> Coherent(rows[id]) && AppliedMeansCurrent(rows[id])
    requires op.MarkState? ==> op.state != Applied
    ensures forall id :: id in Updated(rows, id, op, now) ==> AppliedMeansCurrent(Updated(rows, id, op, now)[id])
  {
    if Accepts(rows, id, op) {
      AppliedMeansCurrentExactly(op, rows[id], now);
    }
  }

  /** What a worker holds it read at some earlier moment. */
  lemma {:induction false} ScopeWasRead(trace: seq<System>, events: seq<Event>, n: nat, w: nat) returns (m: nat)
    requires IsRun(trace, events) && n <= |events| && w in trace[n].scopes
    ensures m < n && events[m] == Read(w, trace[n].scopes[w].id)
    ensures trace[n].scopes[w].id in trace[m].rows
    ensures trace[n].scopes[w] == ScopeOf(trace[n].scopes[w].id, trace[m].rows[trace[n].scopes[w].id])
    decreases n
  {
    assert n > 0;
    assert Step(trace[n - 1], events[n - 1], trace[n]);
    if events[n - 1].Read? && events[n - 1].worker == w {
      m := n - 1;
    } else {
      m := ScopeWasRead(trace, events, n - 1, w);
    }
  }

  /** Apart from `MarkApplied`, and `MarkState` claiming it, no step makes a binding applied. */
  lemma AppliedComesFrom(s: System, e: Event, id: Uuid)
    requires Enabled(s, e) && id in Apply(s, e).rows && Apply(s, e).rows[id].state == Applied
    requires !(e.Report? && e.op.MarkState? && e.op.state == Applied)
    ensures id in s.rows
    ensures (e.Report? && e.op.MarkApplied? && s.scopes[e.worker].id == id && Accepts(s.rows, id, e.op)) ||
            (s.rows[id].state == Applied && Apply(s, e).rows[id].generation == s.rows[id].generation)
  {
  }

  /**
   A binding that says applied was reported so by a worker that had read the
   binding under its current generation, hence its current zone and adoption time:
   no request that came later is hidden behind an old report.
   */
  lemma {:induction false} AppliedWasReadCurrent(trace: seq<System>, events: seq<Event>, n: nat, id: Uuid)
    returns (m: nat, r: nat)
    requires IsRun(trace, events) && n <= |events| && id in trace[n].rows && trace[n].rows[id].state == Applied
    requires forall k :: 0 <= k < n && events[k].Report? && events[k].op.MarkState? ==> events[k].op.state != Applied
    ensures m < r < n && events[m].Read? && events[m].id == id
    ensures events[r].Report? && events[r].worker == events[m].worker && events[r].op.MarkApplied?
    ensures Accepts(trace[r].rows, id, events[r].op)
    ensures id in trace[m].rows
    ensures trace[m].rows[id].generation == trace[n].rows[id].generation
    ensures trace[m].rows[id].zone == trace[n].rows[id].zone
    ensures trace[m].rows[id].adoptionConfirmedAt == trace[n].rows[id].adoptionConfirmedAt
    ensures forall k :: m <= k < n && AcceptedRequest(trace[k], events[k], id) ==> events[k].op.PrepareDeployment?
    decreases n
  {
    assert n > 0;
    var s, e := trace[n - 1], events[n - 1];
    assert Step(s, e, trace[n]);
    AppliedComesFrom(s, e, id);
    if e.Report? && e.op.MarkApplied? && s.scopes[e.worker].id == id && Accepts(s.rows, id, e.op) {
      r := n - 1;
      m := ScopeWasRead(trace, events, r, e.worker);
    } else {
      m, r := AppliedWasReadCurrent(trace, events, n - 1, id);
    }
    GenerationFixesTarget(trace, events, m, n);
    assert Later(trace[m].rows[id], trace[n].rows[id]);
    forall k | m <= k < n && AcceptedRequest(trace[k], events[k], id) ensures events[k].op.PrepareDeployment? {
      OnlyDeploymentRequestsBetween(trace, events, m, k, n, id);
    }
  }

  /** The deployability check over the bindings of an environment's active primary domains. */
  predicate DnsReady(rows: Rows, primaryDomains: set<Uuid>) {
    !exists id :: id in rows && rows[id].domain in primaryDomains && rows[id].archivedAt.None? &&
                  (rows[id].state != Applied || rows[id].appliedGeneration != rows[id].generation)
  }

  /** With that discipline the two-part readiness test is decided by the state alone. */
  lemma DnsReadyByState(trace: seq<System>, events: seq<Event>, n: nat, primaryDomains: set<Uuid>)
    requires IsRun(trace, events) && n <= |events|
    requires forall k :: 0 <= k < n && events[k].Report? && events[k].op.MarkState? ==> events[k].op.state != Applied
    ensures DnsReady(trace[n].rows, primaryDomains) <==>
            forall id | id in trace[n].rows && trace[n].rows[id].domain in primaryDomains ::
              trace[n].rows[id].archivedAt.None? ==> trace[n].rows[id].state == Applied
  {
    AppliedAlwaysCurrent(trace, events, n);
  }

  // ---------------------------------------------------------------- the deployment request

  /** The last deployment request on `id` that took effect in events `m` to `n`. */
  ghost function LastPrepared(trace: seq<System>, events: seq<Event>, m: nat, n: nat, id: Uuid): Option<Request>
    requires |trace| == |events| + 1 && m <= n <= |events|
    decreases n
  {
    if m == n then None
    else
      var prepared := Prepared(trace[n - 1], events[n - 1], id);
      if prepared.Some? then prepared else LastPrepared(trace, events, m, n - 1, id)
  }

  /** The deployment request that `e` puts on `id` in `s`, if it does. */
  function Prepared(s: System, e: Event, id: Uuid): Option<Request> {
    if AcceptedRequest(s, e, id) && e.op.PrepareDeployment?
    then Some(Request(true, e.op.actor, e.op.trigger, e.op.reference))
    else None
  }

  lemma RequestStep(s: System, e: Event, id: Uuid)
    requires Enabled(s, e) && id in s.rows && Apply(s, e).rows[id].generation == s.rows[id].generation
    ensures Apply(s, e).rows[id].request ==
            if Prepared(s, e, id).Some? then Prepared(s, e, id).value else s.rows[id].request
  {
  }

  /**
   The deployment request is not fixed by the generation: it is what it was at the
   earlier moment unless a `PrepareDeployment` took effect, and then it is the last one.
   */
  lemma {:induction false} RequestWithinGeneration(trace: seq<System>, events: seq<Event>, m: nat, n: nat, id: Uuid)
    requires IsRun(trace, events) && m <= n <= |events|
    requires id in trace[m].rows && id in trace[n].rows
    requires trace[m].rows[id].generation == trace[n].rows[id].generation
    ensures trace[n].rows[id].request ==
            match LastPrepared(trace, events, m, n, id)
            case None => trace[m].rows[id].request
            case Some(request) => request
    decreases n
  {
    if m < n {
      GenerationFixesTarget(trace, events, m, n - 1);
      GenerationFixesTarget(trace, events, n - 1, n);
      var before, after := trace[n - 1].rows[id], trace[n].rows[id];
      assert Later(trace[m].rows[id], before) && Later(before, after);
      RequestWithinGeneration(trace, events, m, n - 1, id);
      assert Step(trace[n - 1], events[n - 1], trace[n]);
      RequestStep(trace[n - 1], events[n - 1], id);
    }
  }

  /**
   The request a worker marks as dispatched is the one it read exactly if no
   deployment request overtook it, or the last that did asked for the same.
   */
  lemma DispatchedRequestIsTheOneRead(trace: seq<System>, events: seq<Event>, m: nat, n: nat, w: nat, id: Uuid)
    requires IsRun(trace, events) && m < n < |events|
    requires events[m] == Read(w, id)
    requires forall k :: m < k < n && events[k].Read? ==> events[k].worker != w
    requires events[n].Report? && events[n].worker == w && events[n].op.MarkDeploymentDispatched?
    requires Accepts(trace[n].rows, id, events[n].op)
    ensures w in trace[n].scopes && trace[n].scopes[w].id == id
    ensures trace[n + 1].rows[id].dispatchedAt.Some?
    ensures trace[n + 1].rows[id].request == trace[n].scopes[w].request <==>
            var prepared := LastPrepared(trace, events, m, n, id);
            prepared.None? || prepared.value == trace[n].scopes[w].request
  {
    AppliedReportIsCurrent(trace, events, m, n, w, id);
    ScopeUntouched(trace, events, m, n, w);
    RequestWithinGeneration(trace, events, m, n, id);
    assert Step(trace[n], events[n], trace[n + 1]);
  }

  lemma RunExtends(trace: seq<System>, events: seq<Event>, e: Event)
    requires IsRun(trace, events) && Enabled(trace[|events|], e)
    ensures IsRun(trace + [Apply(trace[|events|], e)], events + [e])
  {
    var trace', events' := trace + [Apply(trace[|events|], e)], events + [e];
    forall n {:trigger events'[n]} | 0 <= n < |events'| ensures Step(trace'[n], events'[n], trace'[n + 1]) {
      if n < |events| {
        assert Step(trace[n], events[n], trace[n + 1]);
      }
    }
  }

  /** A worker takes up a new binding with a deployment request. */
  lemma TakenUp() returns (trace: seq<System>, events: seq<Event>)
    ensures IsRun(trace, events) && |events| == 3
    ensures var s, b := trace[3], NewBinding(1, 1, true, None);
            s.rows == map[1 := b.(state := Reconciling)] && s.scopes == map[0 := ScopeOf(1, b)]
  {
    var e0, e1, e2 := Create(1, 1, 1, true, None), Read(0, 1), Report(0, MarkReconciling(1), 1);
    var b := NewBinding(1, 1, true, None);
    var s1, s2 := System(map[1 := b], map[]), System(map[1 := b], map[0 := ScopeOf(1, b)]);
    assert Apply(EMPTY, e0) == s1 && Apply(s1, e1) == s2;
    RunExtends([EMPTY], [], e0);
    RunExtends([EMPTY] + [s1], [] + [e0], e1);
    RunExtends([EMPTY] + [s1] + [s2], [] + [e0] + [e1], e2);
    trace := [EMPTY] + [s1] + [s2] + [Apply(s2, e2)];
    events := [] + [e0] + [e1] + [e2];
  }

  /** Then it applies the binding and reads it again. */
  lemma AppliedAndRead() returns (trace: seq<System>, events: seq<Event>)
    ensures IsRun(trace, events) && |events| == 5
    ensures events[3] == Report(0, MarkApplied(1), 2) && Accepts(trace[3].rows, 1, events[3].op)
    ensures events[4] == Read(0, 1)
    ensures var s, b := trace[5], NewBinding(1, 1, true, None);
            && 1 in s.rows && s.rows[1] == b.(state := Applied, appliedGeneration := 1, appliedAt := Some(2))
            && s.scopes == map[0 := ScopeOf(1, s.rows[1])]
  {
    var before, first := TakenUp();
    var e3, e4 := Report(0, MarkApplied(1), 2), Read(0, 1);
    var s4 := Apply(before[3], e3);
    RunExtends(before, first, e3);
    RunExtends(before + [s4], first + [e3], e4);
    trace := before + [s4] + [Apply(s4, e4)];
    events := first + [e3] + [e4];
  }

  /**
   A run in which a worker has applied a binding and read it again to dispatch its
   deployment, and a request that arrives then is marked dispatched without being read.
   */
  lemma OvertakenRequestIsMarkedDispatched() returns (trace: seq<System>, events: seq<Event>, id: Uuid, w: nat)
    ensures IsRun(trace, events) && |events| == 7
    ensures events[3].Report? && events[3].op.MarkApplied? && Accepts(trace[3].rows, id, events[3].op)
    ensures events[4] == Read(w, id) && events[5].User? && AcceptedRequest(trace[5], events[5], id)
    ensures events[6].Report? && events[6].worker == w && events[6].op.MarkDeploymentDispatched?
    ensures Accepts(trace[6].rows, id, events[6].op) && w in trace[6].scopes && id in trace[7].rows
    ensures trace[7].rows[id].dispatchedAt.Some? && trace[7].rows[id].request != trace[6].scopes[w].request
  {
    id, w := 1, 0;
    var before, first := AppliedAndRead();
    var e5 := User(1, PrepareDeployment(Some(7), "webhook", "second"), 3);
    var e6 := Report(0, MarkDeploymentDispatched(1), 4);
    var s6 := Apply(before[5], e5);
    RunExtends(before, first, e5);
    RunExtends(before + [s6], first + [e5], e6);
    trace := before + [s6] + [Apply(s6, e6)];
    events := first + [e5] + [e6];
    assert "webhook"[0] != "user"[0];
  }

  /** Ready means that every binding of a primary domain that is not archived says applied, at its own generation. */
  lemma ReadyExactly(rows: Rows, primaryDomains: set<Uuid>)
    ensures DnsReady(rows, primaryDomains) <==>
            forall id | id in rows && rows[id].archivedAt == None ::
              rows[id].domain in primaryDomains ==>
                rows[id].state == Applied && rows[id].appliedGeneration == rows[id].generation
  {
  }
}
