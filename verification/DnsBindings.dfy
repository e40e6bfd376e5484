/** The DNS binding table: guarded row updates by users and by workers holding a generation. */
module DnsBindings {
  import opened Common

  datatype State = Pending | Reconciling | Applied | Conflict | Failed | Removing | RemovalFailed

  /** The deployment to start once the binding is applied. */
  datatype Request = Request(deploy: bool, actor: Option<Uuid>, trigger: string, reference: string)

  datatype Binding = Binding(
    domain: Uuid,
    zone: Uuid,
    state: State,
    generation: int,
    appliedGeneration: int,
    adoptionConfirmedAt: Option<Time>,
    appliedAt: Option<Time>,
    archivedAt: Option<Time>,
    lastError: Option<string>,
    request: Request,
    dispatchedAt: Option<Time>)

  type Rows = map<Uuid, Binding>

  datatype Operation =
    // requests of a user
    | Reconfigure(zone: Uuid, deploy: bool, actor: Option<Uuid>)
    | MarkRemoving(deploy: bool, actor: Option<Uuid>)
    | ConfirmAdoption
    | PrepareDeployment(actor: Option<Uuid>, trigger: string, reference: string)
    | Retry
    | Refresh
    | RetryRemoval
    // reports of a worker that read the binding at `generation`
    | MarkReconciling(generation: int)
    | MarkApplied(generation: int)
    | MarkState(generation: int, state: State, message: string)
    | MarkDeploymentDispatched(generation: int)
    | ArchiveGeneration(generation: int)
  {
    predicate ByUser() {
      Reconfigure? || MarkRemoving? || ConfirmAdoption? || PrepareDeployment? || Retry? || Refresh? || RetryRemoval?
    }
  }

  /** The `WHERE` clause of each update, apart from the identifier. */
  predicate Guard(op: Operation, b: Binding) {
    match op
    case Reconfigure(_, _, _) => b.archivedAt.None? && b.state != Reconciling
    case MarkRemoving(_, _) => b.archivedAt.None? && b.state != Reconciling
    case ConfirmAdoption => b.archivedAt.None?
    case PrepareDeployment(_, _, _) =>
      b.archivedAt.None? && b.state in {Pending, Reconciling, Applied, Removing}
    case Retry => b.archivedAt.None?
    case Refresh => b.archivedAt.None? && b.state != Reconciling
    case RetryRemoval => b.archivedAt.None?
    case MarkReconciling(g) => b.generation == g && b.state in {Pending, Failed, Conflict, Reconciling}
    case MarkApplied(g) => b.generation == g
    case MarkState(g, _, _) => b.generation == g
    case MarkDeploymentDispatched(g) => b.generation == g && b.dispatchedAt.None?
    case ArchiveGeneration(g) => b.generation == g
  }

  function Next(b: Binding, state: State): Binding {
    b.(state := state, generation := b.generation + 1, lastError := None)
  }

  /** The `SET` clauses of each update. */
  function Effect(op: Operation, b: Binding, now: Time): Binding {
    match op
    case Reconfigure(zone, deploy, actor) =>
      Next(b, Pending).(zone := zone, adoptionConfirmedAt := None, appliedAt := None,
        request := Request(deploy, actor, "user", ""), dispatchedAt := None)
    case MarkRemoving(deploy, actor) =>
      Next(b, Removing).(request := Request(deploy, actor, "user", ""), dispatchedAt := None)
    case ConfirmAdoption => Next(b, Pending).(adoptionConfirmedAt := Some(now))
    case PrepareDeployment(actor, trigger, reference) =>
      b.(request := Request(true, actor, trigger, reference), dispatchedAt := None)
    case Retry => Next(b, Pending)
    case Refresh => Next(b, Pending).(appliedAt := None)
    case RetryRemoval => Next(b, Removing)
    case MarkReconciling(_) => b.(state := Reconciling, lastError := None)
    case MarkApplied(_) =>
      b.(state := Applied, appliedGeneration := b.generation, appliedAt := Some(now), lastError := None)
    case MarkState(_, state, message) =>
      b.(state := state, lastError := if message == "" then None else Some(message))
    case MarkDeploymentDispatched(_) => b.(dispatchedAt := Some(now))
    case ArchiveGeneration(_) => b.(archivedAt := Some(now), lastError := None)
  }

  predicate Accepts(rows: Rows, id: Uuid, op: Operation) {
    id in rows && Guard(op, rows[id])
  }

  function Updated(rows: Rows, id: Uuid, op: Operation, now: Time): Rows {
    if Accepts(rows, id, op) then rows[id := Effect(op, rows[id], now)] else rows
  }

  function NewBinding(domain: Uuid, zone: Uuid, deploy: bool, actor: Option<Uuid>): Binding {
    Binding(domain, zone, Pending, 1, 0, None, None, None, None, Request(deploy, actor, "user", ""), None)
  }

  predicate DomainBound(rows: Rows, domain: Uuid) {
    exists id :: id in rows && rows[id].domain == domain && rows[id].archivedAt.None?
  }

  function Inserted(rows: Rows, id: Uuid, b: Binding): Rows {
    if id in rows || DomainBound(rows, b.domain) then rows else rows[id := b]
  }

  /** What a worker reads before it starts; archived or unreachable bindings have no scope. */
  datatype Scope = Scope(id: Uuid, generation: int, state: State, zone: Uuid, adoptionConfirmedAt: Option<Time>,
                         request: Request, dispatchedAt: Option<Time>)

  function ScopeOf(id: Uuid, b: Binding): Scope {
    Scope(id, b.generation, b.state, b.zone, b.adoptionConfirmedAt, b.request, b.dispatchedAt)
  }

  class BindingTable {
    var rows: Rows

    constructor ()
      ensures rows == map[]
    {
      rows := map[];
    }

    method Create(id: Uuid, domain: Uuid, zone: Uuid, deploy: bool, actor: Option<Uuid>) returns (ok: bool)
      modifies this
      ensures ok == (id !in old(rows) && !DomainBound(old(rows), domain))
      ensures rows == Inserted(old(rows), id, NewBinding(domain, zone, deploy, actor))
    {
      ok := id !in rows && !DomainBound(rows, domain);
      if ok {
        rows := rows[id := Binding(domain, zone, Pending, 1, 0, None, None, None, None,
        Request(deploy, actor, "user", ""), None)];
      }
    }

    /** `reachable` are the zones whose connection and credential are not archived. */
    method ReconciliationScope(id: Uuid, reachable: set<Uuid>) returns (scope: Option<Scope>)
      ensures scope == if id in rows && rows[id].archivedAt.None? && rows[id].zone in reachable
                       then Some(ScopeOf(id, rows[id])) else None
    {
      if id in rows && rows[id].archivedAt.None? && rows[id].zone in reachable {
        var b := rows[id];
        scope := Some(Scope(id, b.generation, b.state, b.zone, b.adoptionConfirmedAt, b.request, b.dispatchedAt));
      } else {
        scope := None;
      }
    }

    method Reconfigure(id: Uuid, zone: Uuid, deploy: bool, actor: Option<Uuid>, now: Time) returns (ok: bool)
      modifies this
      ensures ok == Accepts(old(rows), id, Operation.Reconfigure(zone, deploy, actor))
      ensures rows == Updated(old(rows), id, Operation.Reconfigure(zone, deploy, actor), now)
    {
      ok := id in rows && rows[id].archivedAt.None? && rows[id].state != Reconciling;
      if ok {
        var b := rows[id];
        rows := rows[id := b.(zone := zone, state := Pending, generation := b.generation + 1, lastError := None,
        adoptionConfirmedAt := None, appliedAt := None, request := Request(deploy, actor, "user", ""),
        dispatchedAt := None)];
      }
    }

    method MarkRemoving(id: Uuid, deploy: bool, actor: Option<Uuid>, now: Time) returns (ok: bool)
      modifies this
      ensures ok == Accepts(old(rows), id, Operation.MarkRemoving(deploy, actor))
      ensures rows == Updated(old(rows), id, Operation.MarkRemoving(deploy, actor), now)
    {
      ok := id in rows && rows[id].archivedAt.None? && rows[id].state != Reconciling;
      if ok {
        var b := rows[id];
        rows := rows[id := b.(state := Removing, generation := b.generation + 1, lastError := None,
        request := Request(deploy, actor, "user", ""), dispatchedAt := None)];
      }
    }

    method ConfirmAdoption(id: Uuid, now: Time) returns (ok: bool)
      modifies this
      ensures ok == Accepts(old(rows), id, Operation.ConfirmAdoption)
      ensures rows == Updated(old(rows), id, Operation.ConfirmAdoption, now)
    {
      ok := id in rows && rows[id].archivedAt.None?;
      if ok {
        var b := rows[id];
        rows := rows[id := b.(state := Pending, generation := b.generation + 1, lastError := None,
        adoptionConfirmedAt := Some(now))];
      }
    }

    method PrepareDeployment(id: Uuid, actor: Option<Uuid>, trigger: string, reference: string, now: Time)
      returns (ok: bool)
      modifies this
      ensures ok == Accepts(old(rows), id, Operation.PrepareDeployment(actor, trigger, reference))
      ensures rows == Updated(old(rows), id, Operation.PrepareDeployment(actor, trigger, reference), now)
    {
      ok := id in rows && rows[id].archivedAt.None? && rows[id].state in {Pending, Reconciling, Applied, Removing};
      if ok {
        rows := rows[id := rows[id].(request := Request(true, actor, trigger, reference), dispatchedAt := None)];
      }
    }

    method Retry(id: Uuid, now: Time) returns (ok: bool)
      modifies this
      ensures ok == Accepts(old(rows), id, Operation.Retry)
      ensures rows == Updated(old(rows), id, Operation.Retry, now)
    {
      ok := id in rows && rows[id].archivedAt.None?;
      if ok {
        var b := rows[id];
        rows := rows[id := b.(state := Pending, generation := b.generation + 1, lastError := None)];
      }
    }

    method Refresh(id: Uuid, now: Time) returns (ok: bool)
      modifies this
      ensures ok == Accepts(old(rows), id, Operation.Refresh)
      ensures rows == Updated(old(rows), id, Operation.Refresh, now)
    {
      ok := id in rows && rows[id].archivedAt.None? && rows[id].state != Reconciling;
      if ok {
        var b := rows[id];
        rows := rows[id := b.(state := Pending, generation := b.generation + 1, lastError := None, appliedAt := None)];
      }
    }

    method RetryRemoval(id: Uuid, now: Time) returns (ok: bool)
      modifies this
      ensures ok == Accepts(old(rows), id, Operation.RetryRemoval)
      ensures rows == Updated(old(rows), id, Operation.RetryRemoval, now)
    {
      ok := id in rows && rows[id].archivedAt.None?;
      if ok {
        var b := rows[id];
        rows := rows[id := b.(state := Removing, generation := b.generation + 1, lastError := None)];
      }
    }

    method MarkReconciling(id: Uuid, generation: int, now: Time) returns (ok: bool)
      modifies this
      ensures ok == Accepts(old(rows), id, Operation.MarkReconciling(generation))
      ensures rows == Updated(old(rows), id, Operation.MarkReconciling(generation), now)
    {
      ok := id in rows && rows[id].generation == generation &&
      rows[id].state in {Pending, Failed, Conflict, Reconciling};
      if ok {
        rows := rows[id := rows[id].(state := Reconciling, lastError := None)];
      }
    }

    method MarkApplied(id: Uuid, generation: int, now: Time) returns (ok: bool)
      modifies this
      ensures ok == Accepts(old(rows), id, Operation.MarkApplied(generation))
      ensures rows == Updated(old(rows), id, Operation.MarkApplied(generation), now)
    {
      ok := id in rows && rows[id].generation == generation;
      if ok {
        var b := rows[id];
        rows := rows[id := b.(state := Applied, appliedGeneration := b.generation, appliedAt := Some(now),
        lastError := None)];
      }
    }

    method MarkState(id: Uuid, generation: int, state: State, message: string, now: Time)
      modifies this
      ensures rows == Updated(old(rows), id, Operation.MarkState(generation, state, message), now)
    {
      if id in rows && rows[id].generation == generation {
        var error := if message == "" then None else Some(message);
        rows := rows[id := rows[id].(state := state, lastError := error)];
      }
    }

    method MarkDeploymentDispatched(id: Uuid, generation: int, now: Time)
      modifies this
      ensures rows == Updated(old(rows), id, Operation.MarkDeploymentDispatched(generation), now)
    {
      if id in rows && rows[id].generation == generation && rows[id].dispatchedAt.None? {
        rows := rows[id := rows[id].(dispatchedAt := Some(now))];
      }
    }

    method ArchiveGeneration(id: Uuid, generation: int, now: Time)
      modifies this
      ensures rows == Updated(old(rows), id, Operation.ArchiveGeneration(generation), now)
    {
      if id in rows && rows[id].generation == generation {
        rows := rows[id := rows[id].(archivedAt := Some(now), lastError := None)];
      }
    }
  }
}
