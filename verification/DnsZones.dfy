/** The table of DNS zones: two uniqueness keys per connection. Names are stored normalised. */
module DnsZones {
  import opened Common

  datatype Zone = Zone(
    connection: Uuid,
    externalId: string,
    name: string,
    status: string,
    lastSyncedAt: Time,
    createdAt: Time,
    updatedAt: Time,
    archivedAt: Option<Time>)

  type Rows = map<Uuid, Zone>

  /** What a sync reports about a zone. */
  datatype Remote = Remote(connection: Uuid, externalId: string, name: string, status: string, syncedAt: Time)

  predicate IsValid(r: Remote) {
    r.externalId != "" && r.name != "" && r.status != ""
  }

  predicate SameExternal(z: Zone, connection: Uuid, externalId: string) {
    z.connection == connection && z.externalId == externalId
  }

  predicate SameName(z: Zone, connection: Uuid, name: string) {
    z.connection == connection && z.name == name
  }

  ghost predicate ExternalsUnique(rows: Rows) {
    forall a, b | a in rows && b in rows :: SameExternal(rows[a], rows[b].connection, rows[b].externalId) ==> a == b
  }

  ghost predicate NamesUnique(rows: Rows) {
    forall a, b | a in rows && b in rows :: SameName(rows[a], rows[b].connection, rows[b].name) ==> a == b
  }

  predicate ExternalStored(rows: Rows, r: Remote) {
    exists id :: id in rows && SameExternal(rows[id], r.connection, r.externalId)
  }

  /** Some other zone of the connection has the name, archived or not. */
  predicate NameHeld(rows: Rows, r: Remote) {
    exists id :: id in rows && SameName(rows[id], r.connection, r.name) &&
                 !SameExternal(rows[id], r.connection, r.externalId)
  }

  predicate Accepts(rows: Rows, r: Remote) {
    IsValid(r) && !NameHeld(rows, r)
  }

  function Refreshed(z: Zone, r: Remote, now: Time): Zone {
    z.(name := r.name, status := r.status, lastSyncedAt := r.syncedAt, updatedAt := now, archivedAt := None)
  }

  /** The row that has the external identifier is refreshed and revived; a new one gets the new row identifier. */
  function Written(rows: Rows, newId: Uuid, r: Remote, now: Time): Rows {
    if ExternalStored(rows, r) then
      map id | id in rows ::
        if SameExternal(rows[id], r.connection, r.externalId) then Refreshed(rows[id], r, now) else rows[id]
    else rows[newId := Zone(r.connection, r.externalId, r.name, r.status, r.syncedAt, now, now, None)]
  }

  function Upserted(rows: Rows, newId: Uuid, r: Remote, now: Time): Rows {
    if Accepts(rows, r) then Written(rows, newId, r, now) else rows
  }

  function WithoutMissing(rows: Rows, connection: Uuid, externalIds: set<string>, now: Time): Rows {
    map id | id in rows ::
      if rows[id].connection == connection && rows[id].archivedAt.None? && rows[id].externalId !in externalIds
      then rows[id].(updatedAt := now, archivedAt := Some(now))
      else rows[id]
  }

  class ZoneTable {
    var rows: Rows

    constructor ()
      ensures rows == map[]
    {
      rows := map[];
    }

    method Upsert(newId: Uuid, r: Remote, now: Time) returns (ok: bool)
      requires ExternalsUnique(rows) && NamesUnique(rows) && newId !in rows
      modifies this
      ensures ExternalsUnique(rows) && NamesUnique(rows)
      ensures ok == Accepts(old(rows), r)
      ensures rows == Upserted(old(rows), newId, r, now)
    {
      UpsertKeepsKeys(rows, newId, r, now);
      if !IsValid(r) {
        return false;
      }
      if k :| k in rows && SameExternal(rows[k], r.connection, r.externalId) {
        if exists o :: o in rows && SameName(rows[o], r.connection, r.name) && o != k {
          return false;
        }
        assert !NameHeld(rows, r);
        rows := rows[k := rows[k].(name := r.name, status := r.status, lastSyncedAt := r.syncedAt, updatedAt := now,
        archivedAt := None)];
        assert rows == Upserted(old(rows), newId, r, now);
      } else {
        if exists o :: o in rows && SameName(rows[o], r.connection, r.name) && o != newId {
          return false;
        }
        rows := rows[newId := Zone(r.connection, r.externalId, r.name, r.status, r.syncedAt, now, now, None)];
      }
      return true;
    }

    method ArchiveMissing(connection: Uuid, externalIds: seq<string>, now: Time)
      modifies this
      ensures rows == WithoutMissing(old(rows), connection, (set e | e in externalIds), now)
    {
      var listed := set e | e in externalIds;
      if |externalIds| > 0 {
        rows := map id | id in rows ::
          if rows[id].connection == connection && rows[id].archivedAt.None? && rows[id].externalId !in listed
          then rows[id].(updatedAt := now, archivedAt := Some(now)) else rows[id];
      } else {
        assert listed == {};
        rows := map id | id in rows ::
          if rows[id].connection == connection && rows[id].archivedAt.None?
          then rows[id].(updatedAt := now, archivedAt := Some(now)) else rows[id];
      }
    }
  }

  /** Both keys stay unique, and a zone keeps its row, key and creation time. */
  lemma UpsertKeepsKeys(rows: Rows, newId: Uuid, r: Remote, now: Time)
    requires ExternalsUnique(rows) && NamesUnique(rows) && newId !in rows
    ensures var rows' := Upserted(rows, newId, r, now);
            && ExternalsUnique(rows') && NamesUnique(rows')
            && (forall id | id in rows :: id in rows' && SameRow(rows[id], rows'[id]))
  {
    var rows' := Upserted(rows, newId, r, now);
    if Accepts(rows, r) {
      assert forall x | x in rows && SameName(rows[x], r.connection, r.name) ::
          SameExternal(rows[x], r.connection, r.externalId);
    }
  }

  /** An upsert is refused exactly if a column is empty or writing the row would give two zones one name. */
  lemma AcceptsExactly(rows: Rows, newId: Uuid, r: Remote, now: Time)
    requires ExternalsUnique(rows) && NamesUnique(rows) && newId !in rows
    ensures Accepts(rows, r) <==>
            r.externalId != "" && r.name != "" && r.status != "" && NamesUnique(Written(rows, newId, r, now))
  {
    var rows' := Written(rows, newId, r, now);
    if NameHeld(rows, r) {
      var o :| o in rows && SameName(rows[o], r.connection, r.name) &&
               !SameExternal(rows[o], r.connection, r.externalId);
      var w := WrittenAt(rows, newId, r, now);
      assert rows'[o] == rows[o] && o != w;
      assert SameName(rows'[o], rows'[w].connection, rows'[w].name);
    } else if IsValid(r) {
      UpsertKeepsKeys(rows, newId, r, now);
    }
  }

  lemma WrittenAt(rows: Rows, newId: Uuid, r: Remote, now: Time) returns (w: Uuid)
    requires newId !in rows
    ensures w in Written(rows, newId, r, now)
    ensures SameExternal(Written(rows, newId, r, now)[w], r.connection, r.externalId)
    ensures SameName(Written(rows, newId, r, now)[w], r.connection, r.name)
  {
    if ExternalStored(rows, r) {
      w :| w in rows && SameExternal(rows[w], r.connection, r.externalId);
    } else {
      w := newId;
    }
  }

  ghost predicate SameRow(z: Zone, z': Zone) {
    SameExternal(z', z.connection, z.externalId) && z'.createdAt == z.createdAt
  }

  datatype Event =
    | Upsert(newId: Uuid, remote: Remote, now: Time)
    | ArchiveMissing(connection: Uuid, externalIds: set<string>, now: Time)

  function Apply(rows: Rows, e: Event): Rows {
    match e
    case Upsert(newId, r, now) => if newId in rows then rows else Upserted(rows, newId, r, now)
    case ArchiveMissing(connection, externalIds, now) => WithoutMissing(rows, connection, externalIds, now)
  }

  function Run(rows: Rows, events: seq<Event>): Rows {
    if events == [] then rows else Apply(Run(rows, events[..|events| - 1]), events[|events| - 1])
  }

  lemma ArchiveKeepsKeys(rows: Rows, connection: Uuid, externalIds: set<string>, now: Time)
    requires ExternalsUnique(rows) && NamesUnique(rows)
    ensures var rows' := WithoutMissing(rows, connection, externalIds, now);
            && ExternalsUnique(rows') && NamesUnique(rows')
            && (forall id | id in rows :: id in rows' && SameRow(rows[id], rows'[id]))
  {
  }

  /** Over every run of refused or accepted upserts and archives both keys stay unique and rows stay put. */
  lemma {:induction false} ZoneKeysAlwaysUnique(rows: Rows, events: seq<Event>)
    requires ExternalsUnique(rows) && NamesUnique(rows)
    ensures ExternalsUnique(Run(rows, events)) && NamesUnique(Run(rows, events))
    ensures forall id | id in rows :: id in Run(rows, events) && SameRow(rows[id], Run(rows, events)[id])
    decreases events
  {
    if events == [] {
    } else {
      var before := Run(rows, events[..|events| - 1]);
      ZoneKeysAlwaysUnique(rows, events[..|events| - 1]);
      match events[|events| - 1]
      case Upsert(newId, r, now) =>
        if newId !in before {
          UpsertKeepsKeys(before, newId, r, now);
        }
      case ArchiveMissing(connection, externalIds, now) =>
        ArchiveKeepsKeys(before, connection, externalIds, now);
    }
  }

  /** When two zones exchange names remotely, each upsert is refused because the other still holds the name. */
  lemma ExchangedNamesAreRefused(rows: Rows, a: Uuid, b: Uuid, ra: Remote, rb: Remote)
    requires a in rows && b in rows && ExternalsUnique(rows) && a != b
    requires SameExternal(rows[a], ra.connection, ra.externalId) && SameName(rows[b], ra.connection, ra.name)
    requires SameExternal(rows[b], rb.connection, rb.externalId) && SameName(rows[a], rb.connection, rb.name)
    ensures !Accepts(rows, ra) && !Accepts(rows, rb)
  {
    assert SameExternal(rows[a], rows[b].connection, rows[b].externalId) ==> a == b;
    assert SameExternal(rows[b], rows[a].connection, rows[a].externalId) ==> a == b;
  }

  /** Rows `a` and `b` still have each other's remote names. */
  ghost predicate Exchanged(rows: Rows, a: Uuid, b: Uuid, ra: Remote, rb: Remote) {
    && ExternalsUnique(rows) && a in rows && b in rows && a != b
    && SameExternal(rows[a], ra.connection, ra.externalId) && SameName(rows[b], ra.connection, ra.name)
    && SameExternal(rows[b], rb.connection, rb.externalId) && SameName(rows[a], rb.connection, rb.name)
  }

  /** Any syncs that report the exchange, whatever other zones they carry, and archives of anything. */
  predicate Reports(e: Event, ra: Remote, rb: Remote) {
    e.Upsert? ==> Agrees(e.remote, ra) && Agrees(e.remote, rb)
  }

  /** A report about the same zone carries the same name. */
  predicate Agrees(r: Remote, known: Remote) {
    r.connection == known.connection && r.externalId == known.externalId ==> r.name == known.name
  }

  lemma ExchangeStep(rows: Rows, e: Event, a: Uuid, b: Uuid, ra: Remote, rb: Remote)
    requires Exchanged(rows, a, b, ra, rb) && NamesUnique(rows) && Reports(e, ra, rb)
    ensures Exchanged(Apply(rows, e), a, b, ra, rb) && NamesUnique(Apply(rows, e))
  {
    match e
    case Upsert(newId, r, now) =>
      if newId !in rows {
        UpsertKeepsKeys(rows, newId, r, now);
        ExchangedNamesAreRefused(rows, a, b, ra, rb);
      }
    case ArchiveMissing(connection, externalIds, now) =>
      ArchiveKeepsKeys(rows, connection, externalIds, now);
  }

  /** So an exchange is never taken over by syncing again, not even after archiving. */
  lemma {:induction false} ExchangeIsNeverStored(rows: Rows, events: seq<Event>, a: Uuid, b: Uuid,
                                                 ra: Remote, rb: Remote)
    requires Exchanged(rows, a, b, ra, rb) && NamesUnique(rows)
    requires forall n :: 0 <= n < |events| ==> Reports(events[n], ra, rb)
    ensures Exchanged(Run(rows, events), a, b, ra, rb) && NamesUnique(Run(rows, events))
    ensures !Accepts(Run(rows, events), ra) && !Accepts(Run(rows, events), rb)
    decreases events
  {
    if events == [] {
      ExchangedNamesAreRefused(rows, a, b, ra, rb);
    } else {
      var init := events[..|events| - 1];
      ExchangeIsNeverStored(rows, init, a, b, ra, rb);
      ExchangeStep(Run(rows, init), events[|events| - 1], a, b, ra, rb);
      ExchangedNamesAreRefused(Run(rows, events), a, b, ra, rb);
    }
  }
}
