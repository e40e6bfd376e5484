/** The table of remote DNS records tracked for each binding, and synchronising it. */
module DnsRecords {
  import opened Common
  import opened Text

  /** What is stored about the remote record and refreshed by every sync. */
  datatype Payload = Payload(content: string, observedName: string, zone: Uuid)

  datatype Record = Record(
    binding: Uuid,
    externalId: string,
    payload: Payload,
    createdAt: Time,
    updatedAt: Time,
    archivedAt: Option<Time>)

  type Rows = map<Uuid, Record>

  datatype Remote = Remote(externalId: string, content: string, observedName: string, zone: Uuid)

  function KeyOf(r: Remote): string {
    TrimSpace(r.externalId)
  }

  function PayloadOf(r: Remote): Payload {
    Payload(TrimSpace(r.content), TrimSpace(r.observedName), r.zone)
  }

  /** The three columns that must not be blank. */
  predicate IsValid(r: Remote) {
    KeyOf(r) != "" && PayloadOf(r).content != "" && PayloadOf(r).observedName != ""
  }

  predicate HasKey(row: Record, binding: Uuid, externalId: string) {
    row.binding == binding && row.externalId == externalId
  }

  /** One row per binding and external identifier. */
  ghost predicate KeysUnique(rows: Rows) {
    forall a, b | a in rows && b in rows :: HasKey(rows[a], rows[b].binding, rows[b].externalId) ==> a == b
  }

  predicate KeyStored(rows: Rows, binding: Uuid, externalId: string) {
    exists id :: id in rows && HasKey(rows[id], binding, externalId)
  }

  function Refreshed(row: Record, p: Payload, now: Time): Record {
    row.(payload := p, updatedAt := now, archivedAt := None)
  }

  /** A stored key is refreshed and revived in place; a new key gets the new row identifier. */
  function Upserted(rows: Rows, newId: Uuid, binding: Uuid, r: Remote, now: Time): Rows {
    if !IsValid(r) then rows
    else if KeyStored(rows, binding, KeyOf(r)) then
      map id | id in rows ::
        if HasKey(rows[id], binding, KeyOf(r)) then Refreshed(rows[id], PayloadOf(r), now) else rows[id]
    else rows[newId := Record(binding, KeyOf(r), PayloadOf(r), now, now, None)]
  }

  predicate IsMissing(row: Record, binding: Uuid, externalIds: set<string>) {
    row.binding == binding && row.archivedAt.None? && row.externalId !in externalIds
  }

  /** Every active row of the binding whose identifier is not listed is archived. */
  function WithoutMissing(rows: Rows, binding: Uuid, externalIds: set<string>, now: Time): Rows {
    map id | id in rows ::
      if IsMissing(rows[id], binding, externalIds)
      then rows[id].(updatedAt := now, archivedAt := Some(now))
      else rows[id]
  }

  class RecordTable {
    var rows: Rows

    constructor ()
      ensures rows == map[] && KeysUnique(rows)
    {
      rows := map[];
    }

    method Upsert(newId: Uuid, binding: Uuid, r: Remote, now: Time) returns (id: Option<Uuid>)
      requires KeysUnique(rows) && newId !in rows
      modifies this
      ensures KeysUnique(rows)
      ensures rows == Upserted(old(rows), newId, binding, r, now)
      ensures id.Some? <==> IsValid(r)
      ensures id.Some? ==> id.value in rows && HasKey(rows[id.value], binding, KeyOf(r)) &&
                           rows[id.value].payload == PayloadOf(r) && rows[id.value].archivedAt.None?
    {
      var externalId, payload := TrimSpace(r.externalId), PayloadOf(r);
      if externalId == "" || payload.content == "" || payload.observedName == "" {
        return None;
      }
      if k :| k in rows && rows[k].binding == binding && rows[k].externalId == externalId {
        assert HasKey(rows[k], binding, externalId);
        rows := rows[k := rows[k].(payload := payload, updatedAt := now, archivedAt := None)];
        assert rows == Upserted(old(rows), newId, binding, r, now);
        return Some(k);
      } else {
        rows := rows[newId := Record(binding, externalId, payload, now, now, None)];
        return Some(newId);
      }
    }

    method ArchiveMissing(binding: Uuid, externalIds: seq<string>, now: Time)
      modifies this
      ensures rows == WithoutMissing(old(rows), binding, (set e | e in externalIds), now)
    {
      var listed := set e | e in externalIds;
      if |externalIds| > 0 {
        rows := map id | id in rows ::
          if IsMissing(rows[id], binding, listed)
          then rows[id].(updatedAt := now, archivedAt := Some(now)) else rows[id];
      } else {
        assert listed == {};
        rows := map id | id in rows ::
          if rows[id].binding == binding && rows[id].archivedAt.None?
          then rows[id].(updatedAt := now, archivedAt := Some(now)) else rows[id];
      }
    }
  }

  // ---------------------------------------------------------------- synchronising a binding

  /** Upserting every remote record in turn, with a new row identifier at hand for each. */
  function UpsertAll(rows: Rows, newIds: seq<Uuid>, binding: Uuid, remote: seq<Remote>, now: Time): Rows
    requires |newIds| == |remote|
  {
    if remote == [] then rows
    else
      var n := |remote| - 1;
      Upserted(UpsertAll(rows, newIds[..n], binding, remote[..n], now), newIds[n], binding, remote[n], now)
  }

  function Keys(remote: seq<Remote>): set<string> {
    set r | r in remote :: KeyOf(r)
  }

  function Synced(rows: Rows, newIds: seq<Uuid>, binding: Uuid, remote: seq<Remote>, now: Time): Rows
    requires |newIds| == |remote|
  {
    WithoutMissing(UpsertAll(rows, newIds, binding, remote, now), binding, Keys(remote), now)
  }

  /** The payload of the last remote record with a key. */
  function LastPayload(remote: seq<Remote>, key: string): Payload
    requires key in Keys(remote)
  {
    var last := remote[|remote| - 1];
    if KeyOf(last) == key then PayloadOf(last)
    else
      assert remote == remote[..|remote| - 1] + [last];
      LastPayload(remote[..|remote| - 1], key)
  }

  ghost predicate ReadyToSync(rows: Rows, newIds: seq<Uuid>, remote: seq<Remote>) {
    && KeysUnique(rows)
    && |newIds| == |remote|
    && (forall i :: 0 <= i < |newIds| ==> newIds[i] !in rows)
    && (forall i, j :: 0 <= i < j < |newIds| ==> newIds[i] != newIds[j])
    && (forall r :: r in remote ==> IsValid(r))
  }

  /** What upserting does to a row that was there before. */
  function OldRow(row: Record, binding: Uuid, remote: seq<Remote>, now: Time): Record {
    if row.binding == binding && row.externalId in Keys(remote)
    then Refreshed(row, LastPayload(remote, row.externalId), now)
    else row
  }

  /** `rows'` is `rows` with the remote records upserted. */
  ghost predicate UpsertFacts(rows: Rows, rows': Rows, newIds: seq<Uuid>, binding: Uuid, remote: seq<Remote>,
                              now: Time)
  {
    && KeysUnique(rows')
    && (forall id :: id in rows ==> id in rows' && rows'[id] == OldRow(rows[id], binding, remote, now))
    && (forall id :: id in rows' && id !in rows ==> id in newIds && NewRow(rows'[id], binding, remote, now))
    && (forall key :: key in Keys(remote) ==> KeyStored(rows', binding, key))
  }

  ghost predicate NewRow(row: Record, binding: Uuid, remote: seq<Remote>, now: Time) {
    && row.createdAt == now && row.updatedAt == now
    && row.binding == binding && row.externalId in Keys(remote)
    && row.payload == LastPayload(remote, row.externalId) && row.archivedAt.None?
  }

  lemma KeysAppend(remote: seq<Remote>, r: Remote)
    ensures Keys(remote + [r]) == Keys(remote) + {KeyOf(r)}
    ensures forall key :: key in Keys(remote + [r]) ==>
              LastPayload(remote + [r], key) == if KeyOf(r) == key then PayloadOf(r) else LastPayload(remote, key)
  {
    assert forall x :: x in remote + [r] <==> x in remote || x == r;
    assert (remote + [r])[..|remote|] == remote;
  }

  lemma UpsertKeepsUnique(rows: Rows, newId: Uuid, binding: Uuid, r: Remote, now: Time)
    requires KeysUnique(rows) && newId !in rows
    ensures KeysUnique(Upserted(rows, newId, binding, r, now))
    ensures IsValid(r) ==> KeyStored(Upserted(rows, newId, binding, r, now), binding, KeyOf(r))
    ensures forall b, key :: KeyStored(rows, b, key) ==> KeyStored(Upserted(rows, newId, binding, r, now), b, key)
  {
    var rows' := Upserted(rows, newId, binding, r, now);
    if IsValid(r) && !KeyStored(rows, binding, KeyOf(r)) {
      assert HasKey(rows'[newId], binding, KeyOf(r));
    }
    forall id, b, key | id in rows && HasKey(rows[id], b, key) ensures id in rows' && HasKey(rows'[id], b, key) {
    }
  }

  /** With unique keys one upsert touches at most the row that has the key. */
  lemma UpsertedRow(rows: Rows, newId: Uuid, binding: Uuid, r: Remote, now: Time, id: Uuid)
    requires IsValid(r) && newId !in rows && id in rows
    ensures id in Upserted(rows, newId, binding, r, now)
    ensures Upserted(rows, newId, binding, r, now)[id] ==
            if HasKey(rows[id], binding, KeyOf(r)) then Refreshed(rows[id], PayloadOf(r), now) else rows[id]
  {
  }

  lemma UpsertedNewRow(rows: Rows, newId: Uuid, binding: Uuid, r: Remote, now: Time, id: Uuid)
    requires IsValid(r) && newId !in rows && id !in rows && id in Upserted(rows, newId, binding, r, now)
    ensures id == newId
    ensures Upserted(rows, newId, binding, r, now)[id] == Record(binding, KeyOf(r), PayloadOf(r), now, now, None)
  {
  }

  lemma UpsertOne(rows: Rows, mid: Rows, newIds: seq<Uuid>, f: Uuid, binding: Uuid, remote: seq<Remote>, r: Remote,
                  now: Time)
    requires UpsertFacts(rows, mid, newIds, binding, remote, now) && f !in rows && f !in newIds && IsValid(r)
    ensures f !in mid
    ensures UpsertFacts(rows, Upserted(mid, f, binding, r, now), newIds + [f], binding, remote + [r], now)
  {
    var rows' := Upserted(mid, f, binding, r, now);
    KeysAppend(remote, r);
    UpsertKeepsUnique(mid, f, binding, r, now);
    forall id | id in rows ensures id in rows' && rows'[id] == OldRow(rows[id], binding, remote + [r], now) {
      UpsertedRow(mid, f, binding, r, now, id);
    }
    forall id | id in rows' && id !in rows ensures id in newIds + [f] && NewRow(rows'[id], binding, remote + [r], now) {
      if id in mid {
        UpsertedRow(mid, f, binding, r, now, id);
      } else {
        UpsertedNewRow(mid, f, binding, r, now, id);
      }
    }
  }

  lemma {:induction false} UpsertAllFacts(rows: Rows, newIds: seq<Uuid>, binding: Uuid, remote: seq<Remote>, now: Time)
    requires ReadyToSync(rows, newIds, remote)
    ensures UpsertFacts(rows, UpsertAll(rows, newIds, binding, remote, now), newIds, binding, remote, now)
    decreases remote
  {
    if remote == [] {
    } else {
      var n := |remote| - 1;
      assert remote == remote[..n] + [remote[n]] && newIds == newIds[..n] + [newIds[n]];
      UpsertAllFacts(rows, newIds[..n], binding, remote[..n], now);
      var mid := UpsertAll(rows, newIds[..n], binding, remote[..n], now);
      UpsertOne(rows, mid, newIds[..n], newIds[n], binding, remote[..n], remote[n], now);
    }
  }

  /** The external identifiers of a binding's active records. */
  function ActiveKeys(rows: Rows, binding: Uuid): set<string> {
    set id | id in rows && rows[id].binding == binding && rows[id].archivedAt.None? :: rows[id].externalId
  }

  /** An active row of the binding after a sync is listed and has the last payload. */
  lemma SyncedRow(rows: Rows, mid: Rows, newIds: seq<Uuid>, binding: Uuid, remote: seq<Remote>, now: Time, id: Uuid)
    requires UpsertFacts(rows, mid, newIds, binding, remote, now) && id in mid
    ensures var row := WithoutMissing(mid, binding, Keys(remote), now)[id];
            row.binding == binding && row.archivedAt.None? ==>
              row.externalId in Keys(remote) && row.payload == LastPayload(remote, row.externalId)
  {
    if id in rows {
      assert mid[id] == OldRow(rows[id], binding, remote, now);
    } else {
      assert NewRow(mid[id], binding, remote, now);
    }
  }

  lemma SyncedKey(rows: Rows, mid: Rows, newIds: seq<Uuid>, binding: Uuid, remote: seq<Remote>, now: Time, key: string)
    requires UpsertFacts(rows, mid, newIds, binding, remote, now) && key in Keys(remote)
    ensures key in ActiveKeys(WithoutMissing(mid, binding, Keys(remote), now), binding)
  {
    var id :| id in mid && HasKey(mid[id], binding, key);
    if id in rows {
      assert mid[id] == OldRow(rows[id], binding, remote, now);
    } else {
      assert NewRow(mid[id], binding, remote, now);
    }
    assert WithoutMissing(mid, binding, Keys(remote), now)[id] == mid[id];
  }

  /** Archiving what is missing leaves the keys alone, and the rows of other bindings. */
  lemma SyncedOldRow(rows: Rows, mid: Rows, newIds: seq<Uuid>, binding: Uuid, remote: seq<Remote>, now: Time, id: Uuid)
    requires UpsertFacts(rows, mid, newIds, binding, remote, now) && id in rows
    ensures id in mid
    ensures var row := WithoutMissing(mid, binding, Keys(remote), now)[id];
            && HasKey(row, rows[id].binding, rows[id].externalId) && row.createdAt == rows[id].createdAt
            && (rows[id].binding != binding ==> row == rows[id])
  {
    assert mid[id] == OldRow(rows[id], binding, remote, now);
  }

  lemma SyncedNewRow(rows: Rows, mid: Rows, newIds: seq<Uuid>, binding: Uuid, remote: seq<Remote>, now: Time, id: Uuid)
    requires UpsertFacts(rows, mid, newIds, binding, remote, now) && id in mid && id !in rows
    ensures WithoutMissing(mid, binding, Keys(remote), now)[id].binding == binding
  {
    assert NewRow(mid[id], binding, remote, now);
  }

  lemma ArchivingKeepsKeys(rows: Rows, binding: Uuid, externalIds: set<string>, now: Time)
    requires KeysUnique(rows)
    ensures KeysUnique(WithoutMissing(rows, binding, externalIds, now))
    ensures WithoutMissing(rows, binding, externalIds, now).Keys == rows.Keys
  {
    var rows' := WithoutMissing(rows, binding, externalIds, now);
    assert forall id :: id in rows ==> HasKey(rows'[id], rows[id].binding, rows[id].externalId);
  }

  /** What a sync promises about the table it finds and the table it leaves. */
  ghost predicate IsSynced(rows: Rows, rows': Rows, binding: Uuid, remote: seq<Remote>) {
    && KeysUnique(rows')
    && ActiveKeys(rows', binding) == Keys(remote)
    && (forall id | id in rows ::
          && id in rows' && HasKey(rows'[id], rows[id].binding, rows[id].externalId)
          && rows'[id].createdAt == rows[id].createdAt
          && (rows[id].binding != binding ==> rows'[id] == rows[id]))
    && (forall id :: id in rows' && id !in rows ==> rows'[id].binding == binding)
    && (forall id :: id in rows' && rows'[id].binding == binding && rows'[id].archivedAt.None? ==>
          rows'[id].externalId in Keys(remote) && rows'[id].payload == LastPayload(remote, rows'[id].externalId))
  }

  /**
   After a sync exactly the remote identifiers are active, each in one row, with the
   payload last sent for it; rows keep identifier, key and creation time through
   archive and revival; other bindings are untouched.
   */
  lemma SyncIsExact(rows: Rows, newIds: seq<Uuid>, binding: Uuid, remote: seq<Remote>, now: Time)
    requires ReadyToSync(rows, newIds, remote)
    ensures IsSynced(rows, Synced(rows, newIds, binding, remote, now), binding, remote)
  {
    UpsertAllFacts(rows, newIds, binding, remote, now);
    SyncedFromFacts(rows, UpsertAll(rows, newIds, binding, remote, now), newIds, binding, remote, now);
  }

  lemma SyncedFromFacts(rows: Rows, mid: Rows, newIds: seq<Uuid>, binding: Uuid, remote: seq<Remote>, now: Time)
    requires UpsertFacts(rows, mid, newIds, binding, remote, now)
    ensures IsSynced(rows, WithoutMissing(mid, binding, Keys(remote), now), binding, remote)
  {
    var rows' := WithoutMissing(mid, binding, Keys(remote), now);
    ArchivingKeepsKeys(mid, binding, Keys(remote), now);
    forall key | key in Keys(remote) ensures key in ActiveKeys(rows', binding) {
      SyncedKey(rows, mid, newIds, binding, remote, now, key);
    }
    forall id | id in rows'
      ensures rows'[id].binding == binding && rows'[id].archivedAt.None? ==>
                rows'[id].externalId in Keys(remote) && rows'[id].payload == LastPayload(remote, rows'[id].externalId)
    {
      SyncedRow(rows, mid, newIds, binding, remote, now, id);
    }
    forall id | id in rows
      ensures id in rows' && HasKey(rows'[id], rows[id].binding, rows[id].externalId)
      ensures rows'[id].createdAt == rows[id].createdAt
      ensures rows[id].binding != binding ==> rows'[id] == rows[id]
    {
      SyncedOldRow(rows, mid, newIds, binding, remote, now, id);
    }
    forall id | id in rows' && id !in rows ensures rows'[id].binding == binding {
      SyncedNewRow(rows, mid, newIds, binding, remote, now, id);
    }
  }

  /** Equal but for the time of the last update. */
  ghost predicate SameButUpdated(rows: Rows, rows': Rows) {
    rows'.Keys == rows.Keys && forall id :: id in rows ==> rows'[id] == rows[id].(updatedAt := rows'[id].updatedAt)
  }

  /** A second identical sync changes nothing but update times. */
  lemma SecondSyncChangesNothing(rows: Rows, newIds: seq<Uuid>, newIds': seq<Uuid>, binding: Uuid, remote: seq<Remote>,
                                 now: Time, later: Time)
    requires ReadyToSync(rows, newIds, remote)
    requires ReadyToSync(Synced(rows, newIds, binding, remote, now), newIds', remote)
    ensures var first := Synced(rows, newIds, binding, remote, now);
            SameButUpdated(first, Synced(first, newIds', binding, remote, later))
  {
    var first := Synced(rows, newIds, binding, remote, now);
    SyncIsExact(rows, newIds, binding, remote, now);
    UpsertAllFacts(first, newIds', binding, remote, later);
    var mid := UpsertAll(first, newIds', binding, remote, later);
    forall id | id in mid ensures id in first {
      if id !in first {
        assert NewRow(mid[id], binding, remote, later);
        assert mid[id].externalId in ActiveKeys(first, binding);
        var o :| o in first && first[o].binding == binding && first[o].archivedAt.None? &&
                 first[o].externalId == mid[id].externalId;
        assert mid[o] == OldRow(first[o], binding, remote, later);
        assert HasKey(mid[o], mid[id].binding, mid[id].externalId);
        assert false;
      }
    }
    forall id | id in first ensures mid[id] == first[id].(updatedAt := mid[id].updatedAt) {
      assert mid[id] == OldRow(first[id], binding, remote, later);
      if first[id].binding == binding && first[id].externalId in Keys(remote) {
        ActiveIfListed(first, id, binding, remote);
      }
    }
  }

  /** With unique keys, a row whose key is among the active ones is itself active. */
  lemma ActiveIfListed(rows: Rows, id: Uuid, binding: Uuid, remote: seq<Remote>)
    requires KeysUnique(rows) && ActiveKeys(rows, binding) == Keys(remote)
    requires id in rows && rows[id].binding == binding && rows[id].externalId in Keys(remote)
    ensures rows[id].archivedAt.None?
  {
    var o :| o in rows && rows[o].binding == binding && rows[o].archivedAt.None? &&
             rows[o].externalId == rows[id].externalId;
    assert HasKey(rows[o], rows[id].binding, rows[id].externalId);
  }

  // ---------------------------------------------------------------- what is written

  /** The last report with a key. */
  function LastReport(remote: seq<Remote>, key: string): Remote
    requires key in Keys(remote)
  {
    var last := remote[|remote| - 1];
    if TrimSpace(last.externalId) == key then last
    else
      assert remote == remote[..|remote| - 1] + [last];
      LastReport(remote[..|remote| - 1], key)
  }

  /** A report is taken exactly if none of its three texts is blank. */
  lemma ValidExactly(r: Remote)
    ensures IsValid(r) <==> !IsBlank(r.externalId) && !IsBlank(r.content) && !IsBlank(r.observedName)
  {
    BlankExactly(r.externalId);
    BlankExactly(r.content);
    BlankExactly(r.observedName);
  }

  lemma {:induction false} PayloadIsReported(remote: seq<Remote>, key: string)
    requires key in Keys(remote)
    ensures var r := LastReport(remote, key);
            LastPayload(remote, key) == Payload(TrimSpace(r.content), TrimSpace(r.observedName), r.zone)
    decreases remote
  {
    var last := remote[|remote| - 1];
    if TrimSpace(last.externalId) != key {
      assert remote == remote[..|remote| - 1] + [last];
      PayloadIsReported(remote[..|remote| - 1], key);
    }
  }

  /**
   What a sync writes: rows with a listed key the last report of it and the time; other active
   rows of the binding that they are archived now; all other rows nothing.
   */
  ghost predicate RowWritten(rows: Rows, rows': Rows, binding: Uuid, remote: seq<Remote>, now: Time, id: Uuid)
    requires id in rows'
  {
    var row := rows'[id];
    if row.binding == binding && row.externalId in Keys(remote) then
      var r := LastReport(remote, row.externalId);
      && row.payload.content == TrimSpace(r.content) && row.payload.observedName == TrimSpace(r.observedName)
      && row.payload.zone == r.zone && row.updatedAt == now && row.archivedAt.None?
      && (id !in rows ==> row.createdAt == now)
    else
      && id in rows
      && row == if rows[id].binding == binding && rows[id].archivedAt.None?
                then rows[id].(updatedAt := now, archivedAt := Some(now)) else rows[id]
  }

  lemma SyncWrites(rows: Rows, newIds: seq<Uuid>, binding: Uuid, remote: seq<Remote>, now: Time, id: Uuid)
    requires ReadyToSync(rows, newIds, remote) && id in Synced(rows, newIds, binding, remote, now)
    ensures RowWritten(rows, Synced(rows, newIds, binding, remote, now), binding, remote, now, id)
  {
    UpsertAllFacts(rows, newIds, binding, remote, now);
    var mid := UpsertAll(rows, newIds, binding, remote, now);
    RowWrittenFromFacts(rows, mid, newIds, binding, remote, now, id);
  }

  lemma RowWrittenFromFacts(rows: Rows, mid: Rows, newIds: seq<Uuid>, binding: Uuid, remote: seq<Remote>, now: Time,
                            id: Uuid)
    requires UpsertFacts(rows, mid, newIds, binding, remote, now) && id in mid
    ensures RowWritten(rows, WithoutMissing(mid, binding, Keys(remote), now), binding, remote, now, id)
  {
    if id in rows {
      assert mid[id] == OldRow(rows[id], binding, remote, now);
    } else {
      assert NewRow(mid[id], binding, remote, now);
    }
    if mid[id].binding == binding && mid[id].externalId in Keys(remote) {
      PayloadIsReported(remote, mid[id].externalId);
    }
  }

  /** Stored keys have no outer white space and are not blank. */
  lemma KeysAreTrimmed(remote: seq<Remote>, key: string)
    requires key in Keys(remote) && forall r :: r in remote ==> IsValid(r)
    ensures Trimmed(key) && key != "" && exists r :: r in remote && TrimSpace(r.externalId) == key
  {
    var r :| r in remote && KeyOf(r) == key;
    TrimSpaceFacts(r.externalId);
  }
}
