/** Synchronising all zones of a connection: what it leaves, and when it goes through. */
module ZoneSyncs {
  import opened Common
  import opened DnsZones

  /** Upserting every remote zone in turn, with a new row identifier at hand for each. */
  function UpsertAll(rows: Rows, newIds: seq<Uuid>, remote: seq<Remote>, now: Time): Rows
    requires |newIds| == |remote|
  {
    if remote == [] then rows
    else
      var n := |remote| - 1;
      Upserted(UpsertAll(rows, newIds[..n], remote[..n], now), newIds[n], remote[n], now)
  }

  /** No upsert of the sync is refused. */
  predicate AllAccepted(rows: Rows, newIds: seq<Uuid>, remote: seq<Remote>, now: Time)
    requires |newIds| == |remote|
  {
    remote == [] ||
    var n := |remote| - 1;
    AllAccepted(rows, newIds[..n], remote[..n], now) &&
    Accepts(UpsertAll(rows, newIds[..n], remote[..n], now), remote[n])
  }

  function Keys(remote: seq<Remote>): set<string> {
    set r | r in remote :: r.externalId
  }

  /** The last report about a zone. */
  function LastOf(remote: seq<Remote>, key: string): Remote
    requires key in Keys(remote)
  {
    var last := remote[|remote| - 1];
    if last.externalId == key then last
    else
      assert remote == remote[..|remote| - 1] + [last];
      LastOf(remote[..|remote| - 1], key)
  }

  ghost predicate ReadyToSync(rows: Rows, newIds: seq<Uuid>, connection: Uuid, remote: seq<Remote>) {
    && ExternalsUnique(rows) && NamesUnique(rows)
    && |newIds| == |remote|
    && (forall i :: 0 <= i < |newIds| ==> newIds[i] !in rows)
    && (forall i, j :: 0 <= i < j < |newIds| ==> newIds[i] != newIds[j])
    && (forall r :: r in remote ==> r.connection == connection)
  }

  predicate IsListed(z: Zone, connection: Uuid, remote: seq<Remote>) {
    z.connection == connection && z.externalId in Keys(remote)
  }

  predicate Reflects(z: Zone, r: Remote, now: Time) {
    z.updatedAt == now && z.name == r.name && z.status == r.status && z.lastSyncedAt == r.syncedAt && z.archivedAt.None?
  }

  /** `rows'` is `rows` with the remote zones upserted. */
  ghost predicate UpsertFacts(rows: Rows, rows': Rows, newIds: seq<Uuid>, connection: Uuid, remote: seq<Remote>,
                              now: Time)
  {
    && ExternalsUnique(rows') && NamesUnique(rows')
    && (forall id | id in rows :: id in rows' && SameRow(rows[id], rows'[id]))
    && (forall id :: id in rows' ==> RowFacts(rows, rows', newIds, connection, remote, now, id))
    && (forall key :: key in Keys(remote) ==> exists id :: id in rows' && SameExternal(rows'[id], connection, key))
  }

  /** A row is written from the last report about its zone, or left alone if there is none. */
  ghost predicate RowFacts(rows: Rows, rows': Rows, newIds: seq<Uuid>, connection: Uuid, remote: seq<Remote>, now: Time,
                           id: Uuid)
    requires id in rows'
  {
    && (id in rows || id in newIds)
    && if IsListed(rows'[id], connection, remote)
       then
         && Reflects(rows'[id], LastOf(remote, rows'[id].externalId), now)
         && (id !in rows ==> rows'[id].createdAt == now)
       else id in rows && rows'[id] == rows[id]
  }

  lemma KeysAppend(remote: seq<Remote>, r: Remote)
    ensures Keys(remote + [r]) == Keys(remote) + {r.externalId}
    ensures forall key :: key in Keys(remote + [r]) ==>
              LastOf(remote + [r], key) == if r.externalId == key then r else LastOf(remote, key)
  {
    assert forall x :: x in remote + [r] <==> x in remote || x == r;
    assert (remote + [r])[..|remote|] == remote;
  }

  /** One accepted upsert writes the row that has the key, or the new row, and no other. */
  lemma UpsertedRow(rows: Rows, newId: Uuid, r: Remote, now: Time, id: Uuid)
    requires Accepts(rows, r) && newId !in rows && id in Upserted(rows, newId, r, now)
    ensures var z := Upserted(rows, newId, r, now)[id];
            if SameExternal(z, r.connection, r.externalId) then Reflects(z, r, now) else id in rows && z == rows[id]
    ensures id in rows || id == newId
    ensures id !in rows ==>
              && SameExternal(Upserted(rows, newId, r, now)[id], r.connection, r.externalId)
              && Upserted(rows, newId, r, now)[id].createdAt == now
    ensures id in rows ==> Upserted(rows, newId, r, now)[id].createdAt == rows[id].createdAt
  {
  }

  lemma UpsertedStored(rows: Rows, newId: Uuid, r: Remote, now: Time)
    requires Accepts(rows, r) && newId !in rows
    ensures rows.Keys <= Upserted(rows, newId, r, now).Keys
    ensures ExternalStored(Upserted(rows, newId, r, now), r)
  {
    var rows' := Upserted(rows, newId, r, now);
    if ExternalStored(rows, r) {
      var id :| id in rows && SameExternal(rows[id], r.connection, r.externalId);
      assert SameExternal(rows'[id], r.connection, r.externalId);
    } else {
      assert SameExternal(rows'[newId], r.connection, r.externalId);
    }
  }

  lemma UpsertOneRow(rows: Rows, mid: Rows, newIds: seq<Uuid>, f: Uuid, connection: Uuid, remote: seq<Remote>,
                     r: Remote, now: Time, id: Uuid)
    requires Accepts(mid, r) && r.connection == connection && f !in mid
    requires id in Upserted(mid, f, r, now)
    requires id in mid ==> RowFacts(rows, mid, newIds, connection, remote, now, id)
    ensures RowFacts(rows, Upserted(mid, f, r, now), newIds + [f], connection, remote + [r], now, id)
  {
    KeysAppend(remote, r);
    UpsertedRow(mid, f, r, now, id);
  }

  lemma UpsertOne(rows: Rows, mid: Rows, newIds: seq<Uuid>, f: Uuid, connection: Uuid, remote: seq<Remote>, r: Remote,
                  now: Time)
    requires UpsertFacts(rows, mid, newIds, connection, remote, now) && f !in rows && f !in newIds
    requires Accepts(mid, r) && r.connection == connection
    ensures UpsertFacts(rows, Upserted(mid, f, r, now), newIds + [f], connection, remote + [r], now)
  {
    var rows' := Upserted(mid, f, r, now);
    KeysAppend(remote, r);
    UpsertKeepsKeys(mid, f, r, now);
    UpsertedStored(mid, f, r, now);
    forall id | id in rows' ensures RowFacts(rows, rows', newIds + [f], connection, remote + [r], now, id) {
      UpsertOneRow(rows, mid, newIds, f, connection, remote, r, now, id);
    }
    forall key | key in Keys(remote + [r])
      ensures exists id :: id in rows' && SameExternal(rows'[id], connection, key)
    {
      if key != r.externalId {
        var id :| id in mid && SameExternal(mid[id], connection, key);
        assert SameExternal(rows'[id], connection, key);
      }
    }
  }

  lemma {:induction false} UpsertAllFacts(rows: Rows, newIds: seq<Uuid>, connection: Uuid, remote: seq<Remote>,
                                          now: Time)
    requires ReadyToSync(rows, newIds, connection, remote) && AllAccepted(rows, newIds, remote, now)
    ensures UpsertFacts(rows, UpsertAll(rows, newIds, remote, now), newIds, connection, remote, now)
    decreases remote
  {
    if remote == [] {
    } else {
      var n := |remote| - 1;
      assert remote == remote[..n] + [remote[n]] && newIds == newIds[..n] + [newIds[n]];
      ReadyPrefix(rows, newIds, connection, remote, n);
      UpsertAllFacts(rows, newIds[..n], connection, remote[..n], now);
      var mid := UpsertAll(rows, newIds[..n], remote[..n], now);
      UpsertOne(rows, mid, newIds[..n], newIds[n], connection, remote[..n], remote[n], now);
    }
  }

  function Synced(rows: Rows, newIds: seq<Uuid>, connection: Uuid, remote: seq<Remote>, now: Time): Rows
    requires |newIds| == |remote|
  {
    WithoutMissing(UpsertAll(rows, newIds, remote, now), connection, Keys(remote), now)
  }

  function ActiveKeys(rows: Rows, connection: Uuid): set<string> {
    set id | id in rows && rows[id].connection == connection && rows[id].archivedAt.None? :: rows[id].externalId
  }

  /** What a sync promises about the table it finds and the table it leaves. */
  ghost predicate IsSynced(rows: Rows, rows': Rows, connection: Uuid, remote: seq<Remote>, now: Time) {
    && ExternalsUnique(rows') && NamesUnique(rows')
    && ActiveKeys(rows', connection) == Keys(remote)
    && rows.Keys <= rows'.Keys
    && (forall id :: id in rows' ==> RowSynced(rows, rows', connection, remote, now, id))
  }

  /**
   A listed zone is as last reported, and as old as it was; other active zones of the
   connection are archived now; all else is untouched.
   */
  ghost predicate RowSynced(rows: Rows, rows': Rows, connection: Uuid, remote: seq<Remote>, now: Time, id: Uuid)
    requires id in rows'
  {
    if IsListed(rows'[id], connection, remote) then
      && Reflects(rows'[id], LastOf(remote, rows'[id].externalId), now)
      && (if id in rows then SameRow(rows[id], rows'[id]) else rows'[id].createdAt == now)
    else
      && id in rows
      && rows'[id] == if rows[id].connection == connection && rows[id].archivedAt.None?
                      then rows[id].(updatedAt := now, archivedAt := Some(now)) else rows[id]
  }

  /**
   When no upsert of a full sync is refused, exactly the listed zones are active, each
   once, with the name and status last reported; rows keep identifier, key and creation
   time through archive and revival; other connections are untouched.
   */
  lemma SyncIsExact(rows: Rows, newIds: seq<Uuid>, connection: Uuid, remote: seq<Remote>, now: Time)
    requires ReadyToSync(rows, newIds, connection, remote) && AllAccepted(rows, newIds, remote, now)
    ensures IsSynced(rows, Synced(rows, newIds, connection, remote, now), connection, remote, now)
  {
    UpsertAllFacts(rows, newIds, connection, remote, now);
    SyncedFromFacts(rows, UpsertAll(rows, newIds, remote, now), newIds, connection, remote, now);
  }

  lemma SyncedFromFacts(rows: Rows, mid: Rows, newIds: seq<Uuid>, connection: Uuid, remote: seq<Remote>, now: Time)
    requires UpsertFacts(rows, mid, newIds, connection, remote, now)
    ensures IsSynced(rows, WithoutMissing(mid, connection, Keys(remote), now), connection, remote, now)
  {
    var rows' := WithoutMissing(mid, connection, Keys(remote), now);
    ArchiveKeepsKeys(mid, connection, Keys(remote), now);
    forall id | id in rows' ensures RowSynced(rows, rows', connection, remote, now, id) {
      SyncedRow(rows, mid, newIds, connection, remote, now, id);
    }
    forall key | key in Keys(remote) ensures key in ActiveKeys(rows', connection) {
      var id :| id in mid && SameExternal(mid[id], connection, key);
      SyncedKey(rows, mid, newIds, connection, remote, now, id);
    }
  }

  lemma SyncedRow(rows: Rows, mid: Rows, newIds: seq<Uuid>, connection: Uuid, remote: seq<Remote>, now: Time, id: Uuid)
    requires id in mid && RowFacts(rows, mid, newIds, connection, remote, now, id)
    requires id in rows ==> SameRow(rows[id], mid[id])
    ensures RowSynced(rows, WithoutMissing(mid, connection, Keys(remote), now), connection, remote, now, id)
  {
  }

  lemma SyncedKey(rows: Rows, mid: Rows, newIds: seq<Uuid>, connection: Uuid, remote: seq<Remote>, now: Time, id: Uuid)
    requires id in mid && RowFacts(rows, mid, newIds, connection, remote, now, id)
    requires IsListed(mid[id], connection, remote)
    ensures mid[id].externalId in ActiveKeys(WithoutMissing(mid, connection, Keys(remote), now), connection)
  {
    assert WithoutMissing(mid, connection, Keys(remote), now)[id] == mid[id];
  }

  // ---------------------------------------------------------------- when a sync goes through

  /**
   Zone `r` may follow the zones in `before`: none of them was last reported with its
   name, and every other stored zone with its name has been reported anew by then.
   */
  ghost predicate MayFollow(rows: Rows, connection: Uuid, before: seq<Remote>, r: Remote) {
    && IsValid(r)
    && (forall key :: key in Keys(before) && key != r.externalId ==> LastOf(before, key).name != r.name)
    && (forall id :: id in rows && SameName(rows[id], connection, r.name) && rows[id].externalId != r.externalId ==>
          rows[id].externalId in Keys(before))
  }

  lemma AcceptedExactly(rows: Rows, mid: Rows, newIds: seq<Uuid>, connection: Uuid, before: seq<Remote>, now: Time,
                        r: Remote)
    requires UpsertFacts(rows, mid, newIds, connection, before, now) && r.connection == connection
    ensures Accepts(mid, r) <==> MayFollow(rows, connection, before, r)
  {
    if NameHeld(mid, r) {
      var id :| id in mid && SameName(mid[id], r.connection, r.name) &&
                !SameExternal(mid[id], r.connection, r.externalId);
      if IsListed(mid[id], connection, before) {
        assert LastOf(before, mid[id].externalId).name == r.name;
      } else {
        assert id in rows && rows[id] == mid[id];
      }
    } else {
      forall key | key in Keys(before) && key != r.externalId ensures LastOf(before, key).name != r.name {
        var id :| id in mid && SameExternal(mid[id], connection, key);
        assert IsListed(mid[id], connection, before);
      }
      forall id | id in rows && SameName(rows[id], connection, r.name) && rows[id].externalId != r.externalId
        ensures rows[id].externalId in Keys(before)
      {
        assert id in mid;
      }
    }
  }

  ghost predicate AllMayFollow(rows: Rows, connection: Uuid, remote: seq<Remote>) {
    remote == [] ||
    var before, r := remote[..|remote| - 1], remote[|remote| - 1];
    AllMayFollow(rows, connection, before) && MayFollow(rows, connection, before, r)
  }

  /** A full sync goes through exactly if every zone may follow those before it: the order of the list matters. */
  lemma {:induction false} SyncAcceptedExactly(rows: Rows, newIds: seq<Uuid>, connection: Uuid, remote: seq<Remote>,
                                               now: Time)
    requires ReadyToSync(rows, newIds, connection, remote)
    ensures AllAccepted(rows, newIds, remote, now) <==> AllMayFollow(rows, connection, remote)
    decreases remote
  {
    if remote == [] {
    } else {
      var n := |remote| - 1;
      ReadyPrefix(rows, newIds, connection, remote, n);
      SyncAcceptedExactly(rows, newIds[..n], connection, remote[..n], now);
      if AllAccepted(rows, newIds[..n], remote[..n], now) {
        UpsertAllFacts(rows, newIds[..n], connection, remote[..n], now);
        var mid := UpsertAll(rows, newIds[..n], remote[..n], now);
        AcceptedExactly(rows, mid, newIds[..n], connection, remote[..n], now, remote[n]);
      }
    }
  }

  lemma ReadyPrefix(rows: Rows, newIds: seq<Uuid>, connection: Uuid, remote: seq<Remote>, n: nat)
    requires ReadyToSync(rows, newIds, connection, remote) && n < |remote|
    ensures ReadyToSync(rows, newIds[..n], connection, remote[..n])
    ensures newIds[n] !in rows && newIds[n] !in newIds[..n] && remote[n].connection == connection
  {
  }
}
