/**
 Retention over whole runs of the backup table. Passes work from snapshots that may be
 stale, overlap, prune one backup at a time and may stop anywhere; restores hide backups
 from them; backups become verified in any order. As long as the passes of a policy use
 the same quotas, none of this changes what is kept in the end.
 */
module RetentionRuns {
  import opened Common
  import opened Backups
  import opened BackupRuns
  import opened Calendar
  import Retention
  import RetentionLaws
  import opened RetentionSurvivors

  /** All passes of the policy use these quotas; those of other policies may use any. */
  ghost predicate UsesQuotas(events: seq<Event>, policy: Uuid, q: Retention.Quotas) {
    forall k :: 0 <= k < |events| && events[k].Plan? && events[k].policy == policy ==> events[k].quotas == q
  }

  predicate WasEverVerified(rows: Rows, id: Uuid) {
    id in rows && rows[id].status in {Verified, Pruned}
  }

  /** `e` stands for a backup of the same policy that was verified and is scheduled later than `id`. */
  ghost predicate IsNewer(rows: Rows, id: Uuid, e: Retention.Entry)
    requires id in rows
  {
    && WasEverVerified(rows, e.id) && rows[e.id].policy == rows[id].policy
    && e == EntryAt(rows, e.id) && e.scheduledAt > rows[id].scheduledAt
  }

  /** The rule rejects `id` after these newer backups. */
  ghost predicate RejectedAfter(rows: Rows, q: Retention.Quotas, id: Uuid, newer: seq<Retention.Entry>)
    requires id in rows
  {
    && Retention.DistinctIds(newer)
    && (forall e :: e in newer ==> IsNewer(rows, id, e))
    && !Retention.Keeps(q, newer, EntryAt(rows, id))
  }

  ghost predicate Superseded(rows: Rows, q: Retention.Quotas, id: Uuid)
    requires id in rows
  {
    exists newer :: RejectedAfter(rows, q, id, newer)
  }

  ghost predicate PlansSuperseded(rows: Rows, plans: map<nat, set<Uuid>>, policy: Uuid, q: Retention.Quotas) {
    forall pass, id | pass in plans && id in plans[pass] ::
      id in rows && (rows[id].policy == policy ==> Superseded(rows, q, id))
  }

  ghost predicate PrunedSuperseded(rows: Rows, policy: Uuid, q: Retention.Quotas) {
    forall id | id in rows :: rows[id].policy == policy && rows[id].status == Pruned ==> Superseded(rows, q, id)
  }

  // ---------------------------------------------------------------- what a run keeps up

  /** Backups that were ever verified stay so; being superseded is never lost again. */
  lemma SupersededStays(rows: Rows, rows': Rows, q: Retention.Quotas, id: Uuid)
    requires id in rows && Superseded(rows, q, id) && RowsLater(rows, rows') && RowsInv(rows)
    ensures id in rows' && Superseded(rows', q, id)
  {
    var newer :| RejectedAfter(rows, q, id, newer);
    assert Later(rows[id], rows'[id]);
    forall e | e in newer ensures IsNewer(rows', id, e) {
      assert IsNewer(rows, id, e);
      assert Later(rows[e.id], rows'[e.id]);
    }
    assert RejectedAfter(rows', q, id, newer);
  }

  lemma SnapshotEntry(s: System, policy: Uuid, snapshot: seq<Retention.Entry>, k: nat)
    requires IsSnapshot(s, policy, snapshot) && k < |snapshot|
    ensures IsListed(s, policy, snapshot[k].id) && snapshot[k] == EntryAt(s.rows, snapshot[k].id)
  {
    assert snapshot[k] in snapshot && Listed(s, policy, snapshot[k]);
    EntryIsUnique(snapshot[k]);
  }

  lemma SnapshotNewer(s: System, policy: Uuid, snapshot: seq<Retention.Entry>, k: nat, i: nat)
    requires RowsInv(s.rows) && IsSnapshot(s, policy, snapshot) && k < i < |snapshot|
    ensures snapshot[i].id in s.rows && IsNewer(s.rows, snapshot[i].id, snapshot[k])
  {
    SnapshotEntry(s, policy, snapshot, k);
    SnapshotEntry(s, policy, snapshot, i);
    assert snapshot[k].id != snapshot[i].id;
    assert snapshot[k].scheduledAt >= snapshot[i].scheduledAt;
  }

  /** What a pass selects is rejected after the part of its snapshot in front of it. */
  lemma SelectedSuperseded(s: System, policy: Uuid, snapshot: seq<Retention.Entry>, q: Retention.Quotas, id: Uuid)
    requires RowsInv(s.rows) && IsSnapshot(s, policy, snapshot) && id in Selected(q, snapshot)
    ensures id in s.rows && s.rows[id].policy == policy && Superseded(s.rows, q, id)
  {
    var i := SelectedAt(q, snapshot, id);
    SnapshotEntry(s, policy, snapshot, i);
    forall e | e in snapshot[..i] ensures IsNewer(s.rows, id, e) {
      var k: nat :| k < i && snapshot[k] == e;
      SnapshotNewer(s, policy, snapshot, k, i);
    }
    assert Retention.DistinctIds(snapshot[..i]);
    assert RejectedAfter(s.rows, q, id, snapshot[..i]);
  }

  lemma SelectedAt(q: Retention.Quotas, snapshot: seq<Retention.Entry>, id: Uuid) returns (i: nat)
    requires id in Selected(q, snapshot)
    ensures i < |snapshot| && snapshot[i].id == id && !Retention.Keeps(q, snapshot[..i], snapshot[i])
  {
    var x :| x in Retention.Dropped(q, snapshot) && x.id == id;
    RetentionLaws.KeptByIndex(q, snapshot, x);
    i :| i < |snapshot| && snapshot[i] == x && !Retention.Retained(q, snapshot, i);
  }

  lemma PlansCarry(rows: Rows, rows': Rows, plans: map<nat, set<Uuid>>, policy: Uuid, q: Retention.Quotas)
    requires PlansSuperseded(rows, plans, policy, q) && RowsLater(rows, rows') && RowsInv(rows)
    ensures PlansSuperseded(rows', plans, policy, q)
  {
    forall pass, id | pass in plans && id in plans[pass]
      ensures id in rows' && (rows'[id].policy == policy ==> Superseded(rows', q, id))
    {
      assert Later(rows[id], rows'[id]);
      if rows[id].policy == policy {
        SupersededStays(rows, rows', q, id);
      }
    }
  }

  lemma PlansStayStep(s: System, e: Event, policy: Uuid, q: Retention.Quotas)
    requires RowsInv(s.rows) && Enabled(s, e) && PlansSuperseded(s.rows, s.plans, policy, q)
    requires e.Plan? && e.policy == policy ==> e.quotas == q
    ensures PlansSuperseded(Apply(s, e).rows, Apply(s, e).plans, policy, q)
  {
    if e.Plan? {
      forall id | id in Selected(e.quotas, e.snapshot)
        ensures id in s.rows && (s.rows[id].policy == policy ==> Superseded(s.rows, q, id))
      {
        SelectedSuperseded(s, e.policy, e.snapshot, e.quotas, id);
      }
    } else {
      RowsStep(s, e);
      PlansCarry(s.rows, Apply(s, e).rows, s.plans, policy, q);
    }
  }

  lemma PrunedStayStep(s: System, e: Event, policy: Uuid, q: Retention.Quotas)
    requires RowsInv(s.rows) && Enabled(s, e)
    requires PlansSuperseded(s.rows, s.plans, policy, q) && PrunedSuperseded(s.rows, policy, q)
    ensures PrunedSuperseded(Apply(s, e).rows, policy, q)
  {
    var s' := Apply(s, e);
    RowsStep(s, e);
    forall id | id in s'.rows && s'.rows[id].policy == policy && s'.rows[id].status == Pruned
      ensures Superseded(s'.rows, q, id)
    {
      PrunedBy(s, e, id);
      assert Later(s.rows[id], s'.rows[id]);
      SupersededStays(s.rows, s'.rows, q, id);
    }
  }

  /** In every run, whatever a pass of the policy has on its list or has pruned is superseded. */
  lemma {:induction false} SupersededAlways(trace: seq<System>, events: seq<Event>, n: nat, policy: Uuid,
                                            q: Retention.Quotas)
    requires IsRun(trace, events) && n <= |events| && UsesQuotas(events, policy, q)
    ensures PlansSuperseded(trace[n].rows, trace[n].plans, policy, q)
    ensures PrunedSuperseded(trace[n].rows, policy, q)
  {
    if n > 0 {
      SupersededAlways(trace, events, n - 1, policy, q);
      InvAlways(trace, events, n - 1);
      assert Step(trace[n - 1], events[n - 1], trace[n]);
      PlansStayStep(trace[n - 1], events[n - 1], policy, q);
      PrunedStayStep(trace[n - 1], events[n - 1], policy, q);
    }
  }

  // ---------------------------------------------------------------- listings

  function IdsOf(rows: Rows, policy: Uuid, statuses: set<Status>): set<Uuid> {
    set id | id in rows && rows[id].policy == policy && rows[id].status in statuses
  }

  /** The backups of a policy in some states, newest first. */
  ghost predicate IsListing(rows: Rows, policy: Uuid, statuses: set<Status>, es: seq<Retention.Entry>) {
    Lists(rows, IdsOf(rows, policy, statuses), es)
  }

  lemma ListingExists(rows: Rows, policy: Uuid, statuses: set<Status>) returns (es: seq<Retention.Entry>)
    ensures IsListing(rows, policy, statuses, es)
  {
    es := SortedEntries(rows, IdsOf(rows, policy, statuses));
  }

  const EVER_VERIFIED := {Verified, Pruned}

  /** A backup that was superseded at any time is rejected when all backups ever verified are looked at. */
  lemma SupersededIsRejected(rows: Rows, policy: Uuid, q: Retention.Quotas, all: seq<Retention.Entry>, i: nat)
    requires IsListing(rows, policy, EVER_VERIFIED, all) && i < |all|
    requires all[i].id in rows && Superseded(rows, q, all[i].id)
    ensures !Retention.Retained(q, all, i)
  {
    var newer :| RejectedAfter(rows, q, all[i].id, newer);
    assert all[i] in all;
    forall e | e in newer ensures e in all[..i] {
      NewerInListing(rows, policy, all, i, e);
    }
    DistinctInside(newer, all[..i]);
    RejectedAfterMore(q, newer, all[..i], all[i]);
  }

  lemma NewerInListing(rows: Rows, policy: Uuid, all: seq<Retention.Entry>, i: nat, e: Retention.Entry)
    requires IsListing(rows, policy, EVER_VERIFIED, all)
    requires i < |all| && all[i].id in rows && IsNewer(rows, all[i].id, e)
    ensures e in all[..i]
  {
    assert all[i] in all && all[i].id in IdsOf(rows, policy, EVER_VERIFIED);
    assert e.id in IdsOf(rows, policy, EVER_VERIFIED);
    var k :| 0 <= k < |all| && all[k] == e;
    assert k < i;
  }

  /** Those that a run pruned. */
  function PrunedIds(rows: Rows): set<Uuid> {
    set id | id in rows && rows[id].status == Pruned
  }

  lemma OnlyRejectedArePruned(trace: seq<System>, events: seq<Event>, n: nat, policy: Uuid, q: Retention.Quotas,
                              all: seq<Retention.Entry>)
    requires IsRun(trace, events) && n <= |events| && UsesQuotas(events, policy, q)
    requires IsListing(trace[n].rows, policy, EVER_VERIFIED, all)
    ensures OnlyRejected(q, all, PrunedIds(trace[n].rows))
  {
    SupersededAlways(trace, events, n, policy, q);
    forall i: nat | i < |all| && all[i].id in PrunedIds(trace[n].rows) ensures !Retention.Retained(q, all, i) {
      assert all[i] in all;
      SupersededIsRejected(trace[n].rows, policy, q, all, i);
    }
  }

  // ---------------------------------------------------------------- the laws

  lemma {:induction false} UnmarkedMembers(es: seq<Retention.Entry>, gone: set<Uuid>, e: Retention.Entry)
    ensures e in Retention.Unmarked(es, gone) <==> e in es && e.id !in gone
    decreases es
  {
    if es != [] {
      UnmarkedMembers(es[..|es| - 1], gone, e);
      assert es == es[..|es| - 1] + [es[|es| - 1]];
    }
  }

  lemma {:induction false} UnmarkedOrder(es: seq<Retention.Entry>, gone: set<Uuid>)
    requires RetentionLaws.NewestFirst(es) && Retention.DistinctIds(es)
    ensures RetentionLaws.NewestFirst(Retention.Unmarked(es, gone))
    ensures Retention.DistinctIds(Retention.Unmarked(es, gone))
    decreases es
  {
    if es != [] {
      var before, last := es[..|es| - 1], es[|es| - 1];
      UnmarkedOrder(before, gone);
      forall e | e in Retention.Unmarked(before, gone) ensures e.scheduledAt >= last.scheduledAt && e.id != last.id {
        UnmarkedMembers(before, gone, e);
      }
    }
  }

  ghost predicate SameMembers(a: seq<Retention.Entry>, b: seq<Retention.Entry>) {
    forall e :: e in a <==> e in b
  }

  /** A listing is determined by the table: no two backups of a policy share a scheduled time. */
  lemma {:induction false} SameListing(a: seq<Retention.Entry>, b: seq<Retention.Entry>)
    requires Falling(a) && Falling(b) && SameMembers(a, b)
    ensures a == b
    decreases a
  {
    BothEmpty(a, b);
    if a != [] {
      SameLast(a, b);
      SamePrefixes(a, b);
      SameListing(a[..|a| - 1], b[..|b| - 1]);
      assert a == a[..|a| - 1] + [a[|a| - 1]] && b == b[..|b| - 1] + [b[|b| - 1]];
    }
  }

  lemma SamePrefixes(a: seq<Retention.Entry>, b: seq<Retention.Entry>)
    requires Falling(a) && Falling(b) && SameMembers(a, b) && a != [] && b != [] && a[|a| - 1] == b[|b| - 1]
    ensures SameMembers(a[..|a| - 1], b[..|b| - 1])
  {
    var c, d := a[..|a| - 1], b[..|b| - 1];
    forall e ensures e in c <==> e in d {
      BeforeLast(a, e);
      BeforeLast(b, e);
    }
  }

  lemma SameLast(a: seq<Retention.Entry>, b: seq<Retention.Entry>)
    requires Falling(a) && Falling(b) && a != [] && b != []
    requires SameMembers(a, b)
    ensures a[|a| - 1] == b[|b| - 1]
  {
    assert a[|a| - 1] in b && b[|b| - 1] in a;
  }

  lemma BeforeLast(a: seq<Retention.Entry>, e: Retention.Entry)
    requires Falling(a) && a != []
    ensures e in a[..|a| - 1] <==> e in a && e != a[|a| - 1]
  {
    assert a == a[..|a| - 1] + [a[|a| - 1]];
  }

  lemma BothEmpty(a: seq<Retention.Entry>, b: seq<Retention.Entry>)
    requires SameMembers(a, b)
    ensures a == [] <==> b == []
  {
    assert a != [] ==> a[0] in a;
    assert b != [] ==> b[0] in b;
  }

  ghost predicate Falling(es: seq<Retention.Entry>) {
    forall i, j :: 0 <= i < j < |es| ==> es[i].scheduledAt > es[j].scheduledAt
  }

  lemma ListingFalls(rows: Rows, policy: Uuid, statuses: set<Status>, es: seq<Retention.Entry>)
    requires RowsInv(rows) && IsListing(rows, policy, statuses, es)
    ensures Falling(es)
  {
    forall i, j | 0 <= i < j < |es| ensures es[i].scheduledAt > es[j].scheduledAt {
      assert es[i] in es && es[j] in es;
    }
  }

  /** The verified backups are those ever verified without the pruned ones. */
  lemma VerifiedAreUnpruned(rows: Rows, policy: Uuid, all: seq<Retention.Entry>, verified: seq<Retention.Entry>)
    requires RowsInv(rows)
    requires IsListing(rows, policy, EVER_VERIFIED, all) && IsListing(rows, policy, {Verified}, verified)
    ensures Retention.Unmarked(all, PrunedIds(rows)) == verified
  {
    var left := Retention.Unmarked(all, PrunedIds(rows));
    UnmarkedOrder(all, PrunedIds(rows));
    forall e ensures e in left <==> e in verified {
      UnmarkedMembers(all, PrunedIds(rows), e);
      if e in verified {
        assert e.id in IdsOf(rows, policy, EVER_VERIFIED);
      }
      if e in left {
        assert e.id in IdsOf(rows, policy, {Verified});
      }
    }
    assert IsListing(rows, policy, {Verified}, left);
    ListingFalls(rows, policy, {Verified}, left);
    ListingFalls(rows, policy, {Verified}, verified);
    SameListing(left, verified);
  }

  /**
   After any run, a pass over what is verified keeps exactly what one pass over everything
   that was ever verified keeps, and none of that has been pruned.
   */
  lemma OnlineIsOffline(trace: seq<System>, events: seq<Event>, n: nat, policy: Uuid, q: Retention.Quotas,
                        all: seq<Retention.Entry>, verified: seq<Retention.Entry>)
    requires IsRun(trace, events) && n <= |events| && UsesQuotas(events, policy, q)
    requires IsListing(trace[n].rows, policy, EVER_VERIFIED, all)
    requires IsListing(trace[n].rows, policy, {Verified}, verified)
    ensures Retention.Kept(q, verified) == Retention.Kept(q, all)
    ensures forall e :: e in Retention.Kept(q, all) ==> IsVerified(trace[n], e.id)
  {
    InvAlways(trace, events, n);
    OnlyRejectedArePruned(trace, events, n, policy, q, all);
    VerifiedAreUnpruned(trace[n].rows, policy, all, verified);
    RejectedAreSuperfluous(q, all, PrunedIds(trace[n].rows));
    forall e | e in Retention.Kept(q, all) ensures IsVerified(trace[n], e.id) {
      KeptNotGone(q, all, PrunedIds(trace[n].rows), e);
    }
  }

  lemma KeptNotGone(q: Retention.Quotas, es: seq<Retention.Entry>, gone: set<Uuid>, e: Retention.Entry)
    requires OnlyRejected(q, es, gone) && e in Retention.Kept(q, es)
    ensures e in es && e.id !in gone
  {
    RetentionLaws.KeptByIndex(q, es, e);
    var i: nat :| i < |es| && es[i] == e && Retention.Retained(q, es, i);
  }

  // ---------------------------------------------------------------- an undisturbed pass

  /** The last loop of a pass. */
  function PruneEach(rows: Rows, prune: seq<Retention.Entry>, now: Time): Rows {
    if prune == [] then rows
    else Updated(PruneEach(rows, prune[..|prune| - 1], now), prune[|prune| - 1].id, Prune, now)
  }

  lemma {:induction false} PruneEachRows(rows: Rows, prune: seq<Retention.Entry>, now: Time)
    ensures PruneEach(rows, prune, now).Keys == rows.Keys
    ensures forall id | id in rows ::
              PruneEach(rows, prune, now)[id] ==
              if rows[id].status == Verified && InList(prune, id) then Effect(Prune, rows[id], now) else rows[id]
    decreases prune
  {
    if prune != [] {
      var before, last := prune[..|prune| - 1], prune[|prune| - 1];
      PruneEachRows(rows, before, now);
      forall id ensures InList(prune, id) <==> InList(before, id) || id == last.id {
        assert prune == before + [last];
      }
    }
  }

  predicate InList(es: seq<Retention.Entry>, id: Uuid) {
    exists e :: e in es && e.id == id
  }

  /** Once a pass that sees everything has pruned its list, exactly what the rule keeps of all is verified. */
  lemma PassLeavesKept(trace: seq<System>, events: seq<Event>, n: nat, policy: Uuid, q: Retention.Quotas,
                       all: seq<Retention.Entry>, verified: seq<Retention.Entry>, now: Time)
    requires IsRun(trace, events) && n <= |events| && UsesQuotas(events, policy, q)
    requires IsListing(trace[n].rows, policy, EVER_VERIFIED, all)
    requires IsListing(trace[n].rows, policy, {Verified}, verified)
    ensures IsListing(PruneEach(trace[n].rows, Retention.Dropped(q, verified), now), policy, {Verified},
                      Retention.Kept(q, all))
  {
    OnlineIsOffline(trace, events, n, policy, q, all, verified);
    DeletingLeavesKept(q, verified);
    PrunedListing(trace[n].rows, policy, q, verified, now);
  }

  lemma PrunedListing(rows: Rows, policy: Uuid, q: Retention.Quotas, verified: seq<Retention.Entry>, now: Time)
    requires IsListing(rows, policy, {Verified}, verified)
    ensures IsListing(PruneEach(rows, Retention.Dropped(q, verified), now), policy, {Verified},
                      Retention.Unmarked(verified, DroppedIds(q, verified)))
  {
    var prune, ids := Retention.Dropped(q, verified), DroppedIds(q, verified);
    PruneEachRows(rows, prune, now);
    forall id ensures id in ids <==> InList(prune, id) {
    }
    UnmarkedListing(rows, PruneEach(rows, prune, now), policy, ids, verified);
  }

  /** Taking backups out of the state takes them out of the listing. */
  lemma UnmarkedListing(rows: Rows, rows': Rows, policy: Uuid, ids: set<Uuid>, verified: seq<Retention.Entry>)
    requires IsListing(rows, policy, {Verified}, verified) && rows'.Keys == rows.Keys
    requires forall id | id in rows ::
               && rows'[id].policy == rows[id].policy && rows'[id].scheduledAt == rows[id].scheduledAt
               && (rows'[id].status == Verified <==> rows[id].status == Verified && id !in ids)
    ensures IsListing(rows', policy, {Verified}, Retention.Unmarked(verified, ids))
  {
    var left := Retention.Unmarked(verified, ids);
    UnmarkedOrder(verified, ids);
    forall e ensures e in left <==> e in verified && e.id !in ids {
      UnmarkedMembers(verified, ids, e);
    }
    forall id | id in IdsOf(rows', policy, {Verified}) ensures EntryAt(rows', id) in left {
      assert id in IdsOf(rows, policy, {Verified});
    }
    forall e | e in left
      ensures e.id in rows' && e == EntryAt(rows', e.id) && e.id in IdsOf(rows', policy, {Verified})
    {
      assert e.id in IdsOf(rows, policy, {Verified});
    }
  }
}
