/** Restores against prune passes: what protects a backup that a restore needs. */
module RestorePins {
  import opened Common
  import opened Backups
  import opened BackupRuns
  import Retention
  import RetentionLaws
  import Calendar

  /** No running prune pass has the backup on its list. */
  predicate NotSelected(s: System, id: Uuid) {
    forall pass :: pass in s.plans ==> id !in s.plans[pass]
  }

  lemma PinStep(s: System, e: Event, id: Uuid)
    requires Enabled(s, e) && e != Unpin(id)
    requires id in s.pinned && IsVerified(s, id) && NotSelected(s, id)
    ensures var s' := Apply(s, e); id in s'.pinned && IsVerified(s', id) && NotSelected(s', id)
  {
    if e.Plan? {
      SelectedIsListed(s, e.policy, e.snapshot, e.quotas);
    }
  }

  /** A pass selects nothing that is pinned when it looks. */
  lemma SelectedIsListed(s: System, policy: Uuid, snapshot: seq<Retention.Entry>, q: Retention.Quotas)
    requires IsSnapshot(s, policy, snapshot)
    ensures forall id :: id in Selected(q, snapshot) ==> IsListed(s, policy, id)
  {
    forall x | x in Retention.Dropped(q, snapshot) ensures IsListed(s, policy, x.id) {
      RetentionLaws.KeptByIndex(q, snapshot, x);
      assert Listed(s, policy, x);
    }
  }

  /** A verified backup that no pass had selected when a restore pinned it is kept while it stays pinned. */
  lemma {:induction false} PinProtects(trace: seq<System>, events: seq<Event>, m: nat, n: nat, id: Uuid)
    requires IsRun(trace, events) && m <= n <= |events|
    requires id in trace[m].pinned && IsVerified(trace[m], id) && NotSelected(trace[m], id)
    requires forall k :: m <= k < n ==> events[k] != Unpin(id)
    ensures id in trace[n].pinned && IsVerified(trace[n], id) && NotSelected(trace[n], id)
    decreases n
  {
    if m < n {
      PinProtects(trace, events, m, n - 1, id);
      assert Step(trace[n - 1], events[n - 1], trace[n]);
      PinStep(trace[n - 1], events[n - 1], id);
    }
  }

  /** A run that goes on after `n` events without releasing the pin on `id`. */
  ghost predicate KeepsPin(trace: seq<System>, events: seq<Event>, n: nat, id: Uuid) {
    && IsRun(trace, events) && n <= |events|
    && forall k :: n <= k < |events| ==> events[k] != Unpin(id)
  }

  lemma RunExtends(trace: seq<System>, events: seq<Event>, e: Event)
    requires IsRun(trace, events) && Enabled(trace[|events|], e)
    ensures IsRun(trace + [Apply(trace[|events|], e)], events + [e])
  {
    var trace', events' := trace + [Apply(trace[|events|], e)], events + [e];
    forall n {:trigger events'[n]} | 0 <= n < |events'| ensures Step(trace'[n], events'[n], trace'[n + 1]) {
      if n < |events| {
        assert Step(trace[n], events[n], trace[n + 1]);
      }
    }
  }

  /**
   A pinned verified backup is safe in every continuation that keeps the pin
   exactly if no running pass has it on its list at that moment: passes do not look again.
   */
  lemma PinProtectsExactly(trace: seq<System>, events: seq<Event>, id: Uuid)
    requires IsRun(trace, events)
    requires id in trace[|events|].pinned && IsVerified(trace[|events|], id)
    ensures NotSelected(trace[|events|], id) <==>
            forall trace', events' {:trigger KeepsPin(trace', events', |events|, id)} ::
              KeepsPin(trace', events', |events|, id) && trace'[|events|] == trace[|events|] ==>
                IsVerified(trace'[|events'|], id)
  {
    var n := |events|;
    if NotSelected(trace[n], id) {
      forall trace', events' {:trigger KeepsPin(trace', events', n, id)}
        | KeepsPin(trace', events', n, id) && trace'[n] == trace[n]
        ensures IsVerified(trace'[|events'|], id)
      {
        PinProtects(trace', events', n, |events'|, id);
      }
    } else {
      var pass :| pass in trace[n].plans && id in trace[n].plans[pass];
      var e := PruneOne(pass, id, 0);
      RunExtends(trace, events, e);
      assert KeepsPin(trace + [Apply(trace[n], e)], events + [e], n, id);
      assert !IsVerified(Apply(trace[n], e), id);
    }
  }

  // ---------------------------------------------------------------- the overtaken restore

  /** Runs a new backup of policy 0 through to verified. */
  lemma VerifiedBackup(trace: seq<System>, events: seq<Event>, id: Uuid, scheduledAt: Time)
    returns (trace': seq<System>, events': seq<Event>)
    requires IsRun(trace, events)
    requires id !in trace[|events|].rows && !SlotTaken(trace[|events|].rows, 0, scheduledAt)
    ensures IsRun(trace', events')
    ensures var s, s' := trace[|events|], trace'[|events'|];
            && s'.pinned == s.pinned && s'.plans == s.plans
            && s'.rows.Keys == s.rows.Keys + {id} && (forall o :: o in s.rows ==> s'.rows[o] == s.rows[o])
            && IsVerified(s', id) && s'.rows[id].policy == 0 && s'.rows[id].scheduledAt == scheduledAt
  {
    var steps := [Create(id, NewBackup(0, scheduledAt, Pending, "", "")), Work(id, Claim, 0),
                  Work(id, Upload(Artifact("artifact", "", None, [])), 0), Work(id, Verify, 0)];
    var s0 := trace[|events|];
    var s1 := Apply(s0, steps[0]);
    var s2 := Apply(s1, steps[1]);
    var s3 := Apply(s2, steps[2]);
    RunExtends(trace, events, steps[0]);
    RunExtends(trace + [s1], events + [steps[0]], steps[1]);
    RunExtends(trace + [s1] + [s2], events + [steps[0]] + [steps[1]], steps[2]);
    RunExtends(trace + [s1] + [s2] + [s3], events + [steps[0]] + [steps[1]] + [steps[2]], steps[3]);
    trace' := trace + [s1] + [s2] + [s3] + [Apply(s3, steps[3])];
    events' := events + [steps[0]] + [steps[1]] + [steps[2]] + [steps[3]];
  }

  /** So a restore can lose its backup: a pass that had selected it before the restore was requested prunes it. */
  lemma PinnedBackupCanBePruned() returns (trace: seq<System>, events: seq<Event>, m: nat, id: Uuid)
    ensures IsRun(trace, events) && m < |events| && KeepsPin(trace, events, m, id)
    ensures events[m] == Pin(id) && IsVerified(trace[m], id)
    ensures id in trace[|events|].pinned && id in trace[|events|].rows && trace[|events|].rows[id].status == Pruned
  {
    id := 1;
    trace, events := VerifiedBackup([EMPTY], [], 1, 10);
    trace, events := VerifiedBackup(trace, events, 2, 20);
    var plan := Plan(0, 0, TWO, Retention.Quotas(1, 0, 0, 0));
    TwoAreListed(trace[|events|]);
    m := |events| + 1;
    trace, events := OvertakenPin(trace, events, plan, id);
  }

  const TWO := [Retention.Entry(2, 20, 0, 0, 0), Retention.Entry(1, 10, 0, 0, 0)]

  /** With one backup to keep, a pass that sees two selects the older one. */
  lemma TwoAreListed(s: System)
    requires s.rows.Keys == {1, 2} && s.pinned == {} && IsVerified(s, 1) && IsVerified(s, 2)
    requires s.rows[1].policy == 0 && s.rows[1].scheduledAt == 10
    requires s.rows[2].policy == 0 && s.rows[2].scheduledAt == 20
    ensures IsSnapshot(s, 0, TWO) && 1 in Selected(Retention.Quotas(1, 0, 0, 0), TWO)
  {
    TwoFacts();
    forall e | e in TWO ensures Listed(s, 0, e) {
      assert e == TWO[0] || e == TWO[1];
    }
    forall id | IsListed(s, 0, id) ensures exists e :: e in TWO && e.id == id {
      assert id == TWO[0].id || id == TWO[1].id;
      assert TWO[0] in TWO && TWO[1] in TWO;
    }
    OlderOfTwoIsSelected();
  }

  lemma TwoFacts()
    ensures RetentionLaws.NewestFirst(TWO) && Retention.DistinctIds(TWO) && Calendar.AllOnCalendar(TWO)
  {
    Calendar.NextMonth(0);
    assert forall e :: e in TWO ==> e == TWO[0] || e == TWO[1];
  }

  lemma OlderOfTwoIsSelected()
    ensures 1 in Selected(Retention.Quotas(1, 0, 0, 0), TWO)
  {
    var q := Retention.Quotas(1, 0, 0, 0);
    RetentionLaws.KeptByIndex(q, TWO, TWO[1]);
    assert !Retention.Retained(q, TWO, 1);
    assert TWO[1] in Retention.Dropped(q, TWO);
  }

  /** Pass 0 plans, the restore pins, pass 0 prunes. */
  lemma OvertakenPin(trace: seq<System>, events: seq<Event>, plan: Event, id: Uuid)
    returns (trace': seq<System>, events': seq<Event>)
    requires IsRun(trace, events) && Enabled(trace[|events|], plan) && plan.Plan? && plan.pass == 0
    requires IsVerified(trace[|events|], id) && id in Selected(plan.quotas, plan.snapshot)
    ensures var m := |events| + 1;
            && IsRun(trace', events') && |events'| == m + 2 && KeepsPin(trace', events', m, id)
            && events'[m] == Pin(id) && IsVerified(trace'[m], id)
            && id in trace'[m + 2].pinned && id in trace'[m + 2].rows && trace'[m + 2].rows[id].status == Pruned
  {
    var prune := PruneOne(0, id, 0);
    var s1 := Apply(trace[|events|], plan);
    var s2 := Apply(s1, Pin(id));
    RunExtends(trace, events, plan);
    RunExtends(trace + [s1], events + [plan], Pin(id));
    RunExtends(trace + [s1] + [s2], events + [plan] + [Pin(id)], prune);
    trace' := trace + [s1] + [s2] + [Apply(s2, prune)];
    events' := events + [plan] + [Pin(id)] + [prune];
  }
}
