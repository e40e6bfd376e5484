/**
 If all that is known of days, weeks and months is that they follow time, the bound of
 `RetainedAtMost` cannot be improved. The calendar allows a better one: see `CalendarBound`.
 */
module RetentionBound {
  import opened Retention
  import opened RetentionLaws

  /** The number of a period that stays the same for the newest `c + 1` backups and then changes with every one. */
  function Constant(c: nat, i: nat): int {
    if i <= c then 0 else c - i
  }

  /**
   The `i`-th newest backup of a history with one backup per instant, whose days,
   weeks and months only start to change once the quotas before them are used up.
   */
  function At(q: Quotas, i: nat): Entry {
    var last, daily, weekly: nat := Max(1, q.last) - 1, Max(0, q.daily - 1), Max(0, q.weekly - 1);
    Entry(i, 0 - i, Constant(last, i), Constant(last + daily, i), Constant(last + daily + weekly, i))
  }

  function Steps(q: Quotas, n: nat): seq<Entry> {
    seq(n, i requires 0 <= i < n => At(q, i))
  }

  function Down(m: nat): (ks: set<int>)
    ensures |ks| == m + 1
    ensures forall k :: k in ks <==> 0 - m <= k <= 0
  {
    if m == 0 then {0} else Down(m - 1) + {0 - m}
  }

  lemma StepsPeriods(q: Quotas, n: nat, c: nat, tier: Tier)
    requires forall i: nat | i <= n :: Period(At(q, i), tier) == Constant(c, i)
    ensures Periods(Steps(q, n + 1), tier) == Down(if n <= c then 0 else n - c)
  {
    var steps := Steps(q, n + 1);
    var ps, down := Periods(steps, tier), Down(if n <= c then 0 else n - c);
    forall k | k in down ensures k in ps {
      var i: nat := if k == 0 then 0 else c - k;
      assert steps[i] == At(q, i) && Period(At(q, i), tier) == k;
    }
    forall k | k in ps ensures k in down {
      var e :| e in steps && Period(e, tier) == k;
      var i :| 0 <= i <= n && steps[i] == e;
      assert e == At(q, i);
    }
  }

  lemma StepsTier(q: Quotas, i: nat, c: nat, tier: Tier, quota: int)
    requires c < i && i - c < quota
    requires forall j: nat | j <= i :: Period(At(q, j), tier) == Constant(c, j)
    ensures TierKeeps(Steps(q, i), At(q, i), tier, quota)
  {
    StepsPeriods(q, i - 1, c, tier);
    var before := if i - 1 <= c then 0 else i - 1 - c;
    assert Periods(Steps(q, i), tier) == Down(before) && |Down(before)| == before + 1 < quota + 1;
    assert Period(At(q, i), tier) == c - i < 0 - before;
  }

  function UpperBound(q: Quotas): nat {
    Max(1, q.last) + Max(0, q.daily - 1) + Max(0, q.weekly - 1) + Max(0, q.monthly - 1)
  }

  lemma StepKept(q: Quotas, i: nat)
    requires i < UpperBound(q)
    ensures Keeps(q, Steps(q, i), At(q, i))
  {
    var last, daily, weekly := Max(1, q.last) - 1, Max(0, q.daily - 1), Max(0, q.weekly - 1);
    if i <= last {
      assert i == 0 ==> Steps(q, i) == [];
    } else if i <= last + daily {
      StepsTier(q, i, last, Daily, q.daily);
    } else if i <= last + daily + weekly {
      StepsTier(q, i, last + daily, Weekly, q.weekly);
    } else {
      StepsTier(q, i, last + daily + weekly, Monthly, q.monthly);
    }
  }

  lemma {:induction false} AllSelected(q: Quotas, n: nat)
    requires n <= UpperBound(q)
    ensures Select(KeepRule(q), [], Steps(q, n)) == Steps(q, n)
    decreases n
  {
    if n == 0 {
    } else {
      AllSelected(q, n - 1);
      assert Steps(q, n) == Steps(q, n - 1) + [At(q, n - 1)];
      SelectAppend(KeepRule(q), [], Steps(q, n - 1), At(q, n - 1));
      assert [] + Steps(q, n - 1) == Steps(q, n - 1);
      StepKept(q, n - 1);
    }
  }

  lemma StepsOrdered(q: Quotas, n: nat)
    ensures NewestFirst(Steps(q, n)) && DistinctIds(Steps(q, n))
  {
  }

  lemma PeriodsOrdered(q: Quotas, i: nat, j: nat, tier: Tier)
    requires i <= j
    ensures Period(At(q, i), tier) >= Period(At(q, j), tier)
  {
  }

  /** For all quotas some list whose periods follow time, though not those of the calendar, reaches that bound. */
  lemma UpperBoundIsReached(q: Quotas) returns (es: seq<Entry>)
    ensures NewestFirst(es) && DistinctIds(es) && PeriodsFollowTime(es)
    ensures |Kept(q, es)| == Max(1, q.last) + Max(0, q.daily - 1) + Max(0, q.weekly - 1) + Max(0, q.monthly - 1)
  {
    es := Steps(q, UpperBound(q));
    StepsOrdered(q, UpperBound(q));
    forall i, j, tier | 0 <= i < |es| && 0 <= j < |es| && es[i].scheduledAt >= es[j].scheduledAt
      ensures Period(es[i], tier) >= Period(es[j], tier)
    {
      PeriodsOrdered(q, i, j, tier);
    }
    AllSelected(q, UpperBound(q));
  }
}
