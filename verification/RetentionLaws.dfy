/** The laws of the retention policy: pruning early changes nothing, bounds, monotonicity. */
module RetentionLaws {
  import opened Retention

  // ---------------------------------------------------------------- pruning early

  /**
   `s` is what a first pass saw before some backup, `u` what a single pass over
   the whole list would have seen, `v` what a second pass over the survivors saw.
   The second pass either saw every period or saw enough of them to be full.
   */
  ghost predicate TierRelated(s: seq<Entry>, u: seq<Entry>, v: seq<Entry>, tier: Tier, quota: int) {
    && Periods(s, tier) <= Periods(u, tier)
    && Periods(v, tier) <= Periods(u, tier)
    && (Periods(v, tier) == Periods(u, tier) || |Periods(v, tier)| >= quota)
  }

  ghost predicate Related(q: Quotas, s: seq<Entry>, u: seq<Entry>, v: seq<Entry>) {
    && |s| <= |u| && |v| <= |u|
    && (u == [] <==> v == [])
    && (|v| == |u| || |v| >= q.last)
    && TierRelated(s, u, v, Daily, q.daily)
    && TierRelated(s, u, v, Weekly, q.weekly)
    && TierRelated(s, u, v, Monthly, q.monthly)
  }

  lemma TierStep(s: seq<Entry>, u: seq<Entry>, v: seq<Entry>, x: Entry, tier: Tier, quota: int)
    requires TierRelated(s, u, v, tier, quota)
    ensures TierKeeps(u, x, tier, quota) <==> TierKeeps(v, x, tier, quota)
    ensures TierKeeps(u, x, tier, quota) ==> TierKeeps(s, x, tier, quota)
    ensures TierRelated(s + [x], u + [x], v + [x], tier, quota)
    ensures !TierKeeps(s, x, tier, quota) ==> TierRelated(s + [x], u + [x], v, tier, quota)
  {
    PeriodsAppend(s, x, tier);
    PeriodsAppend(u, x, tier);
    PeriodsAppend(v, x, tier);
    SubsetCard(Periods(s, tier), Periods(u, tier));
    SubsetCard(Periods(v, tier), Periods(u, tier));
    SubsetCard(Periods(v, tier), Periods(v + [x], tier));
  }

  lemma RelatedStep(q: Quotas, s: seq<Entry>, u: seq<Entry>, v: seq<Entry>, x: Entry)
    requires Related(q, s, u, v)
    ensures Keeps(q, u, x) <==> Keeps(q, v, x) && Keeps(q, s, x)
    ensures Keeps(q, s, x) ==> Related(q, s + [x], u + [x], v + [x])
    ensures !Keeps(q, s, x) ==> Related(q, s + [x], u + [x], v)
  {
    TierStep(s, u, v, x, Daily, q.daily);
    TierStep(s, u, v, x, Weekly, q.weekly);
    TierStep(s, u, v, x, Monthly, q.monthly);
  }

  lemma {:induction false} SelectTwice(q: Quotas, s: seq<Entry>, u: seq<Entry>, v: seq<Entry>, es: seq<Entry>)
    requires Related(q, s, u, v)
    ensures Select(KeepRule(q), v, Select(KeepRule(q), s, es)) == Select(KeepRule(q), u, es)
    decreases es
  {
    if es == [] {
    } else {
      var x, rest := es[0], es[1..];
      var k := KeepRule(q);
      RelatedStep(q, s, u, v, x);
      if k(s, x) {
        SelectTwice(q, s + [x], u + [x], v + [x], rest);
        SelectHead(k, v, x, Select(k, s + [x], rest));
      } else {
        SelectTwice(q, s + [x], u + [x], v, rest);
        assert Select(k, s, es) == Select(k, s + [x], rest);
      }
    }
  }

  lemma {:induction false} SelectConcat(rule: Rule, newer: seq<Entry>, a: seq<Entry>, b: seq<Entry>)
    ensures Select(rule, newer, a + b) == Select(rule, newer, a) + Select(rule, newer + a, b)
    decreases a
  {
    if a == [] {
      assert newer + a == newer && a + b == b;
    } else {
      SelectConcat(rule, newer + [a[0]], a[1..], b);
      assert a + b == [a[0]] + (a[1..] + b) && newer + [a[0]] + a[1..] == newer + a;
      SelectHead(rule, newer, a[0], a[1..] + b);
      SelectHead(rule, newer, a[0], a[1..]);
      assert a == [a[0]] + a[1..];
    }
  }

  /** Pruning the older part first and then everything equals pruning everything once. */
  lemma KeptAfterKept(q: Quotas, arrived: seq<Entry>, older: seq<Entry>)
    ensures Kept(q, arrived + Kept(q, older)) == Kept(q, arrived + older)
  {
    SelectConcat(KeepRule(q), [], arrived, Kept(q, older));
    SelectConcat(KeepRule(q), [], arrived, older);
    assert [] + arrived == arrived;
    SelectTwice(q, [], arrived, arrived, older);
  }

  /** A second pass over the survivors prunes nothing. */
  lemma PruningIsIdempotent(q: Quotas, es: seq<Entry>)
    ensures Kept(q, Kept(q, es)) == Kept(q, es)
    ensures Dropped(q, Kept(q, es)) == []
  {
    KeptAfterKept(q, [], es);
    assert [] + es == es && [] + Kept(q, es) == Kept(q, es);
    SelectSizes(KeepRule(q), [], Kept(q, es));
  }

  lemma {:induction false} SelectSizes(rule: Rule, newer: seq<Entry>, es: seq<Entry>)
    ensures |Select(rule, newer, es)| + |Select(Not(rule), newer, es)| == |es|
    decreases es
  {
    if es == [] {
    } else {
      SelectSizes(rule, newer + [es[0]], es[1..]);
    }
  }

  // ---------------------------------------------------------------- the index rule

  /** The positions below `n` that a rule selects. */
  ghost function Positions(rule: Rule, es: seq<Entry>, n: nat): set<nat>
    requires n <= |es|
  {
    set i: nat | i < n && rule(es[..i], es[i])
  }

  lemma PositionsStep(rule: Rule, es: seq<Entry>, n: nat)
    requires n < |es|
    ensures Positions(rule, es, n + 1) == Positions(rule, es, n) + (if rule(es[..n], es[n]) then {n} else {})
    ensures |Positions(rule, es, n + 1)| == |Positions(rule, es, n)| + (if rule(es[..n], es[n]) then 1 else 0)
  {
    assert Positions(rule, es, n + 1) == Positions(rule, es, n) + (if rule(es[..n], es[n]) then {n} else {});
  }

  lemma SelectStep(rule: Rule, es: seq<Entry>, n: nat)
    requires n < |es|
    ensures Select(rule, [], es[..n + 1]) ==
            Select(rule, [], es[..n]) + (if rule(es[..n], es[n]) then [es[n]] else [])
  {
    assert es[..n + 1] == es[..n] + [es[n]] && [] + es[..n] == es[..n];
    SelectAppend(rule, [], es[..n], es[n]);
  }

  lemma {:induction false} SelectSize(rule: Rule, es: seq<Entry>, n: nat)
    requires n <= |es|
    ensures |Select(rule, [], es[..n])| == |Positions(rule, es, n)|
  {
    if n == 0 {
    } else {
      SelectSize(rule, es, n - 1);
      SelectStep(rule, es, n - 1);
      PositionsStep(rule, es, n - 1);
    }
  }

  lemma {:induction false} SelectHas(rule: Rule, es: seq<Entry>, i: nat, n: nat)
    requires i < n <= |es| && rule(es[..i], es[i])
    ensures es[i] in Select(rule, [], es[..n])
    decreases n
  {
    SelectStep(rule, es, n - 1);
    if i < n - 1 {
      SelectHas(rule, es, i, n - 1);
    }
  }

  lemma {:induction false} SelectFrom(rule: Rule, es: seq<Entry>, x: Entry, n: nat) returns (i: nat)
    requires n <= |es| && x in Select(rule, [], es[..n])
    ensures i < n && es[i] == x && rule(es[..i], es[i])
  {
    SelectStep(rule, es, n - 1);
    if x in Select(rule, [], es[..n - 1]) {
      i := SelectFrom(rule, es, x, n - 1);
    } else {
      i := n - 1;
    }
  }

  lemma SelectMembers(rule: Rule, es: seq<Entry>, x: Entry)
    ensures x in Select(rule, [], es) <==> exists i: nat :: i < |es| && es[i] == x && rule(es[..i], es[i])
  {
    assert es[..|es|] == es;
    if x in Select(rule, [], es) {
      var i := SelectFrom(rule, es, x, |es|);
    }
    forall i: nat | i < |es| && es[i] == x && rule(es[..i], es[i]) ensures x in Select(rule, [], es) {
      SelectHas(rule, es, i, |es|);
    }
  }

  /** A pass keeps exactly the backups at retained positions, and drops exactly the others. */
  lemma KeptByIndex(q: Quotas, es: seq<Entry>, x: Entry)
    ensures |Kept(q, es)| == |set i: nat | i < |es| && Retained(q, es, i)|
    ensures x in Kept(q, es) <==> exists i: nat :: i < |es| && es[i] == x && Retained(q, es, i)
    ensures x in Dropped(q, es) <==> exists i: nat :: i < |es| && es[i] == x && !Retained(q, es, i)
  {
    assert es[..|es|] == es;
    SelectSize(KeepRule(q), es, |es|);
    assert Positions(KeepRule(q), es, |es|) == set i: nat | i < |es| && Retained(q, es, i);
    SelectMembers(KeepRule(q), es, x);
    SelectMembers(Not(KeepRule(q)), es, x);
  }

  /** `sub` appears in `es`, in order. */
  predicate Subsequence(sub: seq<Entry>, es: seq<Entry>)
    decreases es
  {
    if es == [] then sub == []
    else Subsequence(sub, es[1..]) || (sub != [] && sub[0] == es[0] && Subsequence(sub[1..], es[1..]))
  }

  lemma {:induction false} SelectIsSubsequence(rule: Rule, newer: seq<Entry>, es: seq<Entry>)
    ensures Subsequence(Select(rule, newer, es), es)
    decreases es
  {
    if es == [] {
    } else {
      SelectIsSubsequence(rule, newer + [es[0]], es[1..]);
      var rest := Select(rule, newer + [es[0]], es[1..]);
      if rule(newer, es[0]) {
        var sub := [es[0]] + rest;
        assert sub[1..] == rest && sub[0] == es[0];
        assert Subsequence(sub, es);
      } else {
        assert [] + rest == rest;
      }
    }
  }

  lemma {:induction false} SelectPartitions(rule: Rule, newer: seq<Entry>, es: seq<Entry>)
    ensures multiset(Select(rule, newer, es)) + multiset(Select(Not(rule), newer, es)) == multiset(es)
    decreases es
  {
    if es == [] {
    } else {
      var x, rest := es[0], es[1..];
      SelectPartitions(rule, newer + [x], rest);
      var kept, dropped := Select(rule, newer + [x], rest), Select(Not(rule), newer + [x], rest);
      PartitionCons(x, kept, dropped, rest);
      assert es == [x] + rest;
      if rule(newer, x) {
        assert Select(rule, newer, es) == [x] + kept && Select(Not(rule), newer, es) == [] + dropped;
      } else {
        assert Select(rule, newer, es) == [] + kept && Select(Not(rule), newer, es) == [x] + dropped;
      }
    }
  }

  lemma PartitionCons(x: Entry, a: seq<Entry>, b: seq<Entry>, all: seq<Entry>)
    requires multiset(a) + multiset(b) == multiset(all)
    ensures multiset([x] + a) + multiset([] + b) == multiset([x] + all)
    ensures multiset([] + a) + multiset([x] + b) == multiset([x] + all)
  {
    assert [] + a == a && [] + b == b;
  }

  /** The pruned and the kept backups are in input order and make up the input. */
  lemma PruneListPartitions(q: Quotas, es: seq<Entry>)
    ensures Subsequence(Dropped(q, es), es) && Subsequence(Kept(q, es), es)
    ensures multiset(Kept(q, es)) + multiset(Dropped(q, es)) == multiset(es)
    ensures es != [] ==> Kept(q, es) != [] && Kept(q, es)[0] == es[0]
  {
    SelectIsSubsequence(KeepRule(q), [], es);
    SelectIsSubsequence(Not(KeepRule(q)), [], es);
    SelectPartitions(KeepRule(q), [], es);
  }

  // ---------------------------------------------------------------- bounds

  function Max(a: int, b: int): int { if a > b then a else b }

  function Min(a: int, b: int): int { if a < b then a else b }

  /** How many more backups the quotas can still keep once `newer` has been seen. */
  function Budget(q: Quotas, newer: seq<Entry>): int {
    Max(0, q.last - |newer|)
    + Max(0, q.daily - |Periods(newer, Daily)|)
    + Max(0, q.weekly - |Periods(newer, Weekly)|)
    + Max(0, q.monthly - |Periods(newer, Monthly)|)
  }

  lemma TierSpends(newer: seq<Entry>, x: Entry, tier: Tier, quota: int)
    ensures var before, after := |Periods(newer, tier)|, |Periods(newer + [x], tier)|;
            after == before + (if Period(x, tier) in Periods(newer, tier) then 0 else 1)
    ensures Max(0, quota - |Periods(newer + [x], tier)|) ==
            Max(0, quota - |Periods(newer, tier)|) - (if TierKeeps(newer, x, tier, quota) then 1 else 0)
  {
    PeriodsAppend(newer, x, tier);
  }

  lemma BudgetSpent(q: Quotas, newer: seq<Entry>, x: Entry)
    requires newer != []
    ensures Budget(q, newer + [x]) <= Budget(q, newer) - (if Keeps(q, newer, x) then 1 else 0)
  {
    TierSpends(newer, x, Daily, q.daily);
    TierSpends(newer, x, Weekly, q.weekly);
    TierSpends(newer, x, Monthly, q.monthly);
  }

  lemma {:induction false} SelectWithinBudget(q: Quotas, newer: seq<Entry>, es: seq<Entry>)
    requires newer != []
    ensures |Select(KeepRule(q), newer, es)| <= Budget(q, newer)
    decreases es
  {
    if es == [] {
    } else {
      BudgetSpent(q, newer, es[0]);
      SelectWithinBudget(q, newer + [es[0]], es[1..]);
    }
  }

  /** The newest backup fills one slot of every quota. */
  lemma RetainedAtMost(q: Quotas, es: seq<Entry>)
    ensures |Kept(q, es)| <= Max(1, q.last) + Max(0, q.daily - 1) + Max(0, q.weekly - 1) + Max(0, q.monthly - 1)
  {
    if es != [] {
      var first := [es[0]];
      assert [] + first == first;
      SelectWithinBudget(q, first, es[1..]);
      assert forall tier: Tier :: Periods(first, tier) == {Period(es[0], tier)};
    }
  }

  lemma {:induction false} SelectAtLeast(q: Quotas, newer: seq<Entry>, es: seq<Entry>)
    ensures |Select(KeepRule(q), newer, es)| >= Min(|es|, q.last - |newer|)
    decreases es
  {
    if es == [] {
    } else {
      SelectAtLeast(q, newer + [es[0]], es[1..]);
    }
  }

  lemma {:induction false} SelectCoversTier(q: Quotas, newer: seq<Entry>, es: seq<Entry>, tier: Tier, quota: int)
    requires forall n, x :: TierKeeps(n, x, tier, quota) ==> Keeps(q, n, x)
    ensures |Select(KeepRule(q), newer, es)| >= Min(quota, |Periods(newer + es, tier)|) - |Periods(newer, tier)|
    decreases es
  {
    if es == [] {
      assert newer + es == newer;
    } else {
      SelectCoversTier(q, newer + [es[0]], es[1..], tier, quota);
      assert newer + [es[0]] + es[1..] == newer + es;
      TierSpends(newer, es[0], tier, quota);
    }
  }

  lemma RetainedAtLeast(q: Quotas, es: seq<Entry>)
    ensures |Kept(q, es)| >= Min(|es|, Max(1, q.last))
    ensures |Kept(q, es)| >= Min(q.daily, |Periods(es, Daily)|)
    ensures |Kept(q, es)| >= Min(q.weekly, |Periods(es, Weekly)|)
    ensures |Kept(q, es)| >= Min(q.monthly, |Periods(es, Monthly)|)
  {
    assert [] + es == es;
    SelectAtLeast(q, [], es);
    SelectCoversTier(q, [], es, Daily, q.daily);
    SelectCoversTier(q, [], es, Weekly, q.weekly);
    SelectCoversTier(q, [], es, Monthly, q.monthly);
  }

  // ---------------------------------------------------------------- monotonicity

  ghost predicate AtMost(a: Quotas, b: Quotas) {
    a.last <= b.last && a.daily <= b.daily && a.weekly <= b.weekly && a.monthly <= b.monthly
  }

  lemma {:induction false} SelectMonotone(weak: Rule, strong: Rule, newer: seq<Entry>, es: seq<Entry>)
    requires forall n, x :: weak(n, x) ==> strong(n, x)
    ensures multiset(Select(weak, newer, es)) <= multiset(Select(strong, newer, es))
    decreases es
  {
    if es == [] {
    } else {
      SelectMonotone(weak, strong, newer + [es[0]], es[1..]);
    }
  }

  /** Raising any quota prunes no backup that was kept before. */
  lemma RaisingQuotasKeepsMore(a: Quotas, b: Quotas, es: seq<Entry>)
    requires AtMost(a, b)
    ensures multiset(Kept(a, es)) <= multiset(Kept(b, es))
    ensures multiset(Dropped(b, es)) <= multiset(Dropped(a, es))
  {
    SelectMonotone(KeepRule(a), KeepRule(b), [], es);
    SelectMonotone(Not(KeepRule(b)), Not(KeepRule(a)), [], es);
  }

  // ---------------------------------------------------------------- what a tier keeps

  ghost predicate NewestFirst(es: seq<Entry>) {
    forall i, j :: 0 <= i < j < |es| ==> es[i].scheduledAt >= es[j].scheduledAt
  }

  /** Later backups are in the same or a later period. */
  ghost predicate PeriodsFollowTime(es: seq<Entry>) {
    forall i, j, tier | 0 <= i < |es| && 0 <= j < |es| && es[i].scheduledAt >= es[j].scheduledAt ::
      Period(es[i], tier) >= Period(es[j], tier)
  }

  ghost predicate PeriodsDescend(es: seq<Entry>, tier: Tier) {
    forall i, j :: 0 <= i < j < |es| ==> Period(es[i], tier) >= Period(es[j], tier)
  }

  /** The periods of `es` that are more recent than period `k`. */
  function PeriodsAfter(es: seq<Entry>, tier: Tier, k: int): set<int> {
    set other | other in Periods(es, tier) && other > k
  }

  /** For the newest backup of a period, the periods before it in the list are the more recent ones. */
  lemma NewerPeriods(es: seq<Entry>, i: nat, tier: Tier)
    requires i < |es| && PeriodsDescend(es, tier)
    requires forall j :: 0 <= j < i ==> Period(es[j], tier) != Period(es[i], tier)
    ensures PeriodsAfter(es, tier, Period(es[i], tier)) == Periods(es[..i], tier)
  {
    forall other | other in Periods(es[..i], tier) ensures other in PeriodsAfter(es, tier, Period(es[i], tier)) {
      var j :| 0 <= j < i && Period(es[j], tier) == other;
      assert es[j] in es;
    }
    forall other | other in PeriodsAfter(es, tier, Period(es[i], tier)) ensures other in Periods(es[..i], tier) {
      var j :| 0 <= j < |es| && Period(es[j], tier) == other;
      assert j < i;
      assert es[j] in es[..i];
    }
  }

  /**
   On a newest-first list a tier keeps a backup exactly if it is the newest of its
   period and fewer than `quota` non-empty periods are more recent.
   */
  lemma TierKeepsMostRecent(es: seq<Entry>, i: nat, tier: Tier, quota: int)
    requires i < |es| && NewestFirst(es) && PeriodsFollowTime(es)
    ensures TierKeeps(es[..i], es[i], tier, quota) <==>
            && (forall j :: 0 <= j < i ==> Period(es[j], tier) != Period(es[i], tier))
            && |PeriodsAfter(es, tier, Period(es[i], tier))| < quota
  {
    assert PeriodsDescend(es, tier);
    if forall j :: 0 <= j < i ==> Period(es[j], tier) != Period(es[i], tier) {
      NewerPeriods(es, i, tier);
    } else {
      var j :| 0 <= j < i && Period(es[j], tier) == Period(es[i], tier);
      assert es[j] in es[..i];
    }
  }

  function OneTierRule(tier: Tier, quota: int): Rule {
    (newer, x) => TierKeeps(newer, x, tier, quota)
  }

  lemma {:induction false} TierUsesQuota(es: seq<Entry>, n: nat, tier: Tier, quota: int)
    requires n <= |es|
    ensures |Positions(OneTierRule(tier, quota), es, n)| + Max(0, quota - |Periods(es[..n], tier)|) == Max(0, quota)
  {
    if n == 0 {
    } else {
      TierUsesQuota(es, n - 1, tier, quota);
      assert es[..n] == es[..n - 1] + [es[n - 1]];
      TierSpends(es[..n - 1], es[n - 1], tier, quota);
      PositionsStep(OneTierRule(tier, quota), es, n - 1);
    }
  }

  /** Alone, a tier keeps one backup for each of its quota-many periods. */
  lemma TierKeepsQuotaMany(es: seq<Entry>, tier: Tier, quota: int)
    ensures |Positions(OneTierRule(tier, quota), es, |es|)| == Min(Max(0, quota), |Periods(es, tier)|)
  {
    TierUsesQuota(es, |es|, tier, quota);
    assert es[..|es|] == es;
  }
}
