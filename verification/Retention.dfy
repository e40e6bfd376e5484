/**
 Which verified backups a prune pass keeps.

 The source walks a newest-first list once and lets four overlapping quotas
 (last, daily, weekly, monthly) mark backups to keep. Here a backup is kept or
 dropped by looking at the newer backups alone (`Keeps`); the loop is proved to
 compute exactly that, and the laws of the policy are proved about it.
 */
module Retention {
  import opened Common

  /** A backup with the numbers of the day, ISO week and month its scheduled time falls in. */
  datatype Entry = Entry(id: Uuid, scheduledAt: Time, day: int, week: int, month: int)

  datatype Quotas = Quotas(last: int, daily: int, weekly: int, monthly: int)

  datatype Tier = Daily | Weekly | Monthly

  function Period(e: Entry, tier: Tier): int {
    match tier
    case Daily => e.day
    case Weekly => e.week
    case Monthly => e.month
  }

  /** The periods that `es` touches. */
  function Periods(es: seq<Entry>, tier: Tier): (ps: set<int>)
    ensures es == [] ==> ps == {}
  {
    set e | e in es :: Period(e, tier)
  }

  /** One tier keeps `x` if it opens a new period and the tier is not full yet. */
  predicate TierKeeps(newer: seq<Entry>, x: Entry, tier: Tier, quota: int) {
    Period(x, tier) !in Periods(newer, tier) && |Periods(newer, tier)| < quota
  }

  predicate SomeTierKeeps(q: Quotas, newer: seq<Entry>, x: Entry) {
    || TierKeeps(newer, x, Daily, q.daily)
    || TierKeeps(newer, x, Weekly, q.weekly)
    || TierKeeps(newer, x, Monthly, q.monthly)
  }

  /** The rule: `x` is kept when exactly the backups in `newer` precede it. */
  predicate Keeps(q: Quotas, newer: seq<Entry>, x: Entry) {
    || newer == []
    || |newer| < q.last
    || SomeTierKeeps(q, newer, x)
  }

  predicate Retained(q: Quotas, es: seq<Entry>, i: nat)
    requires i < |es|
  {
    Keeps(q, es[..i], es[i])
  }

  /** Decides an entry from the entries that are newer than it. */
  type Rule = (seq<Entry>, Entry) -> bool

  function KeepRule(q: Quotas): Rule {
    (newer, x) => Keeps(q, newer, x)
  }

  /** The part of `es` a rule selects, in order, given that `newer` precedes it. */
  function Select(rule: Rule, newer: seq<Entry>, es: seq<Entry>): seq<Entry>
    decreases es
  {
    if es == [] then []
    else (if rule(newer, es[0]) then [es[0]] else []) + Select(rule, newer + [es[0]], es[1..])
  }

  function Not(rule: Rule): Rule {
    (newer, x) => !rule(newer, x)
  }

  function Kept(q: Quotas, es: seq<Entry>): seq<Entry> {
    Select(KeepRule(q), [], es)
  }

  function Dropped(q: Quotas, es: seq<Entry>): seq<Entry> {
    Select(Not(KeepRule(q)), [], es)
  }

  ghost predicate DistinctIds(es: seq<Entry>) {
    forall i, j :: 0 <= i < j < |es| ==> es[i].id != es[j].id
  }

  // ---------------------------------------------------------------- sizes of sets

  lemma {:induction false} SubsetCard<T>(a: set<T>, b: set<T>)
    requires a <= b
    ensures |a| <= |b|
    ensures |a| == |b| ==> a == b
    decreases a
  {
    if a == {} {
    } else {
      var x :| x in a;
      SubsetCard(a - {x}, b - {x});
      assert a == (a - {x}) + {x} && b == (b - {x}) + {x};
    }
  }

  lemma PeriodsAppend(es: seq<Entry>, x: Entry, tier: Tier)
    ensures Periods(es + [x], tier) == Periods(es, tier) + {Period(x, tier)}
  {
    assert forall e :: e in es + [x] <==> e in es || e == x;
  }

  // ---------------------------------------------------------------- the loop

  function TierRule(q: Quotas): Rule {
    (newer, x) => SomeTierKeeps(q, newer, x)
  }

  /** The identifiers a rule selects among the first `n` entries. */
  function SelectedIds(rule: Rule, es: seq<Entry>, n: nat): set<Uuid>
    requires n <= |es|
  {
    if n == 0 then {}
    else
      var before := SelectedIds(rule, es, n - 1);
      if rule(es[..n - 1], es[n - 1]) then before + {es[n - 1].id} else before
  }

  /** The identifiers the first loop marks: the newest backup and the newest `last` ones. */
  function NewestIds(q: Quotas, es: seq<Entry>): set<Uuid> {
    set j | 0 <= j < |es| && (j == 0 || j < q.last) :: es[j].id
  }

  function Marked(q: Quotas, es: seq<Entry>): set<Uuid> {
    NewestIds(q, es) + SelectedIds(TierRule(q), es, |es|)
  }

  function Unmarked(es: seq<Entry>, marked: set<Uuid>): seq<Entry> {
    if es == [] then []
    else Unmarked(es[..|es| - 1], marked) +
         (if es[|es| - 1].id in marked then [] else [es[|es| - 1]])
  }

  predicate Opens(seen: map<int, bool>, x: Entry, tier: Tier, quota: int) {
    |seen| < quota && Period(x, tier) !in seen
  }

  /** What a tier's map of periods holds once the first `n` entries have gone by. */
  function Filled(es: seq<Entry>, n: nat, tier: Tier, quota: int): map<int, bool>
    requires n <= |es|
  {
    if n == 0 then map[]
    else
      var seen := Filled(es, n - 1, tier, quota);
      if Opens(seen, es[n - 1], tier, quota) then seen[Period(es[n - 1], tier) := true] else seen
  }

  /** The map holds every period so far, or as many as the quota allows. */
  lemma {:induction false} FilledFacts(es: seq<Entry>, n: nat, tier: Tier, quota: int)
    requires n <= |es|
    ensures var seen := Filled(es, n, tier, quota);
            seen.Keys <= Periods(es[..n], tier) && (|seen| < quota ==> seen.Keys == Periods(es[..n], tier))
  {
    if n > 0 {
      FilledFacts(es, n - 1, tier, quota);
      assert es[..n] == es[..n - 1] + [es[n - 1]];
      PeriodsAppend(es[..n - 1], es[n - 1], tier);
    }
  }

  /** So looking at the map decides like looking at all newer backups. */
  lemma FilledDecides(es: seq<Entry>, n: nat, tier: Tier, quota: int)
    requires n < |es|
    ensures Opens(Filled(es, n, tier, quota), es[n], tier, quota) <==> TierKeeps(es[..n], es[n], tier, quota)
  {
    FilledFacts(es, n, tier, quota);
    SubsetCard(Filled(es, n, tier, quota).Keys, Periods(es[..n], tier));
  }

  predicate SomeTierOpens(q: Quotas, es: seq<Entry>, n: nat)
    requires n < |es|
  {
    || Opens(Filled(es, n, Daily, q.daily), es[n], Daily, q.daily)
    || Opens(Filled(es, n, Weekly, q.weekly), es[n], Weekly, q.weekly)
    || Opens(Filled(es, n, Monthly, q.monthly), es[n], Monthly, q.monthly)
  }

  /** The identifiers marked after `n` rounds of the second loop. */
  function MarkedAfter(q: Quotas, es: seq<Entry>, marked: set<Uuid>, n: nat): set<Uuid>
    requires n <= |es|
  {
    if n == 0 then marked
    else if SomeTierOpens(q, es, n - 1) then MarkedAfter(q, es, marked, n - 1) + {es[n - 1].id}
    else MarkedAfter(q, es, marked, n - 1)
  }

  lemma SomeTierOpensByTheRule(q: Quotas, es: seq<Entry>, n: nat)
    requires n < |es|
    ensures SomeTierOpens(q, es, n) <==> TierRule(q)(es[..n], es[n])
  {
    FilledDecides(es, n, Daily, q.daily);
    FilledDecides(es, n, Weekly, q.weekly);
    FilledDecides(es, n, Monthly, q.monthly);
  }

  lemma SelectedIdsStep(rule: Rule, es: seq<Entry>, marked: set<Uuid>, n: nat)
    requires n < |es|
    ensures marked + SelectedIds(rule, es, n + 1) ==
            if rule(es[..n], es[n])
            then marked + SelectedIds(rule, es, n) + {es[n].id}
            else marked + SelectedIds(rule, es, n)
  {
  }

  lemma {:induction false} MarkedByRule(rule: Rule, q: Quotas, es: seq<Entry>, marked: set<Uuid>, n: nat)
    requires n <= |es| && forall i: nat | i < n :: rule(es[..i], es[i]) == SomeTierOpens(q, es, i)
    ensures MarkedAfter(q, es, marked, n) == marked + SelectedIds(rule, es, n)
  {
    if n > 0 {
      MarkedByRule(rule, q, es, marked, n - 1);
      SelectedIdsStep(rule, es, marked, n - 1);
    }
  }

  lemma MarkedByTheRule(q: Quotas, es: seq<Entry>, marked: set<Uuid>)
    ensures MarkedAfter(q, es, marked, |es|) == marked + SelectedIds(TierRule(q), es, |es|)
  {
    forall i: nat | i < |es| ensures TierRule(q)(es[..i], es[i]) == SomeTierOpens(q, es, i) {
      SomeTierOpensByTheRule(q, es, i);
    }
    MarkedByRule(TierRule(q), q, es, marked, |es|);
  }

  /** One of the three tier steps in the body of the second loop. */
  method OfferToTier(seen: map<int, bool>, keep: set<Uuid>, x: Entry, tier: Tier, quota: int)
    returns (seen': map<int, bool>, keep': set<Uuid>)
    ensures seen' == if Opens(seen, x, tier, quota) then seen[Period(x, tier) := true] else seen
    ensures keep' == if Opens(seen, x, tier, quota) then keep + {x.id} else keep
  {
    seen', keep' := seen, keep;
    if |seen| < quota && Period(x, tier) !in seen {
      seen' := seen[Period(x, tier) := true];
      keep' := keep + {x.id};
    }
  }

  /** The body of the second loop. */
  method OfferToTiers(daily: map<int, bool>, weekly: map<int, bool>, monthly: map<int, bool>, keep: set<Uuid>,
                      x: Entry, q: Quotas)
    returns (daily': map<int, bool>, weekly': map<int, bool>, monthly': map<int, bool>, keep': set<Uuid>)
    ensures daily' == if Opens(daily, x, Daily, q.daily) then daily[x.day := true] else daily
    ensures weekly' == if Opens(weekly, x, Weekly, q.weekly) then weekly[x.week := true] else weekly
    ensures monthly' == if Opens(monthly, x, Monthly, q.monthly) then monthly[x.month := true] else monthly
    ensures keep' == if Opens(daily, x, Daily, q.daily) || Opens(weekly, x, Weekly, q.weekly) ||
                        Opens(monthly, x, Monthly, q.monthly) then keep + {x.id} else keep
  {
    daily', keep' := OfferToTier(daily, keep, x, Daily, q.daily);
    weekly', keep' := OfferToTier(weekly, keep', x, Weekly, q.weekly);
    monthly', keep' := OfferToTier(monthly, keep', x, Monthly, q.monthly);
  }

  /** The first loop: the newest backup and the newest `last` ones. */
  method MarkNewest(backups: seq<Entry>, q: Quotas) returns (keep: set<Uuid>)
    requires backups != []
    ensures keep == NewestIds(q, backups)
  {
    keep := {backups[0].id};
    var index := 0;
    while index < q.last && index < |backups|
      invariant 0 <= index <= |backups| && (index <= q.last || index == 0)
      invariant keep == {backups[0].id} + set j | 0 <= j < index :: backups[j].id
    {
      keep := keep + {backups[index].id};
      index := index + 1;
    }
  }

  /** The second loop: every backup is offered to the three tiers. */
  method MarkTiers(backups: seq<Entry>, q: Quotas, marked: set<Uuid>) returns (keep: set<Uuid>)
    ensures keep == marked + SelectedIds(TierRule(q), backups, |backups|)
  {
    keep := marked;
    var daily: map<int, bool>, weekly: map<int, bool>, monthly: map<int, bool> := map[], map[], map[];
    var i := 0;
    while i < |backups|
      invariant 0 <= i <= |backups|
      invariant daily == Filled(backups, i, Daily, q.daily)
      invariant weekly == Filled(backups, i, Weekly, q.weekly)
      invariant monthly == Filled(backups, i, Monthly, q.monthly)
      invariant keep == MarkedAfter(q, backups, marked, i)
    {
      daily, weekly, monthly, keep := OfferToTiers(daily, weekly, monthly, keep, backups[i], q);
      i := i + 1;
    }
    MarkedByTheRule(q, backups, marked);
  }

  /** The third loop: everything after the newest backup that was not marked. */
  method CollectUnmarked(backups: seq<Entry>, keep: set<Uuid>) returns (prune: seq<Entry>)
    requires backups != []
    ensures prune == Unmarked(backups[1..], keep)
  {
    prune := [];
    var k := 1;
    while k < |backups|
      invariant 1 <= k <= |backups|
      invariant prune == Unmarked(backups[1..k], keep)
    {
      assert backups[1..k + 1][..k - 1] == backups[1..k];
      if backups[k].id !in keep {
        prune := prune + [backups[k]];
      }
      k := k + 1;
    }
    assert backups[1..k] == backups[1..];
  }

  method SelectBackupsToPrune(backups: seq<Entry>, q: Quotas) returns (prune: seq<Entry>)
    ensures |backups| <= 1 ==> prune == []
    ensures |backups| > 1 ==> prune == Unmarked(backups[1..], Marked(q, backups))
    ensures DistinctIds(backups) ==> prune == Dropped(q, backups)
  {
    if |backups| <= 1 {
      prune := [];
    } else {
      var newest := MarkNewest(backups, q);
      var keep := MarkTiers(backups, q, newest);
      prune := CollectUnmarked(backups, keep);
    }
    if DistinctIds(backups) && backups != [] {
      UnmarkedIsDropped(q, backups, |backups|);
      assert backups[..|backups|] == backups && backups[1..|backups|] == backups[1..];
    }
  }

  lemma {:induction false} SelectAppend(rule: Rule, newer: seq<Entry>, es: seq<Entry>, x: Entry)
    ensures Select(rule, newer, es + [x]) ==
            Select(rule, newer, es) + (if rule(newer + es, x) then [x] else [])
    decreases es
  {
    if es == [] {
      assert newer + es == newer && es + [x] == [x];
      assert Select(rule, newer + [x], [x][1..]) == [];
    } else {
      SelectAppend(rule, newer + [es[0]], es[1..], x);
      assert newer + [es[0]] + es[1..] == newer + es;
      SelectHead(rule, newer, es[0], es[1..] + [x]);
      SelectHead(rule, newer, es[0], es[1..]);
      assert [es[0]] + (es[1..] + [x]) == es + [x] && [es[0]] + es[1..] == es;
    }
  }

  lemma SelectHead(rule: Rule, newer: seq<Entry>, x: Entry, rest: seq<Entry>)
    ensures Select(rule, newer, [x] + rest) ==
            (if rule(newer, x) then [x] else []) + Select(rule, newer + [x], rest)
  {
    assert ([x] + rest)[1..] == rest;
  }

  lemma {:induction false} SelectedIdAt(rule: Rule, es: seq<Entry>, n: nat, k: nat)
    requires DistinctIds(es) && n <= |es| && k < |es|
    ensures es[k].id in SelectedIds(rule, es, n) <==> k < n && rule(es[..k], es[k])
    decreases n
  {
    if n > 0 {
      SelectedIdAt(rule, es, n - 1, k);
    }
  }

  lemma MarkedAt(q: Quotas, es: seq<Entry>, k: nat)
    requires DistinctIds(es) && k < |es|
    ensures es[k].id in Marked(q, es) <==> KeepRule(q)(es[..k], es[k])
  {
    SelectedIdAt(TierRule(q), es, |es|, k);
    assert (k == 0 || k < q.last) ==> es[k].id in NewestIds(q, es);
  }

  /** With distinct identifiers, marking by identifier is marking by position. */
  lemma {:induction false} UnmarkedIsDropped(q: Quotas, es: seq<Entry>, n: nat)
    requires DistinctIds(es) && 1 <= n <= |es|
    ensures Unmarked(es[1..n], Marked(q, es)) == Dropped(q, es[..n])
    decreases n
  {
    var x := es[n - 1];
    assert es[..n] == es[..n - 1] + [x] && [] + es[..n - 1] == es[..n - 1];
    SelectAppend(Not(KeepRule(q)), [], es[..n - 1], x);
    MarkedAt(q, es, n - 1);
    if n == 1 {
      assert es[..0] == [];
    } else {
      UnmarkedIsDropped(q, es, n - 1);
      assert es[1..n][..n - 2] == es[1..n - 1];
    }
  }
}
