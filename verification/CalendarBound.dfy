/**
 How many backups are kept when days, weeks and months are those of the calendar. A week
 has only seven days, so daily backups use up weekly ones; the bound takes that into
 account and is reached.
 */
module CalendarBound {
  import opened Retention
  import opened RetentionLaws
  import opened Calendar
  import RetentionBound

  /** The weeks that `daily` daily backups fill at least. */
  function FullWeeks(q: Quotas): (c: int)
    ensures c >= 0 && (q.daily > 0 ==> DAYS_PER_WEEK * (c - 1) < q.daily <= DAYS_PER_WEEK * c)
    ensures q.daily <= 0 ==> c == 0
  {
    if q.daily <= 0 then 0 else (q.daily + DAYS_PER_WEEK - 1) / DAYS_PER_WEEK
  }

  function FullMonths(q: Quotas): (c: int)
    ensures c >= 0 && (q.daily > 0 ==> LONGEST_MONTH * (c - 1) < q.daily <= LONGEST_MONTH * c)
    ensures q.daily <= 0 ==> c == 0
  {
    if q.daily <= 0 then 0 else (q.daily + LONGEST_MONTH - 1) / LONGEST_MONTH
  }

  function Bound(q: Quotas): nat {
    Max(1, q.last) + Max(0, q.daily - 1) + Max(0, q.weekly - Max(1, FullWeeks(q)))
    + Max(0, q.monthly - Max(1, FullMonths(q)))
  }

  // ---------------------------------------------------------------- the bound holds

  /** How many more backups the quotas can still keep once `newer` has been seen. */
  function CalendarBudget(q: Quotas, newer: seq<Entry>): int {
    Max(0, q.last - |newer|)
    + Max(0, q.daily - |Periods(newer, Daily)|)
    + Max(0, q.weekly - Max(|Periods(newer, Weekly)|, FullWeeks(q)))
    + Max(0, q.monthly - Max(|Periods(newer, Monthly)|, FullMonths(q)))
  }

  /** A tier that keeps what the daily tier does not has at least the periods the daily quota fills. */
  lemma TierAfterDaily(q: Quotas, newer: seq<Entry>, x: Entry)
    requires AllOnCalendar(newer) && OnCalendar(x) && !TierKeeps(newer, x, Daily, q.daily)
    ensures TierKeeps(newer, x, Weekly, q.weekly) ==> |Periods(newer, Weekly)| >= FullWeeks(q)
    ensures TierKeeps(newer, x, Monthly, q.monthly) ==> |Periods(newer, Monthly)| >= FullMonths(q)
  {
    if x.day in Periods(newer, Daily) {
      var e :| e in newer && Period(e, Daily) == x.day;
      DayDecides(e, x);
      assert Period(e, Weekly) in Periods(newer, Weekly) && Period(e, Monthly) in Periods(newer, Monthly);
    } else {
      DaysPerPeriod(newer);
    }
  }

  lemma CalendarBudgetSpent(q: Quotas, newer: seq<Entry>, x: Entry)
    requires newer != [] && AllOnCalendar(newer) && OnCalendar(x)
    ensures CalendarBudget(q, newer + [x]) <= CalendarBudget(q, newer) - (if Keeps(q, newer, x) then 1 else 0)
  {
    TierSpends(newer, x, Daily, q.daily);
    TierSpends(newer, x, Weekly, q.weekly);
    TierSpends(newer, x, Monthly, q.monthly);
    if !TierKeeps(newer, x, Daily, q.daily) {
      TierAfterDaily(q, newer, x);
    }
  }

  lemma {:induction false} SelectWithinCalendar(q: Quotas, newer: seq<Entry>, es: seq<Entry>)
    requires newer != [] && AllOnCalendar(newer) && AllOnCalendar(es)
    ensures |Select(KeepRule(q), newer, es)| <= CalendarBudget(q, newer)
    decreases es
  {
    if es == [] {
    } else {
      CalendarBudgetSpent(q, newer, es[0]);
      SelectWithinCalendar(q, newer + [es[0]], es[1..]);
    }
  }

  /** For all quotas and lists. */
  lemma RetainedAtMostOnCalendar(q: Quotas, es: seq<Entry>)
    requires AllOnCalendar(es)
    ensures |Kept(q, es)| <= Bound(q)
  {
    if es != [] {
      var first := [es[0]];
      assert [] + first == first;
      forall tier ensures Periods(first, tier) == {Period(es[0], tier)} {
        PeriodsAppend([], es[0], tier);
        assert [] + [es[0]] == first;
      }
      SelectWithinCalendar(q, first, es[1..]);
    }
  }

  // ---------------------------------------------------------------- quotas that the calendar can fill

  predicate EndsOnSunday(month: int) {
    FirstDay(month + 1) % DAYS_PER_WEEK == 0
  }

  /** The last day of the month that is `i` months before the newest one. */
  function MonthEnd(newest: int, i: int): int {
    FirstDay(newest - i + 1) - 1
  }

  /** The days of daily backups: as many as the quota, back from the end of the newest month. */
  function DailyDays(q: Quotas): nat {
    Max(1, q.daily)
  }

  /** The `i`-th month end is neither one of these days nor one of the Sundays kept for their week alone. */
  predicate IsClear(q: Quotas, newest: int, i: int) {
    var back := MonthEnd(newest, 0) - MonthEnd(newest, i);
    && back >= DailyDays(q)
    && !(back % DAYS_PER_WEEK == 0 && Max(1, FullWeeks(q)) <= back / DAYS_PER_WEEK < q.weekly)
  }

  /**
   The quotas can be filled back from the end of a month that ends on a Sunday: the newest
   day has room for the newest backups, and month ends do not count for other quotas too.
   */
  predicate Fits(q: Quotas, newest: int) {
    && q.last <= TICKS_PER_DAY && EndsOnSunday(newest)
    && forall i :: Max(1, FullMonths(q)) <= i < q.monthly ==> IsClear(q, newest, i)
  }

  lemma MonthsBefore2027()
    ensures FirstDay(0) == 0 && FirstDay(-1) == -31 && FirstDay(-2) == -62 && FirstDay(-3) == -92
    ensures FirstDay(-4) == -123 && FirstDay(-5) == -153 && FirstDay(-6) == -184 && FirstDay(-7) == -215
    ensures FirstDay(-8) == -245
  {
  }

  /** Back from Sunday, 31 January 2027: no month before June 2026 starts on a Monday, and that is 35 weeks back. */
  lemma FitsUsually(q: Quotas)
    requires q.last <= TICKS_PER_DAY
    requires q.monthly <= 1 || (q.daily <= 31 && (q.monthly <= 8 || q.weekly <= 35))
    ensures Fits(q, -1)
  {
    MonthsBefore2027();
    forall i | Max(1, FullMonths(q)) <= i < q.monthly ensures IsClear(q, -1, i) {
      if i > 8 {
        MonthsFollow(0 - i, -9);
        NextMonth(-9);
      }
    }
  }

  // ---------------------------------------------------------------- the days of the witness

  /** The days `from` to `from + count - 1` whole weeks before `last`. */
  function Sundays(last: int, from: nat, count: nat): set<int> {
    if count == 0 then {} else Sundays(last, from, count - 1) + {last - DAYS_PER_WEEK * (from + count - 1)}
  }

  predicate IsWeeksBack(last: int, from: nat, count: nat, day: int) {
    exists j {:trigger WeeksBack(last, j)} :: from <= j < from + count && day == WeeksBack(last, j)
  }

  function WeeksBack(last: int, j: int): int {
    last - DAYS_PER_WEEK * j
  }

  lemma {:induction false} SundaysFacts(last: int, from: nat, count: nat)
    ensures |Sundays(last, from, count)| == count
    ensures forall d :: d in Sundays(last, from, count) ==> IsWeeksBack(last, from, count, d)
    decreases count
  {
    if count > 0 {
      SundaysFacts(last, from, count - 1);
      var oldest, before := WeeksBack(last, from + count - 1), Sundays(last, from, count - 1);
      forall d | d in before ensures d != oldest && IsWeeksBack(last, from, count, d) {
        var j :| from <= j < from + count - 1 && d == WeeksBack(last, j);
      }
      assert IsWeeksBack(last, from, count, oldest);
    }
  }

  function MonthEnds(newest: int, from: nat, count: nat): set<int> {
    if count == 0 then {} else MonthEnds(newest, from, count - 1) + {MonthEnd(newest, from + count - 1)}
  }

  predicate IsMonthEnd(newest: int, from: nat, count: nat, day: int) {
    exists i :: from <= i < from + count && day == MonthEnd(newest, i)
  }

  lemma {:induction false} MonthEndsFacts(newest: int, from: nat, count: nat)
    ensures |MonthEnds(newest, from, count)| == count
    ensures forall d :: d in MonthEnds(newest, from, count) ==> IsMonthEnd(newest, from, count, d)
    decreases count
  {
    if count > 0 {
      MonthEndsFacts(newest, from, count - 1);
      var last, ends := MonthEnd(newest, from + count - 1), MonthEnds(newest, from, count - 1);
      forall d | d in ends ensures d != last && IsMonthEnd(newest, from, count, d) {
        var i :| from <= i < from + count - 1 && d == MonthEnd(newest, i);
        EarlierMonthEnd(newest, i, from + count - 1);
      }
      assert IsMonthEnd(newest, from, count, last);
    }
  }

  lemma EarlierMonthEnd(newest: int, i: int, j: int)
    requires i < j
    ensures MonthEnd(newest, j) < MonthEnd(newest, i)
  {
    MonthsFollow(newest - j + 1, newest - i + 1);
  }

  function WeeksBeyond(q: Quotas): nat {
    Max(0, q.weekly - Max(1, FullWeeks(q)))
  }

  function MonthsBeyond(q: Quotas): nat {
    Max(0, q.monthly - Max(1, FullMonths(q)))
  }

  function DailyPart(q: Quotas, newest: int): set<int> {
    Interval(MonthEnd(newest, 0) - DailyDays(q) + 1, DailyDays(q))
  }

  function WeeklyPart(q: Quotas, newest: int): set<int> {
    Sundays(MonthEnd(newest, 0), Max(1, FullWeeks(q)), WeeksBeyond(q))
  }

  function MonthlyPart(q: Quotas, newest: int): set<int> {
    MonthEnds(newest, Max(1, FullMonths(q)), MonthsBeyond(q))
  }

  function Days(q: Quotas, newest: int): set<int> {
    DailyPart(q, newest) + WeeklyPart(q, newest) + MonthlyPart(q, newest)
  }

  lemma DaysSize(q: Quotas, newest: int)
    requires Fits(q, newest)
    ensures |Days(q, newest)| == DailyDays(q) + WeeksBeyond(q) + MonthsBeyond(q)
    ensures forall d :: d in Days(q, newest) ==> d <= MonthEnd(newest, 0)
    ensures MonthEnd(newest, 0) in Days(q, newest)
  {
    var daily, weekly, monthly := DailyPart(q, newest), WeeklyPart(q, newest), MonthlyPart(q, newest);
    MonthEndsFacts(newest, Max(1, FullMonths(q)), MonthsBeyond(q));
    forall d | d in monthly ensures d !in daily + weekly && d <= MonthEnd(newest, 0) {
      MonthEndsApart(q, newest, d);
    }
    SundaysFacts(MonthEnd(newest, 0), Max(1, FullWeeks(q)), WeeksBeyond(q));
    forall d | d in weekly ensures d !in daily && d <= MonthEnd(newest, 0) {
      SundaysApartFromDays(q, newest, d);
    }
    Disjoint(daily, weekly);
    Disjoint(daily + weekly, monthly);
  }

  lemma SundaysApartFromDays(q: Quotas, newest: int, d: int)
    requires IsWeeksBack(MonthEnd(newest, 0), Max(1, FullWeeks(q)), WeeksBeyond(q), d)
    ensures d !in DailyPart(q, newest) && d <= MonthEnd(newest, 0)
  {
    var last := MonthEnd(newest, 0);
    var j :| Max(1, FullWeeks(q)) <= j < q.weekly && d == WeeksBack(last, j);
    assert DailyDays(q) <= DAYS_PER_WEEK * j;
  }

  lemma MonthEndsApart(q: Quotas, newest: int, d: int)
    requires Fits(q, newest) && IsMonthEnd(newest, Max(1, FullMonths(q)), MonthsBeyond(q), d)
    ensures d !in DailyPart(q, newest) && d !in WeeklyPart(q, newest) && d <= MonthEnd(newest, 0)
  {
    var i :| Max(1, FullMonths(q)) <= i < q.monthly && d == MonthEnd(newest, i);
    assert IsClear(q, newest, i);
    SundaysFacts(MonthEnd(newest, 0), Max(1, FullWeeks(q)), WeeksBeyond(q));
    ClearOfSundays(q, newest, i);
  }

  lemma ClearOfSundays(q: Quotas, newest: int, i: int)
    requires IsClear(q, newest, i)
    ensures !IsWeeksBack(MonthEnd(newest, 0), Max(1, FullWeeks(q)), WeeksBeyond(q), MonthEnd(newest, i))
  {
    forall j | Max(1, FullWeeks(q)) <= j < q.weekly
      ensures WeeksBack(MonthEnd(newest, 0), j) != MonthEnd(newest, i)
    {
      WholeWeeks(j);
    }
  }

  lemma WholeWeeks(j: int)
    ensures (DAYS_PER_WEEK * j) % DAYS_PER_WEEK == 0 && (DAYS_PER_WEEK * j) / DAYS_PER_WEEK == j
  {
  }

  lemma Disjoint<T>(a: set<T>, b: set<T>)
    requires forall d :: d in b ==> d !in a
    ensures |a + b| == |a| + |b|
  {
    assert a !! b;
  }

  /** Days in falling order. */
  ghost predicate Lists(days: set<int>, ds: seq<int>) {
    && (forall i, j :: 0 <= i < j < |ds| ==> ds[i] > ds[j])
    && (forall d :: d in ds <==> d in days)
    && |ds| == |days|
  }

  lemma {:induction false} FallingOrder(days: set<int>) returns (ds: seq<int>)
    ensures Lists(days, ds)
    decreases |days|
  {
    if |days| == 0 {
      ds := [];
      assert days == {};
    } else {
      var last := Least(days);
      var before := FallingOrder(days - {last});
      ds := before + [last];
      forall i | 0 <= i < |before| ensures before[i] > last {
        assert before[i] in before;
      }
    }
  }

  lemma {:induction false} Least(days: set<int>) returns (d: int)
    requires |days| > 0
    ensures d in days && forall e :: e in days ==> d <= e
    decreases |days|
  {
    assert days != {};
    d := AnyOf(days);
    if days != {d} {
      assert |days - {d}| > 0 by {
        assert days == (days - {d}) + {d};
      }
      var e := Least(days - {d});
      d := if d <= e then d else e;
    }
  }

  // ---------------------------------------------------------------- the bound is reached

  function Newest(q: Quotas): nat {
    Max(1, q.last)
  }

  /** The newest backups share the first day, one instant apart; every other day has one backup. */
  function TimeAt(q: Quotas, ds: seq<int>, i: nat): int
    requires i < Newest(q) - 1 + |ds| && ds != []
  {
    if i < Newest(q) then ds[0] * TICKS_PER_DAY + (Newest(q) - 1 - i) else ds[i - Newest(q) + 1] * TICKS_PER_DAY
  }

  function DayAt(q: Quotas, ds: seq<int>, i: nat): int
    requires i < Newest(q) - 1 + |ds| && ds != []
  {
    if i < Newest(q) then ds[0] else ds[i - Newest(q) + 1]
  }

  function Witness(q: Quotas, ds: seq<int>, n: nat): seq<Entry>
    requires ds != [] && n <= Newest(q) - 1 + |ds|
  {
    seq(n, i requires 0 <= i < n => EntryOf(i, TimeAt(q, ds, i)))
  }

  lemma WitnessDay(q: Quotas, ds: seq<int>, i: nat)
    requires q.last <= TICKS_PER_DAY && ds != [] && i < Newest(q) - 1 + |ds|
    ensures EntryOf(i, TimeAt(q, ds, i)).day == DayAt(q, ds, i)
  {
  }

  /** If the newer periods are among the `c` most recent, one that is `c` before them is kept by a larger quota. */
  lemma KeptByTier(newer: seq<Entry>, x: Entry, tier: Tier, quota: int, newest: int, c: nat)
    requires forall e :: e in newer ==> newest - c < Period(e, tier) <= newest
    requires Period(x, tier) == newest - c && c < quota
    ensures TierKeeps(newer, x, tier, quota)
  {
    SubsetCard(Periods(newer, tier), Interval(newest - c + 1, c));
  }

  /** `x` is the backup on a day of the witness other than the newest, and these are some on later days. */
  ghost predicate Follows(newest: int, newer: seq<Entry>, x: Entry) {
    && OnCalendar(x) && AllOnCalendar(newer)
    && forall e :: e in newer ==> x.day < e.day <= MonthEnd(newest, 0)
  }

  /** It is kept, whichever they are. */
  lemma DayIsKept(q: Quotas, newest: int, newer: seq<Entry>, x: Entry)
    requires Fits(q, newest) && Follows(newest, newer, x)
    requires x.day in Days(q, newest) && x.day < MonthEnd(newest, 0)
    ensures SomeTierKeeps(q, newer, x)
  {
    if x.day in DailyPart(q, newest) {
      DailyIsKept(q, newest, newer, x);
    } else if x.day in WeeklyPart(q, newest) {
      WeeklyIsKept(q, newest, newer, x);
    } else {
      MonthEndIsKept(q, newest, newer, x);
    }
  }

  lemma DailyIsKept(q: Quotas, newest: int, newer: seq<Entry>, x: Entry)
    requires Follows(newest, newer, x) && x.day in DailyPart(q, newest) && x.day < MonthEnd(newest, 0)
    ensures TierKeeps(newer, x, Daily, q.daily)
  {
    var last := MonthEnd(newest, 0);
    KeptByTier(newer, x, Daily, q.daily, last, last - x.day);
  }

  lemma WeeklyIsKept(q: Quotas, newest: int, newer: seq<Entry>, x: Entry)
    requires EndsOnSunday(newest) && Follows(newest, newer, x) && x.day in WeeklyPart(q, newest)
    ensures TierKeeps(newer, x, Weekly, q.weekly)
  {
    var last := MonthEnd(newest, 0);
    SundaysFacts(last, Max(1, FullWeeks(q)), WeeksBeyond(q));
    var j :| Max(1, FullWeeks(q)) <= j < q.weekly && x.day == WeeksBack(last, j);
    EndsInWeek(newest);
    SundayIsKept(q, last, j, newer, x);
  }

  lemma EndsInWeek(newest: int)
    requires EndsOnSunday(newest)
    ensures MonthEnd(newest, 0) % DAYS_PER_WEEK == 6
  {
    assert MonthEnd(newest, 0) == FirstDay(newest + 1) - 1;
    DayBeforeMonday(FirstDay(newest + 1));
  }

  lemma DayBeforeMonday(day: int)
    requires day % DAYS_PER_WEEK == 0
    ensures (day - 1) % DAYS_PER_WEEK == 6
  {
  }

  lemma SundayIsKept(q: Quotas, last: int, j: nat, newer: seq<Entry>, x: Entry)
    requires last % DAYS_PER_WEEK == 6 && x.day == last - DAYS_PER_WEEK * j && j < q.weekly
    requires OnCalendar(x) && AllOnCalendar(newer) && forall e :: e in newer ==> x.day < e.day <= last
    ensures TierKeeps(newer, x, Weekly, q.weekly)
  {
    var week := last / DAYS_PER_WEEK;
    SundaysApart(last, j);
    forall e | e in newer ensures week - j < Period(e, Weekly) <= week {
      WeekAfterSunday(last, j, e.day);
    }
    KeptByTier(newer, x, Weekly, q.weekly, week, j);
  }

  lemma SundaysApart(last: int, j: int)
    ensures (last - DAYS_PER_WEEK * j) / DAYS_PER_WEEK == last / DAYS_PER_WEEK - j
  {
  }

  lemma WeekAfterSunday(last: int, j: int, day: int)
    requires last % DAYS_PER_WEEK == 6 && last - DAYS_PER_WEEK * j < day <= last
    ensures last / DAYS_PER_WEEK - j < day / DAYS_PER_WEEK <= last / DAYS_PER_WEEK
  {
  }

  lemma MonthEndIsKept(q: Quotas, newest: int, newer: seq<Entry>, x: Entry)
    requires Follows(newest, newer, x) && x.day in MonthlyPart(q, newest)
    ensures TierKeeps(newer, x, Monthly, q.monthly)
  {
    MonthEndsFacts(newest, Max(1, FullMonths(q)), MonthsBeyond(q));
    var i :| Max(1, FullMonths(q)) <= i < q.monthly && x.day == MonthEnd(newest, i);
    MonthOfEnd(newest, i, x);
    forall e | e in newer ensures newest - i < e.month <= newest {
      MonthsUpTo(e, newest);
      if e.month <= newest - i {
        MonthsFollow(e.month + 1, newest - i + 1);
      }
    }
    KeptByTier(newer, x, Monthly, q.monthly, newest, i);
  }

  lemma MonthOfEnd(newest: int, i: int, x: Entry)
    requires OnCalendar(x) && x.day == MonthEnd(newest, i)
    ensures x.month == newest - i
  {
    NextMonth(newest - i);
    if x.month < newest - i {
      MonthsFollow(x.month + 1, newest - i);
    } else if x.month > newest - i {
      MonthsFollow(newest - i + 1, x.month);
    }
  }

  lemma MonthsUpTo(e: Entry, newest: int)
    requires OnCalendar(e) && e.day <= MonthEnd(newest, 0)
    ensures e.month <= newest
  {
    if e.month > newest {
      MonthsFollow(newest + 1, e.month);
    }
  }

  /** `ds` are the days of the witness. */
  ghost predicate AreDays(q: Quotas, newest: int, ds: seq<int>) {
    Fits(q, newest) && Lists(Days(q, newest), ds) && ds != [] && ds[0] == MonthEnd(newest, 0)
  }

  lemma WitnessKept(q: Quotas, newest: int, ds: seq<int>, i: nat)
    requires AreDays(q, newest, ds)
    requires i < Newest(q) - 1 + |ds|
    ensures Keeps(q, Witness(q, ds, i), EntryOf(i, TimeAt(q, ds, i)))
  {
    var newer, x := Witness(q, ds, i), EntryOf(i, TimeAt(q, ds, i));
    WitnessDay(q, ds, i);
    if i >= Newest(q) {
      var k := i - Newest(q) + 1;
      assert ds[k] in ds && ds[k] < ds[0];
      forall e | e in newer ensures OnCalendar(e) && x.day < e.day <= MonthEnd(newest, 0) {
        var j :| 0 <= j < i && newer[j] == e;
        WitnessDay(q, ds, j);
        DaysFall(ds, if j < Newest(q) then 0 else j - Newest(q) + 1, k);
      }
      DayIsKept(q, newest, newer, x);
    }
  }

  lemma DaysFall(ds: seq<int>, i: nat, k: nat)
    requires i < k < |ds| && forall j, k :: 0 <= j < k < |ds| ==> ds[j] > ds[k]
    ensures ds[k] < ds[i] <= ds[0]
  {
  }

  lemma {:induction false} WitnessSelected(q: Quotas, newest: int, ds: seq<int>, n: nat)
    requires AreDays(q, newest, ds) && n <= Newest(q) - 1 + |ds|
    ensures Kept(q, Witness(q, ds, n)) == Witness(q, ds, n)
    decreases n
  {
    if n > 0 {
      WitnessSelected(q, newest, ds, n - 1);
      WitnessKept(q, newest, ds, n - 1);
      WitnessStep(q, ds, n - 1);
    }
  }

  lemma WitnessStep(q: Quotas, ds: seq<int>, n: nat)
    requires ds != [] && n < Newest(q) - 1 + |ds|
    requires Keeps(q, Witness(q, ds, n), EntryOf(n, TimeAt(q, ds, n)))
    ensures Kept(q, Witness(q, ds, n + 1)) == Kept(q, Witness(q, ds, n)) + [EntryOf(n, TimeAt(q, ds, n))]
    ensures Witness(q, ds, n + 1) == Witness(q, ds, n) + [EntryOf(n, TimeAt(q, ds, n))]
  {
    assert Witness(q, ds, n + 1) == Witness(q, ds, n) + [EntryOf(n, TimeAt(q, ds, n))];
    SelectAppend(KeepRule(q), [], Witness(q, ds, n), EntryOf(n, TimeAt(q, ds, n)));
    assert [] + Witness(q, ds, n) == Witness(q, ds, n);
  }

  /** No two backups of the witness share an instant. */
  lemma WitnessFalls(q: Quotas, ds: seq<int>, i: nat, j: nat)
    requires q.last <= TICKS_PER_DAY && ds != [] && forall k, l :: 0 <= k < l < |ds| ==> ds[k] > ds[l]
    requires i < j < Newest(q) - 1 + |ds|
    ensures TimeAt(q, ds, i) > TimeAt(q, ds, j)
  {
    if Newest(q) <= j {
      assert DayAt(q, ds, i) > DayAt(q, ds, j);
    }
  }

  /** A list of backups a policy can have. */
  ghost predicate IsHistory(es: seq<Entry>) {
    && AllOnCalendar(es) && DistinctIds(es)
    && forall i, j :: 0 <= i < j < |es| ==> es[i].scheduledAt > es[j].scheduledAt
  }

  /** For quotas that fit, real scheduled times reach the bound. */
  lemma CalendarBoundIsReached(q: Quotas, newest: int) returns (es: seq<Entry>)
    requires Fits(q, newest)
    ensures IsHistory(es) && |Kept(q, es)| == Bound(q)
  {
    DaysSize(q, newest);
    var ds := FallingOrder(Days(q, newest));
    FirstIsNewest(Days(q, newest), ds, MonthEnd(newest, 0));
    es := Witness(q, ds, Newest(q) - 1 + |ds|);
    WitnessSelected(q, newest, ds, Newest(q) - 1 + |ds|);
    WitnessIsHistory(q, ds);
  }

  lemma WitnessIsHistory(q: Quotas, ds: seq<int>)
    requires q.last <= TICKS_PER_DAY && ds != [] && forall k, l :: 0 <= k < l < |ds| ==> ds[k] > ds[l]
    ensures IsHistory(Witness(q, ds, Newest(q) - 1 + |ds|))
  {
    var es := Witness(q, ds, Newest(q) - 1 + |ds|);
    forall i, j | 0 <= i < j < |es| ensures es[i].scheduledAt > es[j].scheduledAt {
      WitnessFalls(q, ds, i, j);
    }
  }

  lemma FirstIsNewest(days: set<int>, ds: seq<int>, newest: int)
    requires Lists(days, ds) && newest in days && forall d :: d in days ==> d <= newest
    ensures ds != [] && ds[0] == newest
  {
    var i :| 0 <= i < |ds| && ds[i] == newest;
    assert ds[0] in ds;
  }

  ghost predicate Reaches(q: Quotas, es: seq<Entry>, n: int) {
    IsHistory(es) && |Kept(q, es)| == n
  }

  /**
   The bound that ignores the calendar is reached by real scheduled times exactly if the
   daily backups leave room in the weeks and in the months.
   */
  lemma PlainBoundReachedExactly(q: Quotas, newest: int)
    requires Fits(q, newest)
    ensures (exists es :: Reaches(q, es, RetentionBound.UpperBound(q))) <==>
            (q.daily <= DAYS_PER_WEEK || q.weekly <= 1) && (q.daily <= LONGEST_MONTH || q.monthly <= 1)
  {
    if (q.daily <= DAYS_PER_WEEK || q.weekly <= 1) && (q.daily <= LONGEST_MONTH || q.monthly <= 1) {
      var es := CalendarBoundIsReached(q, newest);
      assert Reaches(q, es, RetentionBound.UpperBound(q));
    } else {
      forall es | IsHistory(es) ensures !Reaches(q, es, RetentionBound.UpperBound(q)) {
        RetainedAtMostOnCalendar(q, es);
      }
    }
  }
}
