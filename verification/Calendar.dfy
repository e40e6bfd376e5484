/**
 The UTC calendar behind the period numbers of a backup. Day 0 and month 0 start on
 Monday, 1 February 2027; weeks start on Mondays, as ISO weeks do.
 */
module Calendar {
  import opened Common
  import opened Retention
  import opened RetentionLaws

  /** Instants are counted in microseconds. */
  const TICKS_PER_DAY := 86_400_000_000

  const DAYS_PER_WEEK := 7

  const LONGEST_MONTH := 31

  predicate IsLeapYear(year: int) {
    year % 4 == 0 && (year % 100 != 0 || year % 400 == 0)
  }

  /** The number of days of a month. */
  function MonthLength(month: int): (days: int)
    ensures 28 <= days <= LONGEST_MONTH
  {
    var year, ofYear := 2027 + (month + 1) / 12, (month + 1) % 12;
    if ofYear == 1 then (if IsLeapYear(year) then 29 else 28)
    else if ofYear in {3, 5, 8, 10} then 30
    else 31
  }

  /** The first day of a month. */
  function FirstDay(month: int): int
    decreases if month < 0 then 0 - month else month
  {
    if month == 0 then 0
    else if month > 0 then FirstDay(month - 1) + MonthLength(month - 1)
    else FirstDay(month + 1) - MonthLength(month)
  }

  /** The keys of the backup are those of its scheduled time. */
  ghost predicate OnCalendar(e: Entry) {
    && e.day == e.scheduledAt / TICKS_PER_DAY
    && e.week == e.day / DAYS_PER_WEEK
    && FirstDay(e.month) <= e.day < FirstDay(e.month + 1)
  }

  ghost predicate AllOnCalendar(es: seq<Entry>) {
    forall e :: e in es ==> OnCalendar(e)
  }

  lemma NextMonth(month: int)
    ensures FirstDay(month + 1) == FirstDay(month) + MonthLength(month)
  {
  }

  lemma {:induction false} MonthsFollow(j: int, k: int)
    requires j <= k
    ensures FirstDay(j) + 28 * (k - j) <= FirstDay(k)
    decreases k - j
  {
    if j < k {
      MonthsFollow(j, k - 1);
      NextMonth(k - 1);
      assert 28 * (k - j) == 28 * (k - 1 - j) + 28;
    }
  }

  /** Later backups are in the same or a later period. */
  lemma CalendarFollowsTime(es: seq<Entry>)
    requires AllOnCalendar(es)
    ensures PeriodsFollowTime(es)
  {
    forall i, j, tier | 0 <= i < |es| && 0 <= j < |es| && es[i].scheduledAt >= es[j].scheduledAt
      ensures Period(es[i], tier) >= Period(es[j], tier)
    {
      KeysFollowTime(es[i], es[j]);
    }
  }

  lemma KeysFollowTime(a: Entry, b: Entry)
    requires OnCalendar(a) && OnCalendar(b) && a.scheduledAt >= b.scheduledAt
    ensures a.day >= b.day && a.week >= b.week && a.month >= b.month
  {
    if a.month < b.month {
      MonthsFollow(a.month + 1, b.month);
    }
  }

  /** The day decides the week and the month. */
  lemma DayDecides(a: Entry, b: Entry)
    requires OnCalendar(a) && OnCalendar(b) && a.day == b.day
    ensures a.week == b.week && a.month == b.month
  {
    if a.month < b.month {
      MonthsFollow(a.month + 1, b.month);
    } else if b.month < a.month {
      MonthsFollow(b.month + 1, a.month);
    }
  }

  /** The month of a day, looked for from a month on, backwards. */
  function MonthBefore(month: int, day: int): (k: int)
    requires day < FirstDay(month + 1)
    ensures k <= month && FirstDay(k) <= day < FirstDay(k + 1)
    decreases FirstDay(month + 1) - day
  {
    NextMonth(month);
    if FirstDay(month) <= day then month else MonthBefore(month - 1, day)
  }

  /** The month of a day, looked for from a month on, forwards. */
  function MonthAfter(month: int, day: int): (k: int)
    requires FirstDay(month) <= day
    ensures FirstDay(k) <= day < FirstDay(k + 1)
    decreases day - FirstDay(month)
  {
    NextMonth(month);
    if day < FirstDay(month + 1) then month else MonthAfter(month + 1, day)
  }

  function MonthOf(day: int): (k: int)
    ensures FirstDay(k) <= day < FirstDay(k + 1)
  {
    if day < FirstDay(1) then MonthBefore(0, day) else MonthAfter(1, day)
  }

  /** A backup with the keys of its scheduled time. */
  function EntryOf(id: Uuid, scheduledAt: Time): (e: Entry)
    ensures OnCalendar(e) && e.id == id && e.scheduledAt == scheduledAt
  {
    var day := scheduledAt / TICKS_PER_DAY;
    Entry(id, scheduledAt, day, day / DAYS_PER_WEEK, MonthOf(day))
  }

  /** There is no other. */
  lemma EntryIsUnique(e: Entry)
    requires OnCalendar(e)
    ensures e == EntryOf(e.id, e.scheduledAt)
  {
    DayDecides(e, EntryOf(e.id, e.scheduledAt));
  }

  // ---------------------------------------------------------------- the Gregorian calendar

  /** Days before the first day of a month, with years that start in March of year 0, in closed form. */
  function ClosedForm(month: int): int {
    var t := 2026 * 12 + 11 + month;
    var year, ofYear := t / 12, t % 12;
    365 * year + year / 4 - year / 100 + year / 400 + (153 * ofYear + 2) / 5
  }

  lemma Quarters(year: int)
    ensures year / 4 - (year - 1) / 4 == if year % 4 == 0 then 1 else 0
  {
  }

  lemma Centuries(year: int)
    ensures year / 100 - (year - 1) / 100 == if year % 100 == 0 then 1 else 0
    ensures year / 400 - (year - 1) / 400 == if year % 400 == 0 then 1 else 0
    ensures (year % 400 == 0 ==> year % 100 == 0) && (year % 100 == 0 ==> year % 4 == 0)
  {
  }

  lemma LeapDays(year: int)
    ensures year / 4 - year / 100 + year / 400 - ((year - 1) / 4 - (year - 1) / 100 + (year - 1) / 400) ==
            if IsLeapYear(year) then 1 else 0
  {
    Quarters(year);
    Centuries(year);
  }

  lemma ClosedStep(month: int)
    ensures ClosedForm(month + 1) == ClosedForm(month) + MonthLength(month)
  {
    var t := 2026 * 12 + 11 + month;
    var year, ofYear := t / 12, t % 12;
    MonthOfYear(month);
    if ofYear == 11 {
      LeapDays(year + 1);
      assert (t + 1) / 12 == year + 1 && (t + 1) % 12 == 0;
    } else {
      assert (t + 1) / 12 == year && (t + 1) % 12 == ofYear + 1;
      MarchBased(ofYear);
    }
  }

  /** The lengths of the months from March on. */
  lemma MarchBased(ofYear: int)
    requires 0 <= ofYear < 11
    ensures (153 * (ofYear + 1) + 2) / 5 - (153 * ofYear + 2) / 5 == if ofYear in {1, 3, 6, 8} then 30 else 31
  {
  }

  /** Counted from January or from March, the months of a year are the same. */
  lemma MonthOfYear(month: int)
    ensures var t := 2026 * 12 + 11 + month;
            && (month + 1) % 12 == (t % 12 + 2) % 12
            && (t % 12 == 11 ==> 2027 + (month + 1) / 12 == t / 12 + 1)
  {
  }

  /** The first day of every month, past and future, is that of the Gregorian calendar. */
  lemma {:induction false} FirstDayIsGregorian(month: int)
    ensures FirstDay(month) == ClosedForm(month) - ClosedForm(0)
    decreases if month < 0 then 0 - month else month
  {
    if month > 0 {
      FirstDayIsGregorian(month - 1);
      ClosedStep(month - 1);
    } else if month < 0 {
      FirstDayIsGregorian(month + 1);
      ClosedStep(month);
    }
  }

  /** 1 January 1970 was a Thursday, three days after a Monday, so weeks start on Mondays. */
  lemma EpochIsThursday(january: int)
    requires january == 12 * (1970 - 2027) - 1
    ensures FirstDay(january) == -20850 && FirstDay(january) % DAYS_PER_WEEK == 3
  {
    FirstDayIsGregorian(january);
    ClosedEpoch(january);
  }

  lemma ClosedEpoch(month: int)
    requires month == 12 * (1970 - 2027) - 1
    ensures ClosedForm(month) - ClosedForm(0) == -20850
  {
    var t := 2026 * 12 + 11 + month;
    assert t / 12 == 1969 && t % 12 == 10;
  }

  /** A day has 86,400,000,000 microseconds; after as many the next day comes, and seven days later the next week. */
  lemma KeysAdvance(id: Uuid, t: Time)
    ensures EntryOf(id, t + 86_400_000_000).day == EntryOf(id, t).day + 1
    ensures EntryOf(id, t + 7 * 86_400_000_000).week == EntryOf(id, t).week + 1
    ensures EntryOf(id, 0).day == 0 && EntryOf(id, 0).week == 0 && EntryOf(id, 0).month == 0
    ensures EntryOf(id, -1).day == -1 && EntryOf(id, -1).week == -1 && EntryOf(id, -1).month == -1
  {
    NextMonth(0);
    NextMonth(-1);
    EntryIsUnique(Entry(id, 0, 0, 0, 0));
    EntryIsUnique(Entry(id, -1, -1, -1, -1));
  }

  // ---------------------------------------------------------------- counting days

  function Interval(low: int, size: nat): (s: set<int>)
    ensures |s| == size
    ensures forall k :: k in s <==> low <= k < low + size
  {
    if size == 0 then {} else Interval(low, size - 1) + {low + size - 1}
  }

  /** The first day of a period, and the most days it can have. */
  function Start(tier: Tier, period: int): int {
    match tier
    case Daily => period
    case Weekly => DAYS_PER_WEEK * period
    case Monthly => FirstDay(period)
  }

  function Longest(tier: Tier): nat {
    match tier
    case Daily => 1
    case Weekly => DAYS_PER_WEEK
    case Monthly => LONGEST_MONTH
  }

  predicate InPeriod(day: int, tier: Tier, period: int) {
    Start(tier, period) <= day < Start(tier, period) + Longest(tier)
  }

  lemma AnyOf<T>(s: set<T>) returns (k: T)
    requires s != {}
    ensures k in s
  {
    k :| k in s;
  }

  /** Days that fall into some periods are at most so many. */
  lemma {:induction false} DaysInPeriods(days: set<int>, periods: set<int>, tier: Tier)
    requires forall d :: d in days ==> exists p :: p in periods && InPeriod(d, tier, p)
    ensures |days| <= Times(Longest(tier), |periods|)
    decreases periods
  {
    if periods != {} {
      var k := AnyOf(periods);
      var block := Interval(Start(tier, k), Longest(tier));
      forall d | d in days - block ensures exists p :: p in periods - {k} && InPeriod(d, tier, p) {
        var p :| p in periods && InPeriod(d, tier, p);
        assert p in periods - {k};
      }
      DaysInPeriods(days - block, periods - {k}, tier);
      RemoveBlock(days, block);
      assert |periods - {k}| == |periods| - 1;
    } else {
      assert forall d :: d !in days;
    }
  }

  function Times(size: nat, n: nat): nat {
    if n == 0 then 0 else Times(size, n - 1) + size
  }

  lemma RemoveBlock(days: set<int>, block: set<int>)
    ensures |days| <= |days - block| + |block|
  {
    SubsetCard(days, (days - block) + block);
    assert |(days - block) + block| == |days - block| + |block|;
  }

  lemma TimesIs(n: nat)
    ensures Times(DAYS_PER_WEEK, n) == DAYS_PER_WEEK * n && Times(LONGEST_MONTH, n) == LONGEST_MONTH * n
  {
  }

  /** No week has more than seven days, and no month more than thirty-one. */
  lemma DaysPerPeriod(es: seq<Entry>)
    requires AllOnCalendar(es)
    ensures |Periods(es, Daily)| <= DAYS_PER_WEEK * |Periods(es, Weekly)|
    ensures |Periods(es, Daily)| <= LONGEST_MONTH * |Periods(es, Monthly)|
  {
    var days := Periods(es, Daily);
    forall d, tier | d in days ensures exists p :: p in Periods(es, tier) && InPeriod(d, tier, p) {
      var e :| e in es && Period(e, Daily) == d;
      NextMonth(e.month);
      assert Period(e, tier) in Periods(es, tier) && InPeriod(d, tier, Period(e, tier));
    }
    DaysInPeriods(days, Periods(es, Weekly), Weekly);
    DaysInPeriods(days, Periods(es, Monthly), Monthly);
    TimesIs(|Periods(es, Weekly)|);
    TimesIs(|Periods(es, Monthly)|);
  }
}
