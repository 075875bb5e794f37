/**
  Scheduled reports: the latest scheduled local time, and the loop that delivers what is due.

  Times are microseconds of naive local time since 1970-01-01.
 */
module Scheduling {
  import opened Calendar

  const HOUR: int := 3_600_000_000
  const DAY := 24 * HOUR
  /** 1970-01-01, the first day of month 12 * 1969, a Thursday. */
  const EPOCH_DAY := 719162

  lemma EpochDay()
    ensures FirstOf(12 * 1969) == EPOCH_DAY && EPOCH_DAY % 7 == 3
  {
    hide FirstOf;
    DaysBeforeYear(1969);
  }

  /** When a report is wanted, as stored; zero stands for a missing number too. */
  datatype Plan = Plan(frequency: string, hour: int, weekday: int, monthday: int)

  datatype Frequency = Daily | Weekly | Monthly

  /** An empty frequency means weekly; anything unknown means monthly. */
  function FrequencyOf(p: Plan): Frequency {
    if p.frequency == "daily" then Daily
    else if p.frequency == "weekly" || p.frequency == "" then Weekly
    else Monthly
  }

  function DayOfMonth(p: Plan): int {
    if p.monthday < 1 then 1 else if p.monthday > 28 then 28 else p.monthday
  }

  function DayNumber(t: int): int {
    t / DAY + EPOCH_DAY
  }

  function Midnight(day: int): int {
    (day - EPOCH_DAY) * DAY
  }

  /** The scheduled time on a given day. */
  function At(p: Plan, day: int): int {
    Midnight(day) + p.hour * HOUR
  }

  ghost predicate IsScheduledDay(p: Plan, day: int) {
    match FrequencyOf(p)
    case Daily => true
    case Weekly => (day - p.weekday) % 7 == 0
    case Monthly => exists month: nat :: day == FirstOf(month) + DayOfMonth(p) - 1
  }

  /** The scheduled local times, said without reference to any `now`. */
  ghost predicate IsOccurrence(p: Plan, t: int) {
    t == At(p, DayNumber(t)) && IsScheduledDay(p, DayNumber(t))
  }

  /** `t` is the greatest scheduled time that is not after `now`. */
  ghost predicate Latest(p: Plan, now: int, t: int) {
    IsOccurrence(p, t) && t <= now && forall u :: t < u <= now ==> !IsOccurrence(p, u)
  }

  lemma LatestUnique(p: Plan, now: int, t: int, u: int)
    requires Latest(p, now, t) && Latest(p, now, u)
    ensures t == u
  {
  }

  /** The last day whose scheduled hour has come. */
  ghost function LastDay(p: Plan, now: int): int {
    if At(p, DayNumber(now)) <= now then DayNumber(now) else DayNumber(now) - 1
  }

  lemma LastDayMeaning(p: Plan, now: int, day: int)
    requires 0 <= p.hour < 24
    ensures At(p, day) <= now <==> day <= LastDay(p, now)
    ensures DayNumber(At(p, day)) == day
  {
    Arithmetic.Quotient(At(p, day), day - EPOCH_DAY, p.hour * HOUR, DAY);
  }

  /** The last scheduled day not after `LastDay` gives the latest occurrence. */
  lemma LatestByDay(p: Plan, now: int, day: int)
    requires 0 <= p.hour < 24 && IsScheduledDay(p, day) && day <= LastDay(p, now)
    requires forall e :: day < e <= LastDay(p, now) ==> !IsScheduledDay(p, e)
    ensures Latest(p, now, At(p, day))
  {
    LastDayMeaning(p, now, day);
    forall u | At(p, day) < u <= now
      ensures !IsOccurrence(p, u)
    {
      var e := DayNumber(u);
      if u == At(p, e) {
        LastDayMeaning(p, now, e);
        assert day < e;
      }
    }
  }

  lemma WeeklyDay(p: Plan, now: int, day: int)
    requires FrequencyOf(p) == Weekly && 0 <= p.hour < 24
    requires day <= LastDay(p, now) < day + 7 && (day - p.weekday) % 7 == 0
    ensures Latest(p, now, At(p, day))
  {
    forall e | day < e <= LastDay(p, now)
      ensures !IsScheduledDay(p, e)
    {
      assert (e - p.weekday) - (day - p.weekday) == e - day;
    }
    LatestByDay(p, now, day);
  }

  lemma NextMonthly(month: nat, m: nat)
    ensures FirstOf(month) < FirstOf(m) ==> FirstOf(month + 1) <= FirstOf(m)
  {
    hide *;
    if m < month { FirstsIncrease(m, month); }
    if month + 1 < m { FirstsIncrease(month + 1, m); }
  }

  /** The day before a month lies in the month before it. */
  lemma MonthBefore(month: nat)
    requires FirstOf(month) > 0
    ensures var m := MonthOf(FirstOf(month) - 1); m + 1 == month && FirstOf(m) + 28 <= FirstOf(month)
  {
    MonthUnique(FirstOf(month) - 1, month - 1);
  }

  lemma MonthlyDay(p: Plan, now: int, month: nat)
    requires FrequencyOf(p) == Monthly && 0 <= p.hour < 24
    requires FirstOf(month) + DayOfMonth(p) - 1 <= LastDay(p, now) < FirstOf(month + 1) + DayOfMonth(p) - 1
    ensures Latest(p, now, At(p, FirstOf(month) + DayOfMonth(p) - 1))
  {
    var day := FirstOf(month) + DayOfMonth(p) - 1;
    forall e | day < e <= LastDay(p, now)
      ensures !IsScheduledDay(p, e)
    {
      if IsScheduledDay(p, e) {
        var m: nat :| e == FirstOf(m) + DayOfMonth(p) - 1;
        NextMonthly(month, m);
      }
    }
    LatestByDay(p, now, day);
  }

  lemma FarFromStart(month: nat, day: nat)
    requires FirstOf(month) <= day < FirstOf(month + 1) && day >= 31
    ensures FirstOf(month) > 0
  {
  }

  lemma Shift(p: Plan, day: int, days: int)
    ensures At(p, day) - days * DAY == At(p, day - days)
  {
  }

  lemma DailyChoice(p: Plan, now: int, candidate: int)
    requires FrequencyOf(p) == Daily && 0 <= p.hour < 24 && candidate == At(p, DayNumber(now))
    ensures Latest(p, now, if candidate > now then candidate - DAY else candidate)
  {
    Shift(p, DayNumber(now), 1);
    LatestByDay(p, now, LastDay(p, now));
  }

  lemma DailyLatest(p: Plan, now: int, day: int)
    requires FrequencyOf(p) == Daily && 0 <= p.hour < 24 && At(p, day) <= now < At(p, day + 1)
    ensures Latest(p, now, At(p, day))
  {
    LastDayMeaning(p, now, day);
    LastDayMeaning(p, now, day + 1);
    hide At, Latest;
    LatestByDay(p, now, day);
  }

  lemma WeeklyChoice(p: Plan, now: int, back: int, candidate: int)
    requires FrequencyOf(p) == Weekly && 0 <= p.hour < 24
    requires back == (DayNumber(now) % 7 - p.weekday) % 7 && candidate == At(p, DayNumber(now)) - back * DAY
    ensures Latest(p, now, if candidate > now then candidate - 7 * DAY else candidate)
  {
    var day := DayNumber(now) - back;
    Shift(p, DayNumber(now), back);
    Shift(p, day, 7);
    assert (day - p.weekday) % 7 == 0 && (day - 7 - p.weekday) % 7 == 0;
    LastDayMeaning(p, now, day);
    hide At, Latest, DayNumber;
    WeeklyDay(p, now, if candidate > now then day - 7 else day);
  }

  lemma MonthlyChoice(p: Plan, now: nat, month: nat)
    requires FrequencyOf(p) == Monthly && 0 <= p.hour < 24 && month == MonthOf(DayNumber(now))
    ensures var day := DayOfMonth(p) - 1;
            var c := At(p, FirstOf(month) + day);
            && FirstOf(month) > 0
            && Latest(p, now, if c > now then At(p, FirstOf(MonthOf(FirstOf(month) - 1)) + day) else c)
  {
    hide At, Latest, DayNumber, FirstOf;
    var day := DayOfMonth(p) - 1;
    DayNumberNat(now);
    FarFromStart(month, DayNumber(now));
    MonthBefore(month);
    LastDayMeaning(p, now, FirstOf(month) + day);
    if At(p, FirstOf(month) + day) > now {
      MonthlyDay(p, now, month - 1);
    } else {
      MonthlyDay(p, now, month);
    }
  }

  /** Every schedule has a latest occurrence; months and years of any length are crossed correctly. */
  method PreviousOccurrence(p: Plan, now: nat) returns (candidate: int)
    requires 0 <= p.hour < 24
    ensures Latest(p, now, candidate)
  {
    hide At, Latest, DayNumber, FirstOf;
    var today := DayNumber(now);
    candidate := At(p, today);
    if p.frequency == "daily" {
      DailyChoice(p, now, candidate);
      if candidate > now {
        candidate := candidate - DAY;
      }
    } else if p.frequency == "weekly" || p.frequency == "" {
      var back := (today % 7 - p.weekday) % 7;
      candidate := candidate - back * DAY;
      WeeklyChoice(p, now, back, candidate);
      if candidate > now {
        candidate := candidate - 7 * DAY;
      }
    } else {
      DayNumberNat(now);
      var month := MonthOf(today);
      candidate := At(p, FirstOf(month) + DayOfMonth(p) - 1);
      MonthlyChoice(p, now, month);
      if candidate > now {
        month := MonthOf(FirstOf(month) - 1);
        candidate := At(p, FirstOf(month) + DayOfMonth(p) - 1);
      }
    }
  }

  lemma DayNumberNat(now: nat)
    ensures DayNumber(now) >= EPOCH_DAY
  {
  }

  // ----- scheduled times in hours and days

  /** Midnight of a day, and hours after it, in microseconds. */
  function Clock(day: int, hour: int): int {
    (day - 719162) * 86_400_000_000 + hour * 3_600_000_000
  }

  /** Any day; the days of one weekday, Monday being 0; or one day of every month, between the first and the 28th. */
  ghost predicate IsWanted(p: Plan, day: int) {
    if p.frequency == "daily" then true
    else if p.frequency == "weekly" || p.frequency == "" then (day - p.weekday) % 7 == 0
    else if p.monthday < 1 then exists month: nat :: day == FirstOf(month)
    else if p.monthday > 28 then exists month: nat :: day == FirstOf(month) + 27
    else exists month: nat :: day == FirstOf(month) + p.monthday - 1
  }

  /** The scheduled times are the wanted days at the hour. */
  lemma OccurrenceMeaning(p: Plan, t: int)
    requires 0 <= p.hour < 24
    ensures IsOccurrence(p, t) <==> exists day :: IsWanted(p, day) && t == Clock(day, p.hour)
  {
    hide FirstOf, LengthOf;
    forall day ensures IsScheduledDay(p, day) <==> IsWanted(p, day) {
      DayWanted(p, day);
    }
    forall day ensures At(p, day) == Clock(day, p.hour) && DayNumber(At(p, day)) == day {
      LastDayMeaning(p, 0, day);
    }
  }

  lemma DayWanted(p: Plan, day: int)
    ensures IsScheduledDay(p, day) <==> IsWanted(p, day)
  {
    hide FirstOf, LengthOf;
    var d := DayOfMonth(p);
    assert d == if p.monthday < 1 then 1 else if p.monthday > 28 then 28 else p.monthday;
    if FrequencyOf(p) == Monthly {
      forall month: nat ensures FirstOf(month) + d - 1 ==
                                if p.monthday < 1 then FirstOf(month)
                                else if p.monthday > 28 then FirstOf(month) + 27 else FirstOf(month) + p.monthday - 1 {
      }
    }
  }

  /** 18 March 2026, a Wednesday. */
  const WEDNESDAY := 739692

  lemma March2026()
    ensures FirstOf(12 * 2025 + 1) == WEDNESDAY - 45 && FirstOf(12 * 2025 + 2) == WEDNESDAY - 17
    ensures FirstOf(12 * 2025 + 3) == WEDNESDAY + 14
  {
    hide FirstOf, LengthOf;
    DaysBeforeYear(2025);
    Lengths(2025);
    Next(12 * 2025);
    Next(12 * 2025 + 1);
    Next(12 * 2025 + 2);
  }

  /** Latest occurrences on that day: of the hour, the weekday and the day of the month, just past and still to come. */
  lemma LatestExamples()
    ensures Latest(Plan("daily", 7, 0, 0), Clock(WEDNESDAY, 8), Clock(WEDNESDAY, 7))
    ensures Latest(Plan("daily", 7, 0, 0), Clock(WEDNESDAY, 6), Clock(WEDNESDAY - 1, 7))
    ensures Latest(Plan("weekly", 7, 0, 0), Clock(WEDNESDAY, 8), Clock(WEDNESDAY - 2, 7))
    ensures Latest(Plan("weekly", 9, 2, 0), Clock(WEDNESDAY, 8), Clock(WEDNESDAY - 7, 9))
    ensures Latest(Plan("monthly", 7, 0, 1), Clock(WEDNESDAY, 8), Clock(WEDNESDAY - 17, 7))
    ensures Latest(Plan("monthly", 7, 0, 20), Clock(WEDNESDAY, 8), Clock(WEDNESDAY - 26, 7))
  {
    hide FirstOf, Latest, LengthOf;
    March2026();
    DailyLatest(Plan("daily", 7, 0, 0), Clock(WEDNESDAY, 8), WEDNESDAY);
    DailyLatest(Plan("daily", 7, 0, 0), Clock(WEDNESDAY, 6), WEDNESDAY - 1);
    WeeklyDay(Plan("weekly", 7, 0, 0), Clock(WEDNESDAY, 8), WEDNESDAY - 2);
    WeeklyDay(Plan("weekly", 9, 2, 0), Clock(WEDNESDAY, 8), WEDNESDAY - 7);
    MonthlyDay(Plan("monthly", 7, 0, 1), Clock(WEDNESDAY, 8), 12 * 2025 + 2);
    MonthlyDay(Plan("monthly", 7, 0, 20), Clock(WEDNESDAY, 8), 12 * 2025 + 1);
  }
}
