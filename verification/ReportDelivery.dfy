/**
  The delivery loop for scheduled reports.

  Ghost records keep, for every schedule, the ticks at which it was looked at and the deliveries made.
 */
module ReportDelivery {
  import opened Options
  import opened Scheduling

  datatype Schedule = Schedule(plan: Plan, enabled: bool, createdAt: int, lastRun: Option<int>)

  /** A delivery for an occurrence, or one sent by hand; `finish` is the `last_run` it leaves behind. */
  datatype Delivery = Delivery(occurrence: Option<int>, finish: int)

  /** A tick at which an enabled schedule was looked at, and how many deliveries had been made before it. */
  datatype Tick = Tick(at: int, made: nat)

  datatype Record = Record(deliveries: seq<Delivery>, ticks: seq<Tick>)

  /** How one delivery ends: at some later time, or with an exception. */
  datatype Outcome = Delivered(finish: int) | Failed

  function LastRun(s: Schedule): int {
    if s.lastRun.None? then 0 else s.lastRun.value
  }

  /** The latest occurrence is not older than the schedule and newer than its last run. */
  ghost predicate IsDue(s: Schedule, now: int) {
    s.enabled && exists o :: Latest(s.plan, now, o) && s.createdAt <= o && LastRun(s) < o
  }

  method CheckDue(s: Schedule, now: nat) returns (due: bool)
    requires 0 <= s.plan.hour < 24
    ensures due <==> IsDue(s, now)
  {
    hide Latest;
    if !s.enabled {
      return false;
    }
    var occurrence := PreviousOccurrence(s.plan, now);
    forall o | Latest(s.plan, now, o)
      ensures o == occurrence
    {
      LatestUnique(s.plan, now, o, occurrence);
    }
    if occurrence < s.createdAt {
      return false;
    }
    due := LastRun(s) < occurrence;
  }

  // ----- what every run keeps, one schedule at a time

  ghost predicate Kept(s: Schedule, r: Record) {
    && s.lastRun == (if r.deliveries == [] then None else Some(r.deliveries[|r.deliveries| - 1].finish))
    && DeliveriesOrdered(r.deliveries)
    && TicksOrdered(r)
    && (forall j :: 0 <= j < |r.deliveries| && r.deliveries[j].occurrence.Some? ==>
          MadeAtTick(s, r.ticks, j, r.deliveries[j]))
    && (forall k :: 0 <= k < |r.ticks| ==> Answered(s, r.deliveries, r.ticks[k]))
  }

  /** Deliveries finish one after the other; one for an occurrence is made only when all earlier ones ended before it. */
  ghost predicate DeliveriesOrdered(d: seq<Delivery>) {
    forall i, j :: 0 <= i < j < |d| ==>
      d[i].finish <= d[j].finish && (d[j].occurrence.Some? ==> d[i].finish < d[j].occurrence.value)
  }

  ghost predicate TicksOrdered(r: Record) {
    && (forall i, j :: 0 <= i < j < |r.ticks| ==> r.ticks[i].at <= r.ticks[j].at && r.ticks[i].made <= r.ticks[j].made)
    && (forall i :: 0 <= i < |r.ticks| ==> r.ticks[i].made <= |r.deliveries|)
  }

  /** Delivery number `j` is for a scheduled time, at or after creation, that was current at the tick that made it. */
  ghost predicate MadeAtTick(s: Schedule, ticks: seq<Tick>, j: nat, d: Delivery)
    requires d.occurrence.Some?
  {
    var o := d.occurrence.value;
    s.createdAt <= o <= d.finish && exists k :: 0 <= k < |ticks| && ticks[k].made == j && Latest(s.plan, ticks[k].at, o)
  }

  /** Every one of the first `n` deliveries finished before `o`. */
  ghost predicate AllBefore(d: seq<Delivery>, n: nat, o: int)
    requires n <= |d|
  {
    forall i :: 0 <= i < n ==> d[i].finish < o
  }

  /** The tick delivered the occurrence current at it, unless an earlier delivery ran into that occurrence. */
  ghost predicate Answered(s: Schedule, d: seq<Delivery>, t: Tick)
    requires t.made <= |d|
  {
    forall o :: Latest(s.plan, t.at, o) && s.createdAt <= o && 0 < o && AllBefore(d, t.made, o) ==>
      t.made < |d| && d[t.made].occurrence == Some(o)
  }

  ghost predicate Attempted(r: Record, o: int) {
    exists j :: 0 <= j < |r.deliveries| && r.deliveries[j].occurrence == Some(o)
  }

  ghost predicate FirstAfter(d: seq<Delivery>, o: int, j: nat) {
    j < |d| && o <= d[j].finish && AllBefore(d, j, o)
  }

  /** A delivery by hand or for an earlier occurrence. */
  predicate OtherThan(d: Delivery, o: int) {
    d.occurrence.None? || d.occurrence.value < o
  }

  /** A delivery by hand or for an earlier occurrence was the first to finish at or after `o`. */
  ghost predicate Overtaken(r: Record, o: int) {
    exists j :: 0 <= j < |r.deliveries| && FirstAfter(r.deliveries, o, j) && OtherThan(r.deliveries[j], o)
  }

  /** No occurrence is delivered twice, and they are delivered in order. */
  lemma AtMostOnce(s: Schedule, r: Record, i: nat, j: nat)
    requires Kept(s, r) && i < j < |r.deliveries|
    requires r.deliveries[i].occurrence.Some? && r.deliveries[j].occurrence.Some?
    ensures r.deliveries[i].occurrence.value < r.deliveries[j].occurrence.value
  {
    assert MadeAtTick(s, r.ticks, i, r.deliveries[i]);
  }

  /** Deliveries made before a tick are for no occurrence later than the one current at it. */
  lemma NoneFromTheFuture(s: Schedule, r: Record, k: nat, o: int, j: nat)
    requires Kept(s, r) && k < |r.ticks| && Latest(s.plan, r.ticks[k].at, o) && j < r.ticks[k].made
    ensures OtherThan(r.deliveries[j], o) || r.deliveries[j].occurrence == Some(o)
  {
    var d := r.deliveries[j];
    if d.occurrence.Some? {
      assert MadeAtTick(s, r.ticks, j, d);
      var i :| 0 <= i < |r.ticks| && r.ticks[i].made == j && Latest(s.plan, r.ticks[i].at, d.occurrence.value);
      assert i < k;
      LatestGrows(s.plan, r.ticks[i].at, d.occurrence.value, r.ticks[k].at, o);
    }
  }

  lemma LatestGrows(p: Plan, t: int, o: int, u: int, q: int)
    requires Latest(p, t, o) && Latest(p, u, q) && t <= u
    ensures o <= q
  {
  }

  /**
    The first tick at or after an occurrence decides: the occurrence is delivered, at that tick or ever, iff
    every delivery made before the tick had finished before the occurrence.
   */
  lemma DeliveredIffFree(s: Schedule, r: Record, k: nat, o: int)
    requires Kept(s, r) && k < |r.ticks| && Latest(s.plan, r.ticks[k].at, o) && s.createdAt <= o && 0 < o
    requires forall i :: 0 <= i < k ==> r.ticks[i].at < o
    ensures Attempted(r, o) <==> AllBefore(r.deliveries, r.ticks[k].made, o)
  {
    if Attempted(r, o) {
      var j :| 0 <= j < |r.deliveries| && r.deliveries[j].occurrence == Some(o);
      assert MadeAtTick(s, r.ticks, j, r.deliveries[j]);
      var i :| 0 <= i < |r.ticks| && r.ticks[i].made == j && Latest(s.plan, r.ticks[i].at, o);
      assert i >= k;
    } else {
      assert Answered(s, r.deliveries, r.ticks[k]);
    }
  }

  /** The delivery for an occurrence is the first to finish at or after it. */
  lemma AttemptIsFirst(s: Schedule, r: Record, i: nat, o: int)
    requires Kept(s, r) && i < |r.deliveries| && r.deliveries[i].occurrence == Some(o)
    ensures FirstAfter(r.deliveries, o, i)
  {
    hide Latest, Answered, TicksOrdered, LastRun;
    assert MadeAtTick(s, r.ticks, i, r.deliveries[i]);
  }

  lemma FirstAfterUnique(d: seq<Delivery>, o: int, i: nat, j: nat)
    requires FirstAfter(d, o, i) && FirstAfter(d, o, j)
    ensures i == j
  {
  }

  /** An occurrence that some tick has seen is delivered unless it was overtaken. */
  lemma DeliveredUnlessOvertaken(s: Schedule, r: Record, k: nat, o: int)
    requires Kept(s, r) && k < |r.ticks| && Latest(s.plan, r.ticks[k].at, o) && s.createdAt <= o && 0 < o
    ensures Attempted(r, o) <==> !Overtaken(r, o)
  {
    hide Latest, DeliveriesOrdered, MadeAtTick;
    var d := r.deliveries;
    assert Answered(s, d, r.ticks[k]) && r.ticks[k].made <= |d|;
    if Attempted(r, o) {
      var i :| 0 <= i < |d| && d[i].occurrence == Some(o);
      AttemptIsFirst(s, r, i, o);
      hide Kept, Answered, FirstAfter;
      forall j | 0 <= j < |d| && FirstAfter(d, o, j) ensures j == i {
        FirstAfterUnique(d, o, i, j);
      }
    } else {
      assert !AllBefore(d, r.ticks[k].made, o);
      hide Answered;
      var j := FindFirst(d, r.ticks[k].made, o);
      NoneFromTheFuture(s, r, k, o, j);
    }
  }

  /**
    Exactly once: a tick falls before the next occurrence, and whatever was made before it, by hand or for
    an earlier occurrence, finished before this one.
   */
  lemma ExactlyOnce(s: Schedule, r: Record, k: nat, o: int) returns (j: nat)
    requires Kept(s, r) && k < |r.ticks| && Latest(s.plan, r.ticks[k].at, o) && s.createdAt <= o && 0 < o
    requires forall i :: 0 <= i < r.ticks[k].made && OtherThan(r.deliveries[i], o) ==> r.deliveries[i].finish < o
    ensures forall i :: 0 <= i < |r.deliveries| ==> (r.deliveries[i].occurrence == Some(o) <==> i == j)
    ensures j < |r.deliveries|
  {
    hide Latest;
    DeliveredUnlessOvertaken(s, r, k, o);
    var d := r.deliveries;
    j :| 0 <= j < |d| && d[j].occurrence == Some(o);
    forall i | 0 <= i < |d| && i != j && d[i].occurrence.Some? ensures d[i].occurrence != Some(o) {
      if i < j {
        AtMostOnce(s, r, i, j);
      } else {
        AtMostOnce(s, r, j, i);
      }
    }
  }

  lemma {:induction false} FindFirst(d: seq<Delivery>, n: nat, o: int) returns (j: nat)
    requires n <= |d| && !AllBefore(d, n, o)
    ensures j < n && FirstAfter(d, o, j)
  {
    j := 0;
    while d[j].finish < o
      invariant j < n && AllBefore(d, j, o)
      decreases n - j
    {
      j := j + 1;
    }
  }

  /** One schedule across one tick. */
  ghost predicate Ticked(s: Schedule, r: Record, now: int, outcome: Outcome, s': Schedule, r': Record) {
    if !s.enabled then s' == s && r' == r
    else
      && r'.ticks == r.ticks + [Tick(now, |r.deliveries|)]
      && if !IsDue(s, now) then s' == s && r'.deliveries == r.deliveries
         else
           var finish := FinishOf(outcome, now);
           && s' == s.(lastRun := Some(finish))
           && exists o :: Latest(s.plan, now, o) && r'.deliveries == r.deliveries + [Delivery(Some(o), finish)]
  }

  /** A delivery leaves the time it ended, a failed one the time of the tick; nothing else changes. */
  lemma TickedMeaning(s: Schedule, r: Record, now: int, outcome: Outcome, s': Schedule, r': Record)
    requires Ticked(s, r, now, outcome, s', r')
    ensures IsDue(s, now) && outcome.Failed? ==> s' == s.(lastRun := Some(now))
    ensures IsDue(s, now) && outcome.Delivered? ==> s' == s.(lastRun := Some(outcome.finish))
    ensures !IsDue(s, now) ==> s' == s && r'.deliveries == r.deliveries
    ensures IsDue(s, now) ==> |r'.deliveries| == |r.deliveries| + 1 && r'.deliveries[|r.deliveries|].occurrence.Some?
  {
    hide Latest;
  }

  function FinishOf(outcome: Outcome, now: int): int {
    if outcome.Delivered? then outcome.finish else now
  }

  /** The clock does not run back behind an earlier tick or delivery. */
  ghost predicate ClockAt(s: Schedule, r: Record, now: int) {
    LastRun(s) <= now && (r.ticks != [] ==> r.ticks[|r.ticks| - 1].at <= now)
  }

  /** A delivery that ends after the last one, and is for a newer occurrence if it is for any. */
  lemma AppendKeeps(s: Schedule, r: Record, d: Delivery)
    requires Kept(s, r) && LastRun(s) <= d.finish
    requires d.occurrence.Some? ==> LastRun(s) < d.occurrence.value
    ensures var s', e := s.(lastRun := Some(d.finish)), r.deliveries + [d];
            && DeliveriesOrdered(e)
            && (forall k :: 0 <= k < |r.ticks| ==> Answered(s', e, r.ticks[k]))
            && (forall j :: 0 <= j < |r.deliveries| && e[j].occurrence.Some? ==> MadeAtTick(s', r.ticks, j, e[j]))
  {
    hide Latest;
    var s', e := s.(lastRun := Some(d.finish)), r.deliveries + [d];
    forall k | 0 <= k < |r.ticks| ensures Answered(s', e, r.ticks[k]) {
      StillAnswered(s, s', r.deliveries, d, r.ticks[k]);
    }
    forall j | 0 <= j < |r.deliveries| && e[j].occurrence.Some? ensures MadeAtTick(s', r.ticks, j, e[j]) {
      assert MadeAtTick(s, r.ticks, j, r.deliveries[j]);
    }
  }

  lemma StillAnswered(s: Schedule, s': Schedule, d: seq<Delivery>, more: Delivery, t: Tick)
    requires s'.plan == s.plan && s'.createdAt == s.createdAt
    requires t.made <= |d| && Answered(s, d, t)
    ensures Answered(s', d + [more], t)
  {
    hide Latest;
    forall o | AllBefore(d + [more], t.made, o) ensures AllBefore(d, t.made, o) {
      assert forall i :: 0 <= i < t.made ==> (d + [more])[i] == d[i];
    }
  }

  /** The only occurrence that can be due. */
  lemma DueOccurrence(s: Schedule, now: int, o: int)
    requires IsDue(s, now) && Latest(s.plan, now, o)
    ensures s.createdAt <= o && LastRun(s) < o <= now
  {
    var u :| Latest(s.plan, now, u) && s.createdAt <= u && LastRun(s) < u;
    LatestUnique(s.plan, now, o, u);
  }

  /** A tick, delivering or not, keeps the invariant, as long as the clock does not run back. */
  lemma TickKeeps(s: Schedule, r: Record, now: int, outcome: Outcome, s': Schedule, r': Record)
    requires Kept(s, r) && Ticked(s, r, now, outcome, s', r')
    requires ClockAt(s, r, now) && now <= FinishOf(outcome, now)
    ensures Kept(s', r')
  {
    if s.enabled && IsDue(s, now) {
      var finish := FinishOf(outcome, now);
      var o :| Latest(s.plan, now, o) && r'.deliveries == r.deliveries + [Delivery(Some(o), finish)];
      DueOccurrence(s, now, o);
      hide IsDue, FinishOf;
      AppendKeeps(s, r, Delivery(Some(o), finish));
      DueTickKeeps(s, r, now, o, finish, s', r');
    } else if s.enabled {
      QuietTickKeeps(s, r, now, r');
    }
  }

  lemma DueTickKeeps(s: Schedule, r: Record, now: int, o: int, finish: int, s': Schedule, r': Record)
    requires Kept(s, r) && ClockAt(s, r, now) && LastRun(s) < o <= now <= finish &&
             s.createdAt <= o && Latest(s.plan, now, o)
    requires s' == s.(lastRun := Some(finish))
    requires r' == Record(r.deliveries + [Delivery(Some(o), finish)], r.ticks + [Tick(now, |r.deliveries|)])
    requires DeliveriesOrdered(r'.deliveries)
    requires forall k :: 0 <= k < |r.ticks| ==> Answered(s', r'.deliveries, r.ticks[k])
    requires forall j :: 0 <= j < |r.deliveries| && r'.deliveries[j].occurrence.Some? ==>
               MadeAtTick(s', r.ticks, j, r'.deliveries[j])
    ensures Kept(s', r')
  {
    var n, t := |r.deliveries|, r'.ticks[|r.ticks|];
    assert Answered(s', r'.deliveries, t) by {
      forall u | Latest(s.plan, now, u) ensures u == o { LatestUnique(s.plan, now, o, u); }
    }
    assert r'.ticks[|r.ticks|].made == n && MadeAtTick(s', r'.ticks, n, r'.deliveries[n]);
    forall j | 0 <= j < n && r'.deliveries[j].occurrence.Some? ensures MadeAtTick(s', r'.ticks, j, r'.deliveries[j]) {
      MoreTicks(s', r.ticks, t, j, r'.deliveries[j]);
    }
    hide Latest, MadeAtTick, Answered, DeliveriesOrdered;
    forall k | 0 <= k < |r'.ticks| ensures Answered(s', r'.deliveries, r'.ticks[k]) {
      if k < |r.ticks| { assert r'.ticks[k] == r.ticks[k]; }
    }
  }

  lemma MoreTicks(s: Schedule, ticks: seq<Tick>, t: Tick, j: nat, d: Delivery)
    requires d.occurrence.Some? && MadeAtTick(s, ticks, j, d)
    ensures MadeAtTick(s, ticks + [t], j, d)
  {
    hide Latest;
    var k :| 0 <= k < |ticks| && ticks[k].made == j && Latest(s.plan, ticks[k].at, d.occurrence.value);
    assert (ticks + [t])[k] == ticks[k];
  }

  /** Nothing was due: either there is no occurrence for this schedule yet, or the last delivery ran into it. */
  lemma QuietTickKeeps(s: Schedule, r: Record, now: int, r': Record)
    requires Kept(s, r) && ClockAt(s, r, now) && s.enabled && !IsDue(s, now)
    requires r' == Record(r.deliveries, r.ticks + [Tick(now, |r.deliveries|)])
    ensures Kept(s, r')
  {
    hide Latest;
    var n, t := |r.deliveries|, r'.ticks[|r.ticks|];
    assert Answered(s, r.deliveries, t);
    forall j | 0 <= j < n && r.deliveries[j].occurrence.Some? ensures MadeAtTick(s, r'.ticks, j, r.deliveries[j]) {
      MoreTicks(s, r.ticks, t, j, r.deliveries[j]);
    }
    hide MadeAtTick, Answered, DeliveriesOrdered;
    forall k | 0 <= k < |r'.ticks| ensures Answered(s, r'.deliveries, r'.ticks[k]) {
      if k < |r.ticks| { assert r'.ticks[k] == r.ticks[k]; }
    }
  }

  class Reports {
    var rows: seq<Schedule>
    ghost var records: seq<Record>

    ghost predicate Valid()
      reads this
    {
      && |rows| == |records|
      && forall k :: 0 <= k < |rows| ==> 0 <= rows[k].plan.hour < 24 && Kept(rows[k], records[k])
    }

    constructor ()
      ensures Valid() && rows == []
    {
      rows, records := [], [];
    }

    method Create(plan: Plan, enabled: bool, now: int)
      requires Valid() && 0 <= plan.hour < 24
      modifies this
      ensures Valid()
      ensures rows == old(rows) + [Schedule(plan, enabled, now, None)]
      ensures records == old(records) + [Record([], [])]
    {
      rows := rows + [Schedule(plan, enabled, now, None)];
      records := records + [Record([], [])];
    }

    method SetEnabled(k: nat, enabled: bool)
      requires Valid() && k < |rows|
      modifies `rows
      ensures Valid()
      ensures rows == old(rows)[k := old(rows[k]).(enabled := enabled)]
    {
      hide Latest;
      rows := rows[k := rows[k].(enabled := enabled)];
    }

    /** A report sent by hand. */
    method SendNow(k: nat, finish: int)
      requires Valid() && k < |rows| && LastRun(rows[k]) <= finish
      modifies this
      ensures Valid()
      ensures rows == old(rows)[k := old(rows[k]).(lastRun := Some(finish))]
      ensures records == old(records)
                      [k := Record(old(records[k]).deliveries + [Delivery(None, finish)], old(records[k]).ticks)]
    {
      SendKeeps(rows[k], records[k], finish);
      hide Latest, Kept;
      records := records[k := Record(records[k].deliveries + [Delivery(None, finish)], records[k].ticks)];
      rows := rows[k := rows[k].(lastRun := Some(finish))];
    }

    /** One tick over all schedules; `outcomes` says how each delivery would end. */
    method RunDue(now: nat, outcomes: seq<Outcome>) returns (sent: nat)
      requires Valid() && |outcomes| == |rows|
      requires forall k :: 0 <= k < |rows| ==> ClockAt(rows[k], records[k], now) && now <= FinishOf(outcomes[k], now)
      modifies this
      ensures Valid() && |rows| == old(|rows|)
      ensures forall k :: 0 <= k < |rows| ==> Ticked(old(rows[k]), old(records[k]), now, outcomes[k], rows[k], records[k])
      ensures sent == |set k | 0 <= k < |rows| && outcomes[k].Delivered? && old(IsDue(rows[k], now))|
    {
      hide Latest, Kept, IsDue, Ticked;
      sent := 0;
      ghost var done: set<int> := {};
      for k := 0 to |rows|
        invariant Valid() && |rows| == old(|rows|)
        invariant forall i :: 0 <= i < k ==> Ticked(old(rows[i]), old(records[i]), now, outcomes[i], rows[i], records[i])
        invariant forall i :: k <= i < |rows| ==> rows[i] == old(rows[i]) && records[i] == old(records[i])
        invariant done == set i | 0 <= i < k && outcomes[i].Delivered? && old(IsDue(rows[i], now))
        invariant sent == |done|
      {
        var row := rows[k];
        var due := CheckDue(row, now);
        ghost var record := RecordAfter(row, records[k], now, outcomes[k], due);
        if due {
          if outcomes[k].Delivered? {
            row := row.(lastRun := Some(outcomes[k].finish));
            sent := sent + 1;
            done := done + {k};
          } else {
            row := row.(lastRun := Some(now));
          }
        }
        TickKeeps(rows[k], records[k], now, outcomes[k], row, record);
        rows, records := rows[k := row], records[k := record];
      }
    }
  }

  lemma SendKeeps(s: Schedule, r: Record, finish: int)
    requires Kept(s, r) && LastRun(s) <= finish
    ensures Kept(s.(lastRun := Some(finish)), Record(r.deliveries + [Delivery(None, finish)], r.ticks))
  {
    hide Latest, Answered, MadeAtTick, DeliveriesOrdered;
    AppendKeeps(s, r, Delivery(None, finish));
  }

  /** The record of one schedule after a tick. */
  lemma RecordAfter(s: Schedule, r: Record, now: int, outcome: Outcome, due: bool) returns (r': Record)
    requires due == IsDue(s, now)
    ensures Ticked(s, r, now, outcome, if due then s.(lastRun := Some(FinishOf(outcome, now))) else s, r')
  {
    hide Latest;
    var ticks := if s.enabled then r.ticks + [Tick(now, |r.deliveries|)] else r.ticks;
    r' := Record(r.deliveries, ticks);
    if due {
      var o :| Latest(s.plan, now, o) && s.createdAt <= o && LastRun(s) < o;
      r' := Record(r.deliveries + [Delivery(Some(o), FinishOf(outcome, now))], ticks);
    }
  }

  // ----- an occurrence that is skipped

  /** A daily report at seven. */
  const AT_SEVEN := Plan("daily", 7, 0, 1)

  lemma DayAndNext(day: int)
    ensures At(AT_SEVEN, day + 1) == At(AT_SEVEN, day) + DAY
    ensures forall now :: At(AT_SEVEN, day) <= now < At(AT_SEVEN, day) + DAY ==> Latest(AT_SEVEN, now, At(AT_SEVEN, day))
  {
    forall now | At(AT_SEVEN, day) <= now < At(AT_SEVEN, day) + DAY ensures Latest(AT_SEVEN, now, At(AT_SEVEN, day)) {
      DailyLatest(AT_SEVEN, now, day);
    }
  }

  /**
    Two ticks from a new schedule: the first delivers a day's report but finishes after the next day's hour;
    the second sees that next occurrence and does not deliver it.
   */
  lemma SkippedOccurrence() returns (s1: Schedule, r1: Record, s2: Schedule, r2: Record)
    ensures var o, missed := At(AT_SEVEN, EPOCH_DAY + 1), At(AT_SEVEN, EPOCH_DAY + 2);
            && Ticked(Schedule(AT_SEVEN, true, 1, None), Record([], []), o, Delivered(missed + HOUR), s1, r1)
            && ClockAt(s1, r1, missed + 2 * HOUR)
            && Ticked(s1, r1, missed + 2 * HOUR, Failed, s2, r2)
            && Kept(s2, r2) && |r2.ticks| == 2
            && Latest(AT_SEVEN, r2.ticks[1].at, missed) && s2.createdAt <= missed
            && Attempted(r2, o) && !Attempted(r2, missed) && Overtaken(r2, missed)
  {
    var o, missed := At(AT_SEVEN, EPOCH_DAY + 1), At(AT_SEVEN, EPOCH_DAY + 2);
    var later := missed + 2 * HOUR;
    var s0, r0 := Schedule(AT_SEVEN, true, 1, None), Record([], []);
    DayAndNext(EPOCH_DAY + 1);
    DayAndNext(EPOCH_DAY + 2);
    assert o == DAY + 7 * HOUR && missed == o + DAY;
    hide At, Latest, Kept, Attempted, Overtaken;
    assert Latest(s0.plan, o, o) && s0.createdAt <= o && LastRun(s0) < o;
    s1 := s0.(lastRun := Some(missed + HOUR));
    r1 := Record([Delivery(Some(o), missed + HOUR)], [Tick(o, 0)]);
    assert Ticked(s0, r0, o, Delivered(missed + HOUR), s1, r1);
    NewIsKept(s0);
    TickKeeps(s0, r0, o, Delivered(missed + HOUR), s1, r1);
    s2, r2 := s1, Record(r1.deliveries, r1.ticks + [Tick(later, 1)]);
    forall u | Latest(AT_SEVEN, later, u) ensures u == missed {
      LatestUnique(AT_SEVEN, later, u, missed);
    }
    TickKeeps(s1, r1, later, Failed, s2, r2);
    OnlyDelivery(r2, o, missed, missed + HOUR);
  }

  lemma OnlyDelivery(r: Record, o: int, missed: int, finish: int)
    requires r.deliveries == [Delivery(Some(o), finish)] && o < missed <= finish
    ensures Attempted(r, o) && !Attempted(r, missed) && Overtaken(r, missed)
  {
    assert r.deliveries[0].occurrence == Some(o);
    assert FirstAfter(r.deliveries, missed, 0);
  }

  lemma NewIsKept(s: Schedule)
    requires s.lastRun == None
    ensures Kept(s, Record([], []))
  {
  }

  /** The report is sent by hand half a minute after the hour; the tick half a minute later does not deliver it. */
  lemma HandSentSkips() returns (s1: Schedule, r1: Record, s2: Schedule, r2: Record)
    ensures var missed := At(AT_SEVEN, EPOCH_DAY + 1);
            && s1 == Schedule(AT_SEVEN, true, 1, Some(missed + HOUR / 120))
            && r1 == Record([Delivery(None, missed + HOUR / 120)], [])
            && ClockAt(s1, r1, missed + HOUR / 60)
            && Ticked(s1, r1, missed + HOUR / 60, Failed, s2, r2)
            && Kept(s1, r1) && Kept(s2, r2) && |r2.ticks| == 1
            && Latest(AT_SEVEN, r2.ticks[0].at, missed) && s2.createdAt <= missed
            && !Attempted(r2, missed) && Overtaken(r2, missed)
  {
    var missed := At(AT_SEVEN, EPOCH_DAY + 1);
    var sent, later := missed + HOUR / 120, missed + HOUR / 60;
    var s0, r0 := Schedule(AT_SEVEN, true, 1, None), Record([], []);
    DayAndNext(EPOCH_DAY + 1);
    assert missed == DAY + 7 * HOUR;
    hide At, Latest, Kept, Attempted, Overtaken;
    NewIsKept(s0);
    SendKeeps(s0, r0, sent);
    assert r0.deliveries + [Delivery(None, sent)] == [Delivery(None, sent)];
    s1, r1 := s0.(lastRun := Some(sent)), Record([Delivery(None, sent)], []);
    s2, r2 := s1, Record(r1.deliveries, [Tick(later, 1)]);
    assert r1.ticks + [Tick(later, 1)] == r2.ticks;
    forall u | Latest(AT_SEVEN, later, u) ensures u == missed {
      LatestUnique(AT_SEVEN, later, u, missed);
    }
    TickKeeps(s1, r1, later, Failed, s2, r2);
    OnlyByHand(r2, missed, sent);
  }

  lemma OnlyByHand(r: Record, missed: int, finish: int)
    requires r.deliveries == [Delivery(None, finish)] && missed <= finish
    ensures !Attempted(r, missed) && Overtaken(r, missed)
  {
    assert FirstAfter(r.deliveries, missed, 0);
    assert r.deliveries[0].occurrence.None?;
  }
}
