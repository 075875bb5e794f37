/**
  Availability of a check over a window: outages minus maintenance, measured in ticks.

  `Availability` computes its figures from the outage table with the interval
  operations; its contract speaks of the probe history instead.
 */
module Availability {
  import opened Aggregates
  import opened Arithmetic
  import opened CheckHistory
  import opened CheckRunner
  import opened Intervals
  import opened Maintenance
  import opened Options

  datatype Report = Report(start: int, end: int, monitored: int, downtime: int, maintenance: int,
                           uptimePct: Option<real>)

  function Empty(start: int, end: int): Report {
    Report(start, end, 0, 0, 0, None)
  }

  // ----- the declarative reading

  ghost predicate InMaintenance(windows: seq<Window>, c: Check, t: int) {
    Held(windows, t, c.device, Some(c.id))
  }

  /** Tick `t` lies in the maximal failing run `h[i..j]`, which has more than `retries` probes. */
  ghost predicate DownInRun(h: seq<Probe>, retries: int, now: int, t: int, i: int, j: int) {
    && MaximalRun(h, i, j)
    && j - i > retries
    && h[i].ts <= t < (if j < |h| then h[j].ts else now)
  }

  /** Tick `t` lies in some failing run of at least `retries + 1` probes, up to the next success or `now`. */
  ghost predicate DownAt(h: seq<Probe>, retries: int, now: int, t: int) {
    exists i, j :: DownInRun(h, retries, now, t, i, j)
  }

  /** The ticks that count: after the first probe, inside the window, not in the future. */
  ghost function CountedTicks(h: seq<Probe>, start: int, end: int, now: int): set<int> {
    if h == [] then {} else Ticks(Max(start, h[0].ts), Min(end, now))
  }

  ghost function MaintenanceTicks(h: seq<Probe>, windows: seq<Window>, c: Check, start: int, end: int, now: int): set<int> {
    set t | t in CountedTicks(h, start, end, now) && InMaintenance(windows, c, t)
  }

  ghost function MonitoredTicks(h: seq<Probe>, windows: seq<Window>, c: Check, start: int, end: int, now: int): set<int> {
    set t | t in CountedTicks(h, start, end, now) && !InMaintenance(windows, c, t)
  }

  ghost function DownTicks(h: seq<Probe>, windows: seq<Window>, c: Check, start: int, end: int, now: int): set<int> {
    set t | t in MonitoredTicks(h, windows, c, start, end, now) && DownAt(h, c.retries, now, t)
  }

  // ----- the queries

  /** `SELECT starts_at, ends_at FROM maintenance WHERE ...` */
  function WindowRows(windows: seq<Window>, c: Check, start: int, end: int): seq<Interval> {
    if windows == [] then []
    else
      var w := windows[|windows| - 1];
      WindowRows(windows[..|windows| - 1], c, start, end) +
      if w.endsAt > start && w.startsAt < end && AppliesTo(w, c.device, Some(c.id))
      then [Interval(w.startsAt, w.endsAt)] else []
  }

  lemma {:induction false} WindowRowsMeaning(windows: seq<Window>, c: Check, start: int, end: int, t: int)
    requires start <= t < end
    ensures t in Points(WindowRows(windows, c, start, end)) <==> InMaintenance(windows, c, t)
  {
    hide Points;
    if windows == [] {
      NothingCovered([]);
    } else {
      var front, w := windows[..|windows| - 1], windows[|windows| - 1];
      WindowRowsMeaning(front, c, start, end, t);
      PointsAppend(WindowRows(front, c, start, end), Interval(w.startsAt, w.endsAt));
      assert WindowRows(front, c, start, end) + [] == WindowRows(front, c, start, end);
      assert InMaintenance(windows, c, t) <==>
             InMaintenance(front, c, t) || (AppliesTo(w, c.device, Some(c.id)) && w.startsAt <= t < w.endsAt) by {
        if InMaintenance(front, c, t) {
          var i :| 0 <= i < |front| && front[i].startsAt <= t < front[i].endsAt && AppliesTo(front[i], c.device, Some(c.id));
          assert windows[i] == front[i];
        }
      }
    }
  }

  /** `maintenance_windows`. */
  method MaintenanceWindows(windows: seq<Window>, c: Check, start: int, end: int) returns (out: seq<Interval>)
    ensures Canonical(out)
    ensures Points(out) == set t | t in Ticks(start, end) && InMaintenance(windows, c, t)
  {
    var rows := WindowRows(windows, c, start, end);
    forall t | t in Ticks(start, end) ensures t in Points(rows) <==> InMaintenance(windows, c, t) {
      WindowRowsMeaning(windows, c, start, end, t);
    }
    out := Merge(Clip(rows, start, end));
  }

  function EffectiveEnd(o: Outage, now: int): int {
    if o.end.Some? then o.end.value else now
  }

  /** `outage_intervals`: the outages of the check that overlap the window, with their effective ends. */
  function OutageRows(outages: seq<Outage>, id: int, start: int, end: int, now: int): seq<Interval> {
    if outages == [] then []
    else
      var o := outages[|outages| - 1];
      OutageRows(outages[..|outages| - 1], id, start, end, now) +
      if o.check == id && o.start < end && EffectiveEnd(o, now) > start
      then [Interval(o.start, EffectiveEnd(o, now))] else []
  }

  lemma {:induction false} OutageRowsMeaning(outages: seq<Outage>, id: int, start: int, end: int, now: int, t: int)
    requires start <= t < end
    ensures t in Points(OutageRows(outages, id, start, end, now)) <==>
            exists o :: o in outages && o.check == id && o.start <= t < EffectiveEnd(o, now)
  {
    hide Points;
    if outages == [] {
      NothingCovered([]);
    } else {
      var front, o := outages[..|outages| - 1], outages[|outages| - 1];
      OutageRowsMeaning(front, id, start, end, now, t);
      PointsAppend(OutageRows(front, id, start, end, now), Interval(o.start, EffectiveEnd(o, now)));
      assert OutageRows(front, id, start, end, now) + [] == OutageRows(front, id, start, end, now);
      assert outages == front + [o];
    }
  }

  /** The outage table covers exactly the ticks that the history calls down. */
  lemma OutageTableMeansDown(db: Database, c: Check, start: int, end: int, now: int, t: int)
    requires db.Valid() && c.id in db.checks && db.checks[c.id] == c
    requires start <= t < end
    ensures t in Points(OutageRows(db.outages, c.id, start, end, now)) <==> DownAt(db.history[c.id], c.retries, now, t)
  {
    hide Beats, RowReflects, Increasing, MaximalRun, Points, OutageRows;
    var h := db.history[c.id];
    assert Reflects(c, db.heartbeats, db.outages, h);
    OutageRowsMeaning(db.outages, c.id, start, end, now, t);
    if DownAt(h, c.retries, now, t) {
      var i, j :| DownInRun(h, c.retries, now, t, i, j);
      RunsAreIndices(h, i, j);
      var o := RunOutage(c.id, h, i, j);
      assert OutageOfRun(o, c.id, h, c.retries, i, j);
      assert o in db.outages;
    }
    if o :| o in db.outages && o.check == c.id && o.start <= t < EffectiveEnd(o, now) {
      var i, j :| OutageOfRun(o, c.id, h, c.retries, i, j);
      RunsAreIndices(h, i, j);
      assert DownInRun(h, c.retries, now, t, i, j);
    }
  }

  lemma RunsAreIndices(h: seq<Probe>, i: int, j: int)
    requires MaximalRun(h, i, j)
    ensures 0 <= i < j <= |h|
  {
  }

  /** The first heartbeat of the check, and the earliest outage if there is one. */
  function StartCandidates(db: Database, id: int): set<int>
    reads db
  {
    (set k | k in db.heartbeats.Keys && k.0 == id :: k.1) +
    (set o | o in db.outages && o.check == id :: o.start)
  }

  /** Monitoring starts with the first probe; no outage starts earlier. */
  lemma MonitoringStart(db: Database, c: Check)
    requires db.Valid() && c.id in db.checks && db.checks[c.id] == c
    ensures var h := db.history[c.id];
            if h == [] then StartCandidates(db, c.id) == {}
            else StartCandidates(db, c.id) != {} && MinOf(StartCandidates(db, c.id)) == h[0].ts
  {
    hide RowReflects, IsOutage;
    var h, s := db.history[c.id], StartCandidates(db, c.id);
    assert Reflects(c, db.heartbeats, db.outages, h);
    forall t | t in s ensures exists k :: 0 <= k < |h| && h[k].ts == t {
      if o :| o in db.outages && o.check == c.id && o.start == t {
        OutageStart(o, c.id, h, c.retries);
      }
    }
    if h == [] {
      assert forall t :: t !in s;
    } else {
      assert (c.id, h[0].ts) in db.heartbeats.Keys && h[0].ts in s;
      forall t | t in s ensures h[0].ts <= t {
        var k :| 0 <= k < |h| && h[k].ts == t;
      }
    }
  }

  /**
    `availability` over `[start, end)`, seen at `now`.

    Downtime is the number of counted ticks that lie in a failing run of at least
    `retries + 1` probes and in no applicable maintenance window.
   */
  method Availability(db: Database, windows: seq<Window>, check: Check, start: int, end: int, now: int)
    returns (r: Report)
    requires db.Valid() && check.id in db.checks && db.checks[check.id] == check
    ensures check.id in db.history
    ensures r.start == start && r.end == Min(end, now)
    ensures r.downtime == |DownTicks(db.history[check.id], windows, check, start, end, now)|
    ensures r.monitored == |MonitoredTicks(db.history[check.id], windows, check, start, end, now)|
    ensures r.maintenance == |MaintenanceTicks(db.history[check.id], windows, check, start, end, now)|
    ensures 0 <= r.downtime <= r.monitored
    ensures r.uptimePct == if CountedTicks(db.history[check.id], start, end, now) == {} then None
                           else if r.monitored == 0 then Some(100.0)
                           else Some(100.0 * (1.0 - r.downtime as real / r.monitored as real))
    ensures r.uptimePct.Some? ==> 0.0 <= r.uptimePct.value <= 100.0
  {
    hide AllReflect, Points, Canonical, Ticks, Total, InMaintenance, DownAt, StartCandidates,
         DownTicks, MonitoredTicks, MaintenanceTicks;
    ghost var h := db.history[check.id];
    var till := Min(end, now);
    MonitoringStart(db, check);
    var candidates := StartCandidates(db, check.id);
    if candidates == {} {
      NothingCounted(h, windows, check, start, end, now);
      return Empty(start, till);
    }
    var from := Max(start, MinOf(candidates));
    if from >= till {
      NothingCounted(h, windows, check, start, end, now);
      return Empty(start, till);
    }
    assert CountedTicks(h, start, end, now) == Ticks(from, till);
    var maint := MaintenanceWindows(windows, check, from, till);
    var rows := OutageRows(db.outages, check.id, from, till, now);
    var down := Subtract(Clip(rows, from, till), maint);
    var monitored := (till - from) - Total(maint);
    var downtime := Total(down);
    forall t | from <= t < till ensures t in Points(rows) <==> DownAt(h, check.retries, now, t) {
      OutageTableMeansDown(db, check, from, till, now, t);
    }
    TotalIsMeasure(maint);
    TotalIsMeasure(down);
    Figures(h, windows, check, start, end, now, from, till, Points(rows), Points(maint), Points(down));
    PercentInRange(downtime, monitored);
    var pct := if monitored <= 0 then 100.0 else 100.0 * (1.0 - downtime as real / monitored as real);
    r := Report(start, till, monitored, downtime, Total(maint), Some(if pct < 0.0 then 0.0 else pct));
  }

  /** The point sets that the computation measures are the declared ones. */
  lemma Figures(h: seq<Probe>, windows: seq<Window>, c: Check, start: int, end: int, now: int,
                from: int, till: int, rows: set<int>, maint: set<int>, down: set<int>)
    requires from < till && CountedTicks(h, start, end, now) == Ticks(from, till)
    requires forall t :: from <= t < till ==> (t in rows <==> DownAt(h, c.retries, now, t))
    requires maint == set t | t in Ticks(from, till) && InMaintenance(windows, c, t)
    requires down == rows * Ticks(from, till) - maint
    ensures maint == MaintenanceTicks(h, windows, c, start, end, now)
    ensures down == DownTicks(h, windows, c, start, end, now)
    ensures till - from - |maint| == |MonitoredTicks(h, windows, c, start, end, now)|
    ensures |down| <= till - from - |maint|
    ensures CountedTicks(h, start, end, now) != {}
  {
    hide CountedTicks, InMaintenance, DownAt, Ticks;
    var monitored := MonitoredTicks(h, windows, c, start, end, now);
    assert monitored == Ticks(from, till) - maint;
    TicksSize(from, till);
    SubsetSize(down, monitored);
    assert from in Ticks(from, till);
  }

  lemma NothingCounted(h: seq<Probe>, windows: seq<Window>, c: Check, start: int, end: int, now: int)
    requires h == [] || Max(start, h[0].ts) >= Min(end, now)
    ensures CountedTicks(h, start, end, now) == {}
    ensures DownTicks(h, windows, c, start, end, now) == {}
    ensures MonitoredTicks(h, windows, c, start, end, now) == {}
    ensures MaintenanceTicks(h, windows, c, start, end, now) == {}
  {
  }

  lemma {:induction false} SubsetSize(a: set<int>, b: set<int>)
    requires a <= b
    ensures |a| <= |b|
  {
    assert b == a + (b - a);
  }

  lemma PercentInRange(part: int, whole: int)
    requires 0 <= part <= whole
    ensures whole > 0 ==> 0.0 <= 100.0 * (1.0 - part as real / whole as real) <= 100.0
  {
    if whole > 0 {
      var q := part as real / whole as real;
      assert q * whole as real == part as real;
      assert 0.0 <= q <= 1.0;
    }
  }

  // ----- which ticks count, and which windows apply

  /** Counted ticks lie in the window, not before the first probe and not at or after `now`. */
  lemma CountedMeaning(h: seq<Probe>, start: int, end: int, now: int, t: int)
    ensures t in CountedTicks(h, start, end, now) <==> h != [] && start <= t < end && h[0].ts <= t < now
  {
  }

  /** `h[i..j]` is unbroken failure of more than `retries` probes, and `t` lies in it, up to the success after it. */
  ghost predicate FailingAt(h: seq<Probe>, retries: int, now: int, t: int, i: int, j: int) {
    && 0 <= i < j <= |h| && j - i >= retries + 1
    && (forall k :: i <= k < j ==> !h[k].ok) && (i > 0 ==> h[i - 1].ok) && (j < |h| ==> h[j].ok)
    && h[i].ts <= t && (if j < |h| then t < h[j].ts else t < now)
  }

  /** Down ticks are the counted ones outside maintenance that lie in such a run. */
  lemma DownMeaning(h: seq<Probe>, windows: seq<Window>, c: Check, start: int, end: int, now: int, t: int)
    ensures t in DownTicks(h, windows, c, start, end, now) <==>
            (h != [] && start <= t < end && h[0].ts <= t < now && !Held(windows, t, c.device, Some(c.id))
             && exists i, j :: FailingAt(h, c.retries, now, t, i, j))
  {
    hide Held;
    CountedMeaning(h, start, end, now, t);
    if DownAt(h, c.retries, now, t) {
      var i, j :| DownInRun(h, c.retries, now, t, i, j);
      assert FailingAt(h, c.retries, now, t, i, j);
    }
    if i, j :| FailingAt(h, c.retries, now, t, i, j) {
      assert DownInRun(h, c.retries, now, t, i, j);
    }
  }

  /** A window for everything, for the check's device or for the check puts its counted ticks in maintenance. */
  lemma WindowCounts(h: seq<Probe>, windows: seq<Window>, w: Window, c: Check, start: int, end: int, now: int, t: int)
    requires w in windows && w.startsAt <= t < w.endsAt && t in CountedTicks(h, start, end, now)
    requires || (w.device == None && w.check == None)
             || (w.device.Some? && w.device == c.device)
             || w.check == Some(c.id)
    ensures t in MaintenanceTicks(h, windows, c, start, end, now)
    ensures t !in MonitoredTicks(h, windows, c, start, end, now) && t !in DownTicks(h, windows, c, start, end, now)
  {
    WindowHolds(windows, w, t, c.device, Some(c.id));
  }

  /** A window for another device or another check changes no figure. */
  lemma OtherWindowIgnored(h: seq<Probe>, windows: seq<Window>, w: Window, c: Check, start: int, end: int, now: int)
    requires (w.device.Some? || w.check.Some?) && (w.device.Some? ==> c.device != w.device) && w.check != Some(c.id)
    ensures MaintenanceTicks(h, windows + [w], c, start, end, now) == MaintenanceTicks(h, windows, c, start, end, now)
    ensures MonitoredTicks(h, windows + [w], c, start, end, now) == MonitoredTicks(h, windows, c, start, end, now)
    ensures DownTicks(h, windows + [w], c, start, end, now) == DownTicks(h, windows, c, start, end, now)
  {
    hide DownAt, Held, CountedTicks;
    forall t ensures InMaintenance(windows + [w], c, t) <==> InMaintenance(windows, c, t) {
      OtherWindow(windows, w, t, c.device, Some(c.id));
    }
  }

  // ----- windows add up

  lemma SplitCounted(h: seq<Probe>, start: int, mid: int, end: int, now: int)
    requires start <= mid <= end
    ensures CountedTicks(h, start, end, now) == CountedTicks(h, start, mid, now) + CountedTicks(h, mid, end, now)
    ensures CountedTicks(h, start, mid, now) !! CountedTicks(h, mid, end, now)
  {
  }

  /** Figures of adjacent windows add up, also before the first probe and past `now`. */
  lemma WindowsAdd(h: seq<Probe>, windows: seq<Window>, c: Check, start: int, mid: int, end: int, now: int)
    requires start <= mid <= end
    ensures |DownTicks(h, windows, c, start, end, now)|
         == |DownTicks(h, windows, c, start, mid, now)| + |DownTicks(h, windows, c, mid, end, now)|
    ensures |MonitoredTicks(h, windows, c, start, end, now)|
         == |MonitoredTicks(h, windows, c, start, mid, now)| + |MonitoredTicks(h, windows, c, mid, end, now)|
    ensures |MaintenanceTicks(h, windows, c, start, end, now)|
         == |MaintenanceTicks(h, windows, c, start, mid, now)| + |MaintenanceTicks(h, windows, c, mid, end, now)|
  {
    hide CountedTicks, InMaintenance, DownAt;
    SplitCounted(h, start, mid, end, now);
    assert DownTicks(h, windows, c, start, end, now)
        == DownTicks(h, windows, c, start, mid, now) + DownTicks(h, windows, c, mid, end, now);
    assert MonitoredTicks(h, windows, c, start, end, now)
        == MonitoredTicks(h, windows, c, start, mid, now) + MonitoredTicks(h, windows, c, mid, end, now);
    assert MaintenanceTicks(h, windows, c, start, end, now)
        == MaintenanceTicks(h, windows, c, start, mid, now) + MaintenanceTicks(h, windows, c, mid, end, now);
  }

  /** Downtime of each of the consecutive windows `[days[k], days[k + 1])`. */
  ghost function SummedBars(h: seq<Probe>, windows: seq<Window>, c: Check, days: seq<int>, now: int): int {
    if |days| < 2 then 0
    else
      SummedBars(h, windows, c, days[..|days| - 1], now) +
      |DownTicks(h, windows, c, days[|days| - 2], days[|days| - 1], now)|
  }

  /** `daily_bars`: the bars of contiguous days add up to the downtime of the whole span. */
  lemma {:induction false} DailyBarsAddUp(h: seq<Probe>, windows: seq<Window>, c: Check, days: seq<int>, now: int)
    requires |days| > 0
    requires forall i, j :: 0 <= i < j < |days| ==> days[i] <= days[j]
    ensures SummedBars(h, windows, c, days, now)
         == |DownTicks(h, windows, c, days[0], days[|days| - 1], now)|
  {
    if |days| == 1 {
      assert DownTicks(h, windows, c, days[0], days[0], now) == {};
    } else {
      DailyBarsAddUp(h, windows, c, days[..|days| - 1], now);
      WindowsAdd(h, windows, c, days[0], days[|days| - 2], days[|days| - 1], now);
    }
  }
}
