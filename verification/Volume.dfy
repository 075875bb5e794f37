/**
  Data volume of a window: the integral of a rate taken from hourly rollups, 5-minute
  rollups and raw samples.

  The result is compared with an integral over single ticks in which every tick is
  given its rate by at most one of the three tiers.
 */
module Volume {
  import opened Aggregates
  import opened SampleHistory
  import opened Storage

  // ----- integrals over ticks

  ghost function Integral(f: int -> real, lo: int, hi: int): real
    decreases hi - lo
  {
    if hi <= lo then 0.0 else Integral(f, lo, hi - 1) + f(hi - 1)
  }

  lemma {:induction false} IntegralSplit(f: int -> real, lo: int, mid: int, hi: int)
    requires lo <= mid <= hi
    ensures Integral(f, lo, hi) == Integral(f, lo, mid) + Integral(f, mid, hi)
    decreases hi - mid
  {
    if hi <= mid {
    } else {
      IntegralSplit(f, lo, mid, hi - 1);
    }
  }

  lemma {:induction false} IntegralAgree(f: int -> real, g: int -> real, lo: int, hi: int)
    requires forall t :: lo <= t < hi ==> f(t) == g(t)
    ensures Integral(f, lo, hi) == Integral(g, lo, hi)
    decreases hi - lo
  {
    if hi <= lo {
    } else {
      IntegralAgree(f, g, lo, hi - 1);
    }
  }

  lemma {:induction false} IntegralConstant(f: int -> real, lo: int, hi: int, c: real)
    requires lo <= hi && forall t :: lo <= t < hi ==> f(t) == c
    ensures Integral(f, lo, hi) == c * (hi - lo) as real
    decreases hi - lo
  {
    if hi <= lo {
    } else {
      IntegralConstant(f, lo, hi - 1, c);
    }
  }

  lemma {:induction false} IntegralSum(f: int -> real, g: int -> real, h: int -> real, lo: int, hi: int)
    requires forall t :: lo <= t < hi ==> h(t) == f(t) + g(t)
    ensures Integral(h, lo, hi) == Integral(f, lo, hi) + Integral(g, lo, hi)
    decreases hi - lo
  {
    if hi <= lo {
    } else {
      IntegralSum(f, g, h, lo, hi - 1);
    }
  }

  lemma {:induction false} IntegralBounds(f: int -> real, lo: int, hi: int, top: real)
    requires lo <= hi && forall t :: lo <= t < hi ==> 0.0 <= f(t) <= top
    ensures 0.0 <= Integral(f, lo, hi) <= top * (hi - lo) as real
    decreases hi - lo
  {
    if hi <= lo {
    } else {
      IntegralBounds(f, lo, hi - 1, top);
    }
  }

  // ----- one rollup tier

  ghost predicate RowsAligned(r: Rollups) {
    forall m, p, b :: (m, p, b) in r && IsPeriod(p) ==> b % p == 0
  }

  /** `SUM(vavg) ... WHERE bucket >= lo AND bucket + p <= hi`. */
  function SumRows(r: Rollups, m: int, p: int, lo: int, hi: int): real
    decreases hi - lo
  {
    if hi <= lo then 0.0
    else
      SumRows(r, m, p, lo, hi - 1) +
      if lo <= hi - p && (m, p, hi - p) in r then r[(m, p, hi - p)].vavg else 0.0
  }

  /** The buckets that the query selects, for its MIN and MAX. */
  function BucketsIn(r: Rollups, m: int, p: int, lo: int, hi: int): set<int> {
    set k | k in r.Keys && k.0 == m && k.1 == p && lo <= k.2 && k.2 + p <= hi :: k.2
  }

  /** Tick `t` lies in a selected bucket that has a row. */
  predicate InTier(r: Rollups, m: int, p: int, lo: int, hi: int, t: int)
    requires p > 0
  {
    var b := Bucket(t, p);
    (m, p, b) in r && lo <= b && b + p <= hi
  }

  function TierRate(r: Rollups, m: int, p: int, lo: int, hi: int, t: int): real
    requires p > 0
  {
    if InTier(r, m, p, lo, hi, t) then r[(m, p, Bucket(t, p))].vavg else 0.0
  }

  /** Raising the upper bound by one can only add the bucket that ends there. */
  lemma TierStep(r: Rollups, m: int, p: int, lo: int, hi: int, t: int)
    requires IsPeriod(p) && RowsAligned(r)
    ensures var b := hi - p;
            if lo <= b && (m, p, b) in r && b <= t < hi then
              TierRate(r, m, p, lo, hi, t) == r[(m, p, b)].vavg && TierRate(r, m, p, lo, hi - 1, t) == 0.0
            else TierRate(r, m, p, lo, hi, t) == TierRate(r, m, p, lo, hi - 1, t)
    ensures t == hi - 1 && !(lo <= hi - p && (m, p, hi - p) in r) ==> TierRate(r, m, p, lo, hi, t) == 0.0
  {
    hide Bucket;
    BucketOf(t, p);
    var b := hi - p;
    if (m, p, b) in r && b <= t < hi { BucketUnique(t, b, p); }
  }

  /** The sum of the rows times the period is the integral of the tier. */
  lemma {:induction false} TierIntegral(r: Rollups, m: int, p: int, lo: int, hi: int)
    requires IsPeriod(p) && RowsAligned(r)
    ensures Integral(t => TierRate(r, m, p, lo, hi, t), lo, hi) == SumRows(r, m, p, lo, hi) * p as real
    decreases hi - lo
  {
    hide TierRate;
    if hi <= lo {
    } else {
      TierIntegral(r, m, p, lo, hi - 1);
      var b := hi - p;
      var f, g := t => TierRate(r, m, p, lo, hi, t), t => TierRate(r, m, p, lo, hi - 1, t);
      forall t ensures if lo <= b && (m, p, b) in r && b <= t < hi then f(t) == r[(m, p, b)].vavg && g(t) == 0.0
                       else f(t) == g(t) {
        TierStep(r, m, p, lo, hi, t);
      }
      if lo <= b && (m, p, b) in r {
        IntegralSplit(f, lo, b, hi);
        IntegralSplit(g, lo, b, hi - 1);
        IntegralAgree(f, g, lo, b);
        IntegralConstant(f, b, hi, r[(m, p, b)].vavg);
        IntegralConstant(g, b, hi - 1, 0.0);
      } else {
        TierStep(r, m, p, lo, hi, hi - 1);
        IntegralAgree(f, g, lo, hi - 1);
      }
    }
  }

  lemma {:induction false} NoRowsNoSum(r: Rollups, m: int, p: int, lo: int, hi: int)
    requires BucketsIn(r, m, p, lo, hi) == {}
    ensures SumRows(r, m, p, lo, hi) == 0.0
    decreases hi - lo
  {
    if hi <= lo {
    } else {
      assert BucketsIn(r, m, p, lo, hi - 1) <= BucketsIn(r, m, p, lo, hi);
      NoRowsNoSum(r, m, p, lo, hi - 1);
      assert lo <= hi - p && (m, p, hi - p) in r.Keys ==> hi - p in BucketsIn(r, m, p, lo, hi);
    }
  }

  // ----- the raw tier

  type Reading = (int, real)

  /** `SELECT ts, value FROM samples WHERE ts >= from AND ts <= end ORDER BY ts`. */
  function RawRows(s: Samples, m: int, from: int, end: int): (rows: seq<Reading>)
    ensures forall i :: 0 <= i < |rows| ==> from <= rows[i].0 <= end
    ensures forall i :: 0 <= i < |rows| ==> (m, rows[i].0) in s && rows[i].1 == s[(m, rows[i].0)]
    ensures forall i, j :: 0 <= i < j < |rows| ==> rows[i].0 < rows[j].0
    decreases end - from
  {
    if end < from then []
    else RawRows(s, m, from, end - 1) + if (m, end) in s then [(end, s[(m, end)])] else []
  }

  /** The last reading at or before `t`, as long as another one follows. */
  function RawRate(rows: seq<Reading>, t: int): real {
    if |rows| < 2 then 0.0
    else if rows[|rows| - 2].0 <= t < rows[|rows| - 1].0 then rows[|rows| - 2].1
    else RawRate(rows[..|rows| - 1], t)
  }

  /** The loop over neighbouring readings. */
  function PairSum(rows: seq<Reading>): real {
    if |rows| < 2 then 0.0
    else
      PairSum(rows[..|rows| - 1]) +
      rows[|rows| - 2].1 * (rows[|rows| - 1].0 - rows[|rows| - 2].0) as real
  }

  lemma {:induction false} RawRateOutside(rows: seq<Reading>, t: int)
    requires forall i, j :: 0 <= i < j < |rows| ==> rows[i].0 < rows[j].0
    requires rows == [] || t < rows[0].0 || t >= rows[|rows| - 1].0
    ensures RawRate(rows, t) == 0.0
  {
    if |rows| < 2 {
    } else {
      RawRateOutside(rows[..|rows| - 1], t);
    }
  }

  lemma {:induction false} RawIntegral(rows: seq<Reading>, from: int, end: int)
    requires forall i, j :: 0 <= i < j < |rows| ==> rows[i].0 < rows[j].0
    requires forall i :: 0 <= i < |rows| ==> from <= rows[i].0 <= end
    ensures Integral(t => RawRate(rows, t), from, end) == PairSum(rows)
  {
    hide RawRate, Integral;
    var f := t => RawRate(rows, t);
    var n := |rows|;
    if n < 2 {
      forall t ensures f(t) == 0.0 { RawRateFew(rows, t); }
      if from <= end {
        IntegralConstant(f, from, end, 0.0);
      } else {
        NoTicksNoIntegral(f, from, end);
      }
    } else {
      var front := rows[..n - 1];
      var g := t => RawRate(front, t);
      var a, b := rows[n - 2].0, rows[n - 1].0;
      RawIntegral(front, from, end);
      forall t ensures f(t) == if a <= t < b then rows[n - 2].1 else g(t) { RawRateStep(rows, t); }
      forall t | a <= t ensures g(t) == 0.0 { RawRateOutside(front, t); }
      IntegralSplit(f, from, a, end);
      IntegralSplit(f, a, b, end);
      IntegralSplit(g, from, a, end);
      IntegralAgree(f, g, from, a);
      IntegralConstant(f, a, b, rows[n - 2].1);
      IntegralConstant(f, b, end, 0.0);
      IntegralConstant(g, a, end, 0.0);
    }
  }

  lemma NoTicksNoIntegral(f: int -> real, lo: int, hi: int)
    requires hi <= lo
    ensures Integral(f, lo, hi) == 0.0
  {
  }

  lemma RawRateFew(rows: seq<Reading>, t: int)
    requires |rows| < 2
    ensures RawRate(rows, t) == 0.0
  {
  }

  lemma RawRateStep(rows: seq<Reading>, t: int)
    requires |rows| >= 2
    ensures var n := |rows|;
            RawRate(rows, t) ==
            if rows[n - 2].0 <= t < rows[n - 1].0 then rows[n - 2].1 else RawRate(rows[..n - 1], t)
  {
  }

  // ----- the three tiers together

  /** Hourly rows count only up to here: where the 5-minute rows begin. */
  function OlderUntil(r: Rollups, m: int, start: int, end: int): int {
    var five := BucketsIn(r, m, 300, start, end);
    if five != {} then MinOf(five) else end
  }

  /** Raw samples count only from here: where the last rollup row ends. */
  function NewerFrom(r: Rollups, m: int, start: int, end: int): int {
    var five := BucketsIn(r, m, 300, start, end);
    var hours := BucketsIn(r, m, 3600, start, OlderUntil(r, m, start, end));
    if five != {} then MaxOf(five) + 300 else if hours != {} then MaxOf(hours) + 3600 else start
  }

  /** The rate at one tick: 5-minute row, else hourly row, else raw reading, else nothing. */
  function Rate(s: Samples, r: Rollups, m: int, start: int, end: int, t: int): real {
    var older, newer := OlderUntil(r, m, start, end), NewerFrom(r, m, start, end);
    if InTier(r, m, 300, start, end, t) then TierRate(r, m, 300, start, end, t)
    else if InTier(r, m, 3600, start, older, t) then TierRate(r, m, 3600, start, older, t)
    else if newer <= t then RawRate(RawRows(s, m, newer, end), t)
    else 0.0
  }

  /** A tick of a tier lies between the first and the last selected bucket. */
  lemma TierRange(r: Rollups, m: int, p: int, lo: int, hi: int, t: int)
    requires IsPeriod(p) && InTier(r, m, p, lo, hi, t)
    ensures BucketsIn(r, m, p, lo, hi) != {}
    ensures MinOf(BucketsIn(r, m, p, lo, hi)) <= t < MaxOf(BucketsIn(r, m, p, lo, hi)) + p
    ensures lo <= t < hi
  {
    hide Bucket;
    BucketOf(t, p);
    var b := Bucket(t, p);
    assert (m, p, b) in r.Keys && b in BucketsIn(r, m, p, lo, hi);
  }

  /** No tick belongs to two tiers: hours end before the 5-minute rows, raw readings start after the last row. */
  lemma TiersDisjoint(r: Rollups, m: int, start: int, end: int, t: int)
    ensures var older, newer := OlderUntil(r, m, start, end), NewerFrom(r, m, start, end);
            && !(InTier(r, m, 300, start, end, t) && InTier(r, m, 3600, start, older, t))
            && (InTier(r, m, 300, start, end, t) ==> t < newer)
            && (InTier(r, m, 3600, start, older, t) ==> t < newer)
  {
    hide InTier, BucketsIn;
    var older := OlderUntil(r, m, start, end);
    if InTier(r, m, 300, start, end, t) { TierRange(r, m, 300, start, end, t); }
    if InTier(r, m, 3600, start, older, t) {
      TierRange(r, m, 3600, start, older, t);
      var five := BucketsIn(r, m, 300, start, end);
      if five != {} { assert MinOf(five) in five && MinOf(five) <= MaxOf(five); }
    }
  }

  lemma WindowContains(r: Rollups, m: int, start: int, end: int)
    requires start <= end
    ensures start <= OlderUntil(r, m, start, end) <= end
    ensures start <= NewerFrom(r, m, start, end) <= end
  {
    var five := BucketsIn(r, m, 300, start, end);
    var hours := BucketsIn(r, m, 3600, start, OlderUntil(r, m, start, end));
    forall b ensures b in five ==> start <= b && b + 300 <= end { }
    forall b ensures b in hours ==> start <= b && b + 3600 <= OlderUntil(r, m, start, end) { }
  }

  /** `_volume_bytes`. */
  method VolumeBytes(s: Samples, r: Rollups, m: int, start: int, end: int) returns (bytes: real)
    requires RowsAligned(r)
    ensures bytes * 8.0 == Integral(t => Rate(s, r, m, start, end, t), start, end)
  {
    hide Integral, Rate, RowsAligned, BucketsIn, SumRows, RawRows, PairSum;
    var total := 0.0;
    var olderUntil, newerFrom := end, start;
    var known := false;
    var five := BucketsIn(r, m, 300, start, end);
    if five != {} {
      total := total + SumRows(r, m, 300, start, end) * 300.0;
      olderUntil, newerFrom, known := MinOf(five), MaxOf(five) + 300, true;
    } else {
      NoRowsNoSum(r, m, 300, start, end);
    }
    var hours := BucketsIn(r, m, 3600, start, olderUntil);
    if hours != {} {
      total := total + SumRows(r, m, 3600, start, olderUntil) * 3600.0;
      if !known {
        newerFrom := MaxOf(hours) + 3600;
      }
    } else {
      NoRowsNoSum(r, m, 3600, start, olderUntil);
    }
    assert olderUntil == OlderUntil(r, m, start, end) && newerFrom == NewerFrom(r, m, start, end);
    var rows := RawRows(s, m, newerFrom, end);
    var raw := SumPairs(rows);
    total := total + raw;
    TiersAddUp(s, r, m, start, end);
    bytes := total / 8.0;
  }

  /** The loop over pairs of neighbouring samples. */
  method SumPairs(rows: seq<Reading>) returns (sum: real)
    ensures sum == PairSum(rows)
  {
    sum := 0.0;
    var i := 1;
    while i < |rows|
      invariant 1 <= i
      invariant i <= |rows| || |rows| == 0
      invariant sum == if |rows| == 0 then 0.0 else PairSum(rows[..i])
    {
      assert rows[..i + 1][..i] == rows[..i];
      sum := sum + rows[i - 1].1 * (rows[i].0 - rows[i - 1].0) as real;
      i := i + 1;
    }
    if rows != [] { assert rows[..i] == rows; }
  }

  /** The three sums are the integral of the rate over the window. */
  lemma TiersAddUp(s: Samples, r: Rollups, m: int, start: int, end: int)
    requires RowsAligned(r)
    ensures var older, newer := OlderUntil(r, m, start, end), NewerFrom(r, m, start, end);
            SumRows(r, m, 300, start, end) * 300.0 + SumRows(r, m, 3600, start, older) * 3600.0
            + PairSum(RawRows(s, m, newer, end))
            == Integral(t => Rate(s, r, m, start, end, t), start, end)
  {
    var older, newer := OlderUntil(r, m, start, end), NewerFrom(r, m, start, end);
    if start <= end {
      hide InTier, OlderUntil, NewerFrom, SumRows, PairSum, RawRate, RawRows, RowsAligned;
      var rows := RawRows(s, m, newer, end);
      var f5, f60, fraw := t => TierRate(r, m, 300, start, end, t), t => TierRate(r, m, 3600, start, older, t),
        t => RawRate(rows, t);
      var f, both := t => Rate(s, r, m, start, end, t),
        t => TierRate(r, m, 300, start, end, t) + TierRate(r, m, 3600, start, older, t);
      WindowContains(r, m, start, end);
      TierIntegral(r, m, 300, start, end);
      TierIntegral(r, m, 3600, start, older);
      RawIntegral(rows, newer, end);
      forall t ensures f(t) == both(t) + (if newer <= t then fraw(t) else 0.0) {
        TiersDisjoint(r, m, start, end, t);
      }
      Assemble(r, m, start, end, older, newer, f, f5, f60, both, fraw, rows);
    } else {
      EmptyWindow(s, r, m, start, end);
    }
  }

  /** A window that ends before it starts holds nothing. */
  lemma EmptyWindow(s: Samples, r: Rollups, m: int, start: int, end: int)
    requires end < start
    ensures var older, newer := OlderUntil(r, m, start, end), NewerFrom(r, m, start, end);
            SumRows(r, m, 300, start, end) == 0.0 && SumRows(r, m, 3600, start, older) == 0.0
            && PairSum(RawRows(s, m, newer, end)) == 0.0
    ensures Integral(t => Rate(s, r, m, start, end, t), start, end) == 0.0
  {
    var five := BucketsIn(r, m, 300, start, end);
    forall b ensures b !in five { }
    assert five == {};
    var hours := BucketsIn(r, m, 3600, start, end);
    forall b ensures b !in hours { }
    assert hours == {};
  }

  lemma Assemble(r: Rollups, m: int, start: int, end: int, older: int, newer: int,
                 f: int -> real, f5: int -> real, f60: int -> real, both: int -> real, fraw: int -> real, rows: seq<Reading>)
    requires start <= older <= end && start <= newer <= end
    requires forall t :: both(t) == f5(t) + f60(t)
    requires forall t :: f(t) == both(t) + (if newer <= t then fraw(t) else 0.0)
    requires forall t :: older <= t < end ==> f60(t) == 0.0
    ensures Integral(f, start, end) ==
            Integral(f5, start, end) + Integral(f60, start, older) + Integral(fraw, newer, end)
  {
    var late := t => if newer <= t then fraw(t) else 0.0;
    IntegralSum(f5, f60, both, start, end);
    IntegralSum(both, late, f, start, end);
    IntegralSplit(f60, start, older, end);
    IntegralConstant(f60, older, end, 0.0);
    IntegralSplit(late, start, newer, end);
    IntegralConstant(late, start, newer, 0.0);
    IntegralAgree(late, fraw, newer, end);
  }

  /** Values between 0 and `top` everywhere give a volume between 0 and `top` times the window, for any mix of tiers. */
  lemma VolumeBounded(s: Samples, r: Rollups, m: int, start: int, end: int, top: real)
    requires start <= end && top >= 0.0
    requires forall k :: k in s ==> 0.0 <= s[k] <= top
    requires forall k :: k in r ==> 0.0 <= r[k].vavg <= top
    ensures 0.0 <= Integral(t => Rate(s, r, m, start, end, t), start, end) / 8.0 <= top * (end - start) as real / 8.0
  {
    hide BucketsIn, OlderUntil, NewerFrom, Bucket, Integral;
    var f := t => Rate(s, r, m, start, end, t);
    forall t ensures 0.0 <= f(t) <= top {
      RawRateBounded(RawRows(s, m, NewerFrom(r, m, start, end), end), t, top);
    }
    IntegralBounds(f, start, end, top);
  }

  lemma {:induction false} RawRateBounded(rows: seq<Reading>, t: int, top: real)
    requires top >= 0.0 && forall i :: 0 <= i < |rows| ==> 0.0 <= rows[i].1 <= top
    ensures 0.0 <= RawRate(rows, t) <= top
  {
    if |rows| < 2 {
    } else {
      RawRateBounded(rows[..|rows| - 1], t, top);
    }
  }

  // ----- which rate a tick gets

  /** A tick of a 5-minute row that lies wholly in the window has its average. */
  lemma FiveMinuteRate(s: Samples, r: Rollups, m: int, start: int, end: int, b: int, t: int)
    requires (m, 300, b) in r && b % 300 == 0 && start <= b <= t < b + 300 <= end
    ensures Rate(s, r, m, start, end, t) == r[(m, 300, b)].vavg
  {
    hide Bucket, OlderUntil, NewerFrom;
    BucketUnique(t, b, 300);
  }

  /** A tick of an hourly row wholly in the window has its average, if all 5-minute rows of the window come later. */
  lemma HourRate(s: Samples, r: Rollups, m: int, start: int, end: int, b: int, t: int)
    requires (m, 3600, b) in r && b % 3600 == 0 && start <= b <= t < b + 3600 <= end
    requires forall c :: (m, 300, c) in r && start <= c && c + 300 <= end ==> b + 3600 <= c
    ensures Rate(s, r, m, start, end, t) == r[(m, 3600, b)].vavg
  {
    hide Bucket, NewerFrom;
    BucketUnique(t, b, 3600);
    BucketOf(t, 300);
    var five := BucketsIn(r, m, 300, start, end);
    forall c | c in five ensures b + 3600 <= c {
      assert (m, 300, c) in r;
    }
    assert OlderUntil(r, m, start, end) >= b + 3600;
  }

  /** Between two neighbouring samples behind every row of the window a tick has the value of the earlier one. */
  lemma SampleRate(s: Samples, r: Rollups, m: int, start: int, end: int, t0: int, t1: int, t: int)
    requires (m, t0) in s && (m, t1) in s && start <= t0 <= t < t1 <= end
    requires forall u :: t0 < u < t1 ==> (m, u) !in s
    requires forall p, c :: IsPeriod(p) && (m, p, c) in r && start <= c && c + p <= end ==> c + p <= t0
    ensures Rate(s, r, m, start, end, t) == s[(m, t0)]
  {
    NewerBefore(r, m, start, end, t0);
    var from := NewerFrom(r, m, start, end);
    NoTierBehind(r, m, start, end, t0, t);
    hide Bucket, NewerFrom, OlderUntil, InTier, RawRate, RawRows, Rate;
    var rows := RawRows(s, m, from, end);
    var j := RawRowAt(s, m, from, end, t0);
    var k := RawRowAt(s, m, from, end, t1);
    InsideReadings(rows, j, k, t);
    var i := ReadingAt(s, r, m, start, end, t);
    SameReading(s, m, rows, i, j, k, t);
  }

  lemma InsideReadings(rows: seq<Reading>, j: nat, k: nat, t: int)
    requires j < |rows| && k < |rows| && rows[j].0 <= t < rows[k].0
    requires forall a, b :: 0 <= a < b < |rows| ==> rows[a].0 < rows[b].0
    ensures rows[0].0 <= t < rows[|rows| - 1].0
  {
    assert 0 < j ==> rows[0].0 < rows[j].0;
    assert k < |rows| - 1 ==> rows[k].0 < rows[|rows| - 1].0;
  }

  lemma ReadingAt(s: Samples, r: Rollups, m: int, start: int, end: int, t: int) returns (i: nat)
    requires !InTier(r, m, 300, start, end, t) && !InTier(r, m, 3600, start, OlderUntil(r, m, start, end), t)
    requires var rows := RawRows(s, m, NewerFrom(r, m, start, end), end);
             rows != [] && rows[0].0 <= t < rows[|rows| - 1].0
    ensures var rows := RawRows(s, m, NewerFrom(r, m, start, end), end);
            IsLatest(rows, i, t) && Rate(s, r, m, start, end, t) == rows[i].1
  {
    hide Rate, RawRows, RawRate, InTier, OlderUntil, NewerFrom;
    UnratedTicks(s, r, m, start, end, t);
    var rows := RawRows(s, m, NewerFrom(r, m, start, end), end);
    var n :| IsLatest(rows, n, t) && Rate(s, r, m, start, end, t) == rows[n].1;
    i := n;
  }

  /** The last of the ascending readings at or before `t` is the earlier of the neighbours around `t`. */
  lemma SameReading(s: Samples, m: int, rows: seq<Reading>, i: nat, j: nat, k: nat, t: int)
    requires j < |rows| && k < |rows| && IsLatest(rows, i, t)
    requires forall a, b :: 0 <= a < b < |rows| ==> rows[a].0 < rows[b].0
    requires forall a :: 0 <= a < |rows| ==> (m, rows[a].0) in s
    requires rows[j].0 <= t < rows[k].0
    requires forall u :: rows[j].0 < u < rows[k].0 ==> (m, u) !in s
    ensures i == j
  {
    assert j <= i;
  }

  lemma NewerBefore(r: Rollups, m: int, start: int, end: int, t0: int)
    requires start <= t0
    requires forall p, c :: IsPeriod(p) && (m, p, c) in r && start <= c && c + p <= end ==> c + p <= t0
    ensures NewerFrom(r, m, start, end) <= t0
  {
    var older := OlderUntil(r, m, start, end);
    var five, hours := BucketsIn(r, m, 300, start, end), BucketsIn(r, m, 3600, start, older);
    if five != {} {
      assert (m, 300, MaxOf(five)) in r && IsPeriod(300);
    } else if hours != {} {
      assert (m, 3600, MaxOf(hours)) in r && IsPeriod(3600);
    }
  }

  lemma NoTierBehind(r: Rollups, m: int, start: int, end: int, t0: int, t: int)
    requires t0 <= t
    requires forall p, c :: IsPeriod(p) && (m, p, c) in r && start <= c && c + p <= end ==> c + p <= t0
    ensures !InTier(r, m, 300, start, end, t) && !InTier(r, m, 3600, start, OlderUntil(r, m, start, end), t)
  {
    var older := OlderUntil(r, m, start, end);
    var five := BucketsIn(r, m, 300, start, end);
    assert older <= end by {
      if five != {} { assert MinOf(five) in five; }
    }
    hide Bucket, OlderUntil;
    BucketOf(t, 300);
    BucketOf(t, 3600);
    assert IsPeriod(300) && IsPeriod(3600);
  }

  lemma {:induction false} RawRowAt(s: Samples, m: int, from: int, end: int, ts: int) returns (i: nat)
    requires from <= ts <= end && (m, ts) in s
    ensures var rows := RawRows(s, m, from, end);
            i < |rows| && rows[i] == (ts, s[(m, ts)])
    decreases end - from
  {
    if ts == end {
      i := |RawRows(s, m, from, end - 1)|;
    } else {
      i := RawRowAt(s, m, from, end - 1, ts);
    }
  }

  // ----- the volume read from a reachable store

  /** The average of the full history over a bucket; 0 when it has no sample there. */
  ghost function HistoryAverage(h: Samples, m: int, p: int, b: int): real {
    if HasSamples(h, m, p, b) then HistoryRow(h, m, p, b).vavg else 0.0
  }

  /** The rate of a tick, taken from the full history where a tier has a row and from raw samples behind it. */
  ghost function HistoryRate(h: Samples, s: Samples, r: Rollups, m: int, start: int, end: int, t: int): real {
    if InTier(r, m, 300, start, end, t) then HistoryAverage(h, m, 300, Bucket(t, 300))
    else if InTier(r, m, 3600, start, OlderUntil(r, m, start, end), t) then HistoryAverage(h, m, 3600, Bucket(t, 3600))
    else if NewerFrom(r, m, start, end) <= t then RawRate(RawRows(s, m, NewerFrom(r, m, start, end), end), t)
    else 0.0
  }

  lemma StoreAligned(st: Store)
    requires st.Valid()
    ensures RowsAligned(st.rollups)
  {
    hide HasSamples, HistoryRow, RowsComplete, RawKept;
  }

  /** On every tick of a tier the stored rate is the average of the full history over the tick's bucket. */
  lemma TierIsHistory(st: Store, m: int, p: int, lo: int, hi: int, t: int)
    requires st.Valid() && IsPeriod(p) && InTier(st.rollups, m, p, lo, hi, t)
    ensures HasSamples(st.history, m, p, Bucket(t, p))
    ensures TierRate(st.rollups, m, p, lo, hi, t) == HistoryRow(st.history, m, p, Bucket(t, p)).vavg
  {
    hide HasSamples, HistoryRow, RowsComplete, RawKept, Bucket;
  }

  /** Raw readings are readings of the full history, and all of them where no raw sample has been deleted. */
  lemma {:induction false} RawIsHistory(st: Store, m: int, from: int, end: int)
    requires st.Valid()
    ensures var rows := RawRows(st.samples, m, from, end);
            forall i :: 0 <= i < |rows| ==> (m, rows[i].0) in st.history && rows[i].1 == st.history[(m, rows[i].0)]
    ensures (forall ts :: from <= ts <= end && (m, ts) in st.history ==> (m, ts) in st.samples) ==>
              RawRows(st.samples, m, from, end) == RawRows(st.history, m, from, end)
    decreases end - from
  {
    hide RowsRight, RowsComplete, Aligned;
    if end < from {
    } else {
      RawIsHistory(st, m, from, end - 1);
      assert (m, end) in st.samples ==> (m, end) in st.history && st.samples[(m, end)] == st.history[(m, end)];
    }
  }

  lemma RateIsHistory(st: Store, m: int, start: int, end: int, t: int)
    requires st.Valid()
    ensures Rate(st.samples, st.rollups, m, start, end, t)
         == HistoryRate(st.history, st.samples, st.rollups, m, start, end, t)
  {
    hide HasSamples, HistoryRow, Bucket, InTier, OlderUntil, NewerFrom, RawRows, RawRate,
         RowsRight, RowsComplete, RawKept, Aligned;
    StoreAligned(st);
    TiersDisjoint(st.rollups, m, start, end, t);
    var older := OlderUntil(st.rollups, m, start, end);
    if InTier(st.rollups, m, 300, start, end, t) {
      TierIsHistory(st, m, 300, start, end, t);
    }
    if InTier(st.rollups, m, 3600, start, older, t) {
      TierIsHistory(st, m, 3600, start, older, t);
    }
  }

  /** What `_volume_bytes` integrates on a reachable store are the rates of the full history. */
  lemma VolumeIsHistory(st: Store, m: int, start: int, end: int)
    requires st.Valid()
    ensures var s, r, h := st.samples, st.rollups, st.history;
            Integral(t => Rate(s, r, m, start, end, t), start, end) ==
            Integral(t => HistoryRate(h, s, r, m, start, end, t), start, end)
  {
    hide Rate, HistoryRate, Integral, RowsRight, RowsComplete, Aligned, RawKept;
    var s, r, h := st.samples, st.rollups, st.history;
    var f, g := t => Rate(s, r, m, start, end, t), t => HistoryRate(h, s, r, m, start, end, t);
    forall t ensures f(t) == g(t) {
      RateIsHistory(st, m, start, end, t);
    }
    IntegralAgree(f, g, start, end);
  }

  /** With every raw sample behind the last rollup row still there, the volume is an integral over the history alone. */
  lemma VolumeOfHistoryAlone(st: Store, m: int, start: int, end: int)
    requires st.Valid()
    requires forall ts :: NewerFrom(st.rollups, m, start, end) <= ts <= end && (m, ts) in st.history ==>
               (m, ts) in st.samples
    ensures var s, r, h := st.samples, st.rollups, st.history;
            Integral(t => Rate(s, r, m, start, end, t), start, end) ==
            Integral(t => HistoryRate(h, h, r, m, start, end, t), start, end)
  {
    hide Rate, Integral, InTier, NewerFrom, OlderUntil, HistoryAverage, RawRate, RawRows, Bucket,
         RowsRight, RowsComplete, Aligned, RawKept;
    var s, r, h := st.samples, st.rollups, st.history;
    var f, g := t => Rate(s, r, m, start, end, t), t => HistoryRate(h, h, r, m, start, end, t);
    RawIsHistory(st, m, NewerFrom(r, m, start, end), end);
    forall t ensures f(t) == g(t) {
      RateIsHistory(st, m, start, end, t);
    }
    IntegralAgree(f, g, start, end);
  }

  /** `rows[i]` is the last of the ascending readings at or before `t`, and not the last of all. */
  predicate IsLatest(rows: seq<Reading>, i: int, t: int) {
    0 <= i < |rows| - 1 && rows[i].0 <= t < rows[i + 1].0
  }

  /** A tick has the last reading at or before it, from the first reading up to the last one. */
  lemma {:induction false} RawRateMeaning(rows: seq<Reading>, t: int)
    requires forall i, j :: 0 <= i < j < |rows| ==> rows[i].0 < rows[j].0
    ensures if rows != [] && rows[0].0 <= t < rows[|rows| - 1].0 then
              exists i :: IsLatest(rows, i, t) && RawRate(rows, t) == rows[i].1
            else RawRate(rows, t) == 0.0
  {
    if |rows| < 2 {
    } else {
      var n := |rows| - 2;
      var front := rows[..n + 1];
      RawRateMeaning(front, t);
      if rows[n].0 <= t < rows[n + 1].0 {
        assert IsLatest(rows, n, t) && RawRate(rows, t) == rows[n].1;
      } else if rows[0].0 <= t < rows[n].0 {
        var i :| IsLatest(front, i, t) && RawRate(front, t) == front[i].1;
        assert rows[i] == front[i] && rows[i + 1] == front[i + 1] && IsLatest(rows, i, t);
      }
    }
  }

  lemma RateOutside(s: Samples, r: Rollups, m: int, start: int, end: int, t: int)
    requires !InTier(r, m, 300, start, end, t) && !InTier(r, m, 3600, start, OlderUntil(r, m, start, end), t)
    ensures var newer := NewerFrom(r, m, start, end);
            Rate(s, r, m, start, end, t) == if newer <= t then RawRate(RawRows(s, m, newer, end), t) else 0.0
  {
    hide InTier, OlderUntil, NewerFrom, RawRate, RawRows;
  }

  /** The ticks that are given no rate: in no selected row, and before the first or at or after the last raw reading. */
  lemma UnratedTicks(s: Samples, r: Rollups, m: int, start: int, end: int, t: int)
    requires !InTier(r, m, 300, start, end, t) && !InTier(r, m, 3600, start, OlderUntil(r, m, start, end), t)
    ensures var rows := RawRows(s, m, NewerFrom(r, m, start, end), end);
            if rows != [] && rows[0].0 <= t < rows[|rows| - 1].0 then
              exists i :: IsLatest(rows, i, t) && Rate(s, r, m, start, end, t) == rows[i].1
            else Rate(s, r, m, start, end, t) == 0.0
  {
    hide InTier, OlderUntil, NewerFrom, RawRate, RawRows, Rate, IsLatest;
    RateOutside(s, r, m, start, end, t);
    var rows := RawRows(s, m, NewerFrom(r, m, start, end), end);
    RawRateMeaning(rows, t);
  }

  /** The sum of `count` values in `[0, top]`. */
  predicate SumWithin(sum: real, count: nat, top: real) {
    0.0 <= sum <= top * count as real
  }

  lemma SumOfOne(v: real, top: real)
    requires 0.0 <= v <= top
    ensures SumWithin(v, 1, top)
  {
  }

  lemma SumOfOneMore(sum: real, count: nat, v: real, top: real)
    requires SumWithin(sum, count, top) && 0.0 <= v <= top
    ensures SumWithin(sum + v, count + 1, top)
  {
    assert (count + 1) as real == count as real + 1.0;
  }

  lemma {:induction false} FoldBounded(h: Samples, m: int, lo: int, hi: int, top: real)
    requires forall k :: k in h ==> 0.0 <= h[k] <= top
    ensures Fold(h, m, lo, hi).Some? ==> SumWithin(Fold(h, m, lo, hi).value.sum, Fold(h, m, lo, hi).value.count, top)
    decreases hi - lo
  {
    hide SumWithin;
    if hi <= lo {
    } else {
      FoldBounded(h, m, lo, hi - 1, top);
      if (m, hi - 1) in h {
        var before, v := Fold(h, m, lo, hi - 1), h[(m, hi - 1)];
        if before.None? {
          SumOfOne(v, top);
        } else {
          SumOfOneMore(before.value.sum, before.value.count, v, top);
        }
      }
    }
  }

  lemma AverageBounded(sum: real, count: nat, top: real)
    requires count > 0 && SumWithin(sum, count, top)
    ensures 0.0 <= sum / count as real <= top
  {
    var q := sum / count as real;
    assert q * count as real == sum;
    assert q < 0.0 ==> q * count as real < 0.0;
    assert q > top ==> q * count as real > top * count as real;
  }

  /** Every value ever inserted in `[0, top]`: the volume read from a reachable store is bounded by the window. */
  lemma StoreVolumeBounded(st: Store, m: int, start: int, end: int, top: real)
    requires st.Valid() && start <= end && top >= 0.0
    requires forall k :: k in st.history ==> 0.0 <= st.history[k] <= top
    ensures var s, r := st.samples, st.rollups;
            0.0 <= Integral(t => Rate(s, r, m, start, end, t), start, end) / 8.0 <= top * (end - start) as real / 8.0
  {
    hide Integral, Rate, RowsComplete, Aligned, Fold, SumWithin;
    forall k | k in st.rollups ensures 0.0 <= st.rollups[k].vavg <= top {
      var (metric, p, b) := k;
      assert (metric, p, b) in st.rollups;
      FoldBounded(st.history, metric, b, b + p, top);
      var a := Fold(st.history, metric, b, b + p).value;
      AverageBounded(a.sum, a.count, top);
    }
    VolumeBounded(st.samples, st.rollups, m, start, end, top);
  }
}
