/**
  Chart queries at a rollup resolution: stored rows, then a tail of raw samples that
  have not been rolled up yet.
 */
module SeriesQueries {
  import opened Arithmetic
  import opened Options
  import opened SampleHistory
  import opened Storage

  datatype Point = Point(ts: int, avg: real, min: real, max: real)

  function RowPoint(ts: int, r: Row): Point { Point(ts, r.vavg, r.vmin, r.vmax) }

  /** `SELECT ... FROM rollups WHERE bucket >= lo AND bucket <= hi ORDER BY bucket`. */
  function RollupPoints(r: Rollups, m: int, p: int, lo: int, hi: int): seq<Point>
    decreases hi - lo
  {
    if hi < lo then []
    else RollupPoints(r, m, p, lo, hi - 1) + if (m, p, hi) in r then [RowPoint(hi, r[(m, p, hi)])] else []
  }

  /** The raw samples of bucket `b` that the query selects. */
  function TailFold(s: Samples, m: int, p: int, from: int, end: int, b: int): (r: Option<Acc>)
    ensures r.Some? ==> r.value.count > 0
  {
    Fold(s, m, Max(b, from), Min(b + p, end + 1))
  }

  /** `SELECT ... FROM samples WHERE ts >= from AND ts <= end GROUP BY ts / p ORDER BY 1`, up to bucket `b`. */
  function TailPoints(s: Samples, m: int, p: int, from: int, end: int, b: int): seq<Point>
    requires p > 0
    decreases b - Bucket(from, p)
  {
    if b < Bucket(from, p) then []
    else
      var group := TailFold(s, m, p, from, end, b);
      TailPoints(s, m, p, from, end, b - p) + if group.Some? then [RowPoint(b, ToRow(group.value))] else []
  }

  /** `series` at resolution 300 or 3600. */
  function Series(s: Samples, r: Rollups, m: int, p: int, start: int, end: int): seq<Point>
    requires p > 0
  {
    var rows := RollupPoints(r, m, p, start, end);
    var last := if rows != [] then rows[|rows| - 1].ts + p else start;
    rows + TailPoints(s, m, p, last, end, Bucket(end, p))
  }

  ghost predicate Increasing(pts: seq<Point>) {
    forall i, j :: 0 <= i < j < |pts| ==> pts[i].ts < pts[j].ts
  }

  lemma {:induction false} RollupPointsMeaning(r: Rollups, m: int, p: int, lo: int, hi: int)
    ensures var pts := RollupPoints(r, m, p, lo, hi);
            && Increasing(pts)
            && (forall pt :: pt in pts <==>
                  lo <= pt.ts <= hi && (m, p, pt.ts) in r && pt == RowPoint(pt.ts, r[(m, p, pt.ts)]))
    decreases hi - lo
  {
    if hi < lo {
    } else {
      RollupPointsMeaning(r, m, p, lo, hi - 1);
      var front := RollupPoints(r, m, p, lo, hi - 1);
      assert forall i :: 0 <= i < |front| ==> front[i] in front;
      if (m, p, hi) in r {
        AppendPoint(front, RowPoint(hi, r[(m, p, hi)]));
      } else {
        assert front + [] == front;
      }
    }
  }

  lemma AppendPoint(front: seq<Point>, pt: Point)
    requires Increasing(front) && forall x :: x in front ==> x.ts < pt.ts
    ensures Increasing(front + [pt])
    ensures forall x :: x in front + [pt] <==> x in front || x == pt
  {
    assert forall i :: 0 <= i < |front| ==> front[i] in front;
  }

  /** `pt` is the point of a selected bucket. */
  ghost predicate IsTailPoint(s: Samples, m: int, p: int, from: int, end: int, pt: Point) {
    TailFold(s, m, p, from, end, pt.ts).Some? && pt == RowPoint(pt.ts, ToRow(TailFold(s, m, p, from, end, pt.ts).value))
  }

  lemma {:induction false} TailPointsMeaning(s: Samples, m: int, p: int, from: int, end: int, b: int)
    requires IsPeriod(p) && b % p == 0
    ensures var pts := TailPoints(s, m, p, from, end, b);
            && Increasing(pts)
            && (forall pt :: pt in pts <==>
                  Bucket(from, p) <= pt.ts <= b && pt.ts % p == 0 && IsTailPoint(s, m, p, from, end, pt))
    decreases b - Bucket(from, p)
  {
    hide Fold, TailFold, Bucket, ToRow;
    if b < Bucket(from, p) {
    } else {
      TailPointsMeaning(s, m, p, from, end, b - p);
      BucketOf(from, p);
      var front := TailPoints(s, m, p, from, end, b - p);
      var group := TailFold(s, m, p, from, end, b);
      forall c | c % p == 0 && c < b ensures c <= b - p {
        MultiplesApart(c, b, p);
      }
      if group.Some? {
        AppendPoint(front, RowPoint(b, ToRow(group.value)));
      } else {
        assert front + [] == front;
      }
    }
  }

  /** The last stored row of the answer. */
  lemma LastRow(r: Rollups, m: int, p: int, lo: int, hi: int)
    ensures var rows := RollupPoints(r, m, p, lo, hi);
            if rows == [] then forall b :: lo <= b <= hi ==> (m, p, b) !in r
            else
              var last := rows[|rows| - 1].ts;
              lo <= last <= hi && (m, p, last) in r && forall b :: last < b <= hi ==> (m, p, b) !in r
  {
    hide RollupPoints;
    RollupPointsMeaning(r, m, p, lo, hi);
    var rows := RollupPoints(r, m, p, lo, hi);
    forall b | lo <= b <= hi && (m, p, b) in r ensures RowPoint(b, r[(m, p, b)]) in rows {
    }
    if rows != [] {
      assert rows[|rows| - 1] in rows;
      forall b | lo <= b <= hi && (m, p, b) in r ensures b <= rows[|rows| - 1].ts {
        var i :| 0 <= i < |rows| && rows[i] == RowPoint(b, r[(m, p, b)]);
      }
    }
  }

  /** The tail starts at a bucket boundary behind the last stored row, or at the start of the window. */
  ghost predicate TailStart(st: Store, m: int, p: int, start: int, end: int, from: int)
    requires IsPeriod(p)
    reads st
  {
    && start <= from
    && (forall b :: from <= b <= end ==> (m, p, b) !in st.rollups)
    && (from == start || (from % p == 0 && (m, p, from - p) in st.rollups && from - p <= end))
  }

  lemma SeriesParts(st: Store, m: int, p: int, start: int, end: int) returns (rows: seq<Point>, from: int)
    requires st.Valid() && IsPeriod(p)
    ensures rows == RollupPoints(st.rollups, m, p, start, end) && TailStart(st, m, p, start, end, from)
    ensures Series(st.samples, st.rollups, m, p, start, end) ==
            rows + TailPoints(st.samples, m, p, from, end, Bucket(end, p))
    ensures forall pt :: pt in rows ==> pt.ts + p <= from
  {
    hide RollupPoints, TailPoints, Bucket, RowsComplete, RawKept, HasSamples, HistoryRow;
    rows := RollupPoints(st.rollups, m, p, start, end);
    LastRow(st.rollups, m, p, start, end);
    RollupPointsMeaning(st.rollups, m, p, start, end);
    from := if rows != [] then rows[|rows| - 1].ts + p else start;
    if rows != [] {
      var last := rows[|rows| - 1].ts;
      RowAligned(st, m, p, last);
      forall pt | pt in rows ensures pt.ts + p <= from {
        var i :| 0 <= i < |rows| && rows[i] == pt;
      }
    }
  }

  lemma RowAligned(st: Store, m: int, p: int, b: int)
    requires st.Valid() && (m, p, b) in st.rollups
    ensures IsPeriod(p) && b % p == 0 && (b + p) % p == 0
  {
    hide RowsComplete, RawKept, HasSamples, HistoryRow;
  }

  /** The points of a chart are in strictly increasing order of time. */
  lemma SeriesIncreasing(st: Store, m: int, p: int, start: int, end: int)
    requires st.Valid() && IsPeriod(p)
    ensures Increasing(Series(st.samples, st.rollups, m, p, start, end))
  {
    hide Series, RollupPoints, TailPoints, Bucket, RowsComplete, RawKept, HasSamples, HistoryRow,
         RowsRight, Aligned, IsTailPoint;
    var rows, from := SeriesParts(st, m, p, start, end);
    RollupPointsMeaning(st.rollups, m, p, start, end);
    BucketOf(end, p);
    TailPointsMeaning(st.samples, m, p, from, end, Bucket(end, p));
    var tail := TailPoints(st.samples, m, p, from, end, Bucket(end, p));
    TailBehindRows(st, m, p, start, end, from, rows);
    forall i | 0 <= i < |rows| ensures rows[i] in rows { }
    forall j | 0 <= j < |tail| ensures tail[j] in tail { }
  }

  lemma TailBehindRows(st: Store, m: int, p: int, start: int, end: int, from: int, rows: seq<Point>)
    requires IsPeriod(p) && TailStart(st, m, p, start, end, from)
    requires rows == RollupPoints(st.rollups, m, p, start, end)
    requires forall pt :: pt in rows ==> pt.ts + p <= from
    ensures rows != [] ==> Bucket(from, p) == from
  {
    hide RollupPoints;
    if rows != [] {
      RollupPointsMeaning(st.rollups, m, p, start, end);
      assert rows[0] in rows;
      assert from != start;
      BucketUnique(from, from, p);
    }
  }

  /**
    Every bucket that lies wholly inside the window and has not been purged has a point iff the full
    sample history has a sample there, and the point is the aggregate of the full history.
   */
  lemma SeriesIsHistory(st: Store, m: int, p: int, start: int, end: int, b: int)
    requires st.Valid() && IsPeriod(p) && b % p == 0 && start <= b && b + p <= end + 1 && Unpurged(st.purged, p, b)
    ensures var pts := Series(st.samples, st.rollups, m, p, start, end);
            && ((exists pt :: pt in pts && pt.ts == b) <==> HasSamples(st.history, m, p, b))
            && (forall pt :: pt in pts && pt.ts == b ==> pt == RowPoint(b, HistoryRow(st.history, m, p, b)))
  {
    hide Series, RollupPoints, TailPoints, Bucket, Fold, RowsComplete, RawKept, RowsRight, Aligned, Unpurged;
    var rows, from := SeriesParts(st, m, p, start, end);
    RollupPointsMeaning(st.rollups, m, p, start, end);
    BucketOf(end, p);
    BucketOf(from, p);
    TailPointsMeaning(st.samples, m, p, from, end, Bucket(end, p));
    var tail := TailPoints(st.samples, m, p, from, end, Bucket(end, p));
    if b < from {
      StoredBucket(st, m, p, start, end, from, b);
      if HasSamples(st.history, m, p, b) {
        assert RowPoint(b, HistoryRow(st.history, m, p, b)) in rows;
      }
    } else {
      BucketInWindow(b, p, end);
      UnstoredBucket(st, m, p, b);
      assert TailFold(st.samples, m, p, from, end, b) == Fold(st.history, m, b, b + p);
      if HasSamples(st.history, m, p, b) {
        assert RowPoint(b, HistoryRow(st.history, m, p, b)) in tail;
      }
    }
  }

  /**
    The same in the terms of a point's fields: least, greatest and mean of all values ever inserted in the bucket.
   */
  lemma PointIsAggregate(st: Store, m: int, p: int, start: int, end: int, pt: Point)
    requires st.Valid() && IsPeriod(p) && pt in Series(st.samples, st.rollups, m, p, start, end)
    requires pt.ts % p == 0 && start <= pt.ts && pt.ts + p <= end + 1 && Unpurged(st.purged, p, pt.ts)
    ensures IsAggregate(st.history, m, pt.ts, pt.ts + p, pt.min, pt.max, pt.avg, |Stamps(st.history, m, pt.ts, pt.ts + p)|)
  {
    hide Series, Fold, ToRow, RowsRight, RowsComplete, RawKept, Aligned, Unpurged;
    SeriesIsHistory(st, m, p, start, end, pt.ts);
    RowMeaning(st.history, m, pt.ts, pt.ts + p);
  }

  /**
    Any point of a series: a stored row of the window, or, behind the last one, the raw samples of its bucket
    that lie in the window.
   */
  lemma EveryPoint(st: Store, m: int, p: int, start: int, end: int, pt: Point) returns (from: int)
    requires st.Valid() && IsPeriod(p) && pt in Series(st.samples, st.rollups, m, p, start, end)
    ensures start <= from && forall b :: from <= b <= end ==> (m, p, b) !in st.rollups
    ensures || (start <= pt.ts <= end && (m, p, pt.ts) in st.rollups
                && var r := st.rollups[(m, p, pt.ts)]; pt.min == r.vmin && pt.max == r.vmax && pt.avg == r.vavg)
            || var lo, hi := if pt.ts < from then from else pt.ts, if pt.ts + p < end + 1 then pt.ts + p else end + 1;
               IsAggregate(st.samples, m, lo, hi, pt.min, pt.max, pt.avg, |Stamps(st.samples, m, lo, hi)|)
  {
    hide Series, RollupPoints, TailPoints, Fold, ToRow, Bucket, RowsRight, RowsComplete, RawKept, Aligned, IsAggregate;
    var rows;
    rows, from := SeriesParts(st, m, p, start, end);
    RollupPointsMeaning(st.rollups, m, p, start, end);
    BucketOf(end, p);
    TailPointsMeaning(st.samples, m, p, from, end, Bucket(end, p));
    if pt !in rows {
      assert pt in TailPoints(st.samples, m, p, from, end, Bucket(end, p));
      var lo, hi := Max(pt.ts, from), Min(pt.ts + p, end + 1);
      RowMeaning(st.samples, m, lo, hi);
      AggregateCount(st.samples, m, lo, hi, ToRow(Fold(st.samples, m, lo, hi).value));
    }
  }

  /** No stored row of the window and no raw sample behind the last one is left without a point. */
  lemma NothingMissed(st: Store, m: int, p: int, start: int, end: int) returns (from: int)
    requires st.Valid() && IsPeriod(p)
    ensures start <= from && forall b :: from <= b <= end ==> (m, p, b) !in st.rollups
    ensures forall b :: start <= b <= end && (m, p, b) in st.rollups ==>
              exists pt :: pt in Series(st.samples, st.rollups, m, p, start, end) && pt.ts == b
    ensures forall ts :: from <= ts <= end && (m, ts) in st.samples ==>
              exists pt :: pt in Series(st.samples, st.rollups, m, p, start, end) && pt.ts <= ts < pt.ts + p
  {
    hide Series, RollupPoints, TailPoints, Fold, ToRow, Bucket, RowsRight, RowsComplete, RawKept, Aligned;
    var rows;
    rows, from := SeriesParts(st, m, p, start, end);
    var tail := TailPoints(st.samples, m, p, from, end, Bucket(end, p));
    RollupPointsMeaning(st.rollups, m, p, start, end);
    BucketOf(end, p);
    TailPointsMeaning(st.samples, m, p, from, end, Bucket(end, p));
    forall b | start <= b <= end && (m, p, b) in st.rollups
      ensures exists pt :: pt in Series(st.samples, st.rollups, m, p, start, end) && pt.ts == b
    {
      var pt := RowPoint(b, st.rollups[(m, p, b)]);
      assert pt in rows && pt.ts == b;
    }
    forall ts | from <= ts <= end && (m, ts) in st.samples
      ensures exists pt :: pt in Series(st.samples, st.rollups, m, p, start, end) && pt.ts <= ts < pt.ts + p
    {
      SampleHasPoint(st.samples, m, p, from, end, ts);
      var b := Bucket(ts, p);
      var pt := RowPoint(b, ToRow(TailFold(st.samples, m, p, from, end, b).value));
      assert pt in tail && pt.ts == b;
    }
  }

  lemma SampleHasPoint(s: Samples, m: int, p: int, from: int, end: int, ts: int)
    requires IsPeriod(p) && from <= ts <= end && (m, ts) in s
    ensures var b := Bucket(ts, p);
            && b % p == 0 && b <= ts < b + p && Bucket(from, p) <= b <= Bucket(end, p)
            && TailFold(s, m, p, from, end, b).Some?
  {
    hide Bucket, Fold;
    BucketOf(ts, p);
    BucketOf(from, p);
    BucketOf(end, p);
    var b := Bucket(ts, p);
    if b < Bucket(from, p) { MultiplesApart(b, Bucket(from, p), p); }
    if Bucket(end, p) < b { MultiplesApart(Bucket(end, p), b, p); }
    FoldNonEmpty(s, m, Max(b, from), Min(b + p, end + 1), ts);
  }

  lemma AggregateCount(s: Samples, m: int, lo: int, hi: int, r: Row)
    requires IsAggregate(s, m, lo, hi, r.vmin, r.vmax, r.vavg, r.vcount)
    ensures r.vcount == |Stamps(s, m, lo, hi)|
  {
  }

  lemma BucketInWindow(b: int, p: int, end: int)
    requires IsPeriod(p) && b % p == 0 && b + p <= end + 1
    ensures b <= Bucket(end, p)
  {
    hide Bucket;
    BucketOf(end, p);
  }

  /** A bucket before the tail: answered from its row. */
  lemma StoredBucket(st: Store, m: int, p: int, start: int, end: int, from: int, b: int)
    requires st.Valid() && IsPeriod(p) && b % p == 0 && start <= b < from && Unpurged(st.purged, p, b)
    requires TailStart(st, m, p, start, end, from)
    ensures (m, p, b) in st.rollups <==> HasSamples(st.history, m, p, b)
    ensures (m, p, b) in st.rollups ==> st.rollups[(m, p, b)] == HistoryRow(st.history, m, p, b)
    ensures b < Bucket(from, p)
  {
    hide RowsComplete, RawKept, Bucket, HasSamples, HistoryRow;
    MultiplesApart(b, from, p);
    assert (m, p, from - p) in st.rollups;
    hide RowsRight, Aligned;
    RowIffSamples(st, m, p, b);
    BucketUnique(from, from, p);
  }

  /** A bucket without a row: answered from raw samples, which are all still there. */
  lemma UnstoredBucket(st: Store, m: int, p: int, b: int)
    requires st.Valid() && IsPeriod(p) && b % p == 0 && Unpurged(st.purged, p, b) && (m, p, b) !in st.rollups
    ensures Fold(st.samples, m, b, b + p) == Fold(st.history, m, b, b + p)
  {
    hide Fold;
    if p in st.watermarks && b < st.watermarks[p] {
      RowIffSamples(st, m, p, b);
      NoHistoryNoRaw(st.history, st.samples, st.watermarks, m, b, b + p);
    } else {
      hide RowsRight, RowsComplete, Aligned;
      FoldAgree(st.samples, st.history, m, b, b + p);
    }
  }

  lemma {:induction false} NoHistoryNoRaw(h: Samples, s: Samples, w: map<int, int>, m: int, lo: int, hi: int)
    requires RawKept(h, s, w) && Fold(h, m, lo, hi) == None
    ensures Fold(s, m, lo, hi) == None
    decreases hi - lo
  {
    if hi <= lo {
    } else {
      NoHistoryNoRaw(h, s, w, m, lo, hi - 1);
      assert (m, hi - 1) in s ==> (m, hi - 1) in h;
    }
  }
}
