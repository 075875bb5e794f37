/**
  Rollups and retention.

  The ghost field `history` is every sample ever inserted. `Valid` says that the
  raw table and the rollup rows still agree with it, also after raw samples have
  been deleted.
 */
module Storage {
  import opened Aggregates
  import opened Arithmetic
  import opened Options
  import opened SampleHistory

  /** The rollups table: (metric, period, bucket) is its primary key. */
  type Rollups = map<(int, int, int), Row>

  const DAY := 86400

  // ----- what the tables must say

  /** The full history has a sample of the metric in the bucket. */
  ghost predicate HasSamples(h: Samples, metric: int, period: int, bucket: int) {
    Fold(h, metric, bucket, bucket + period).Some?
  }

  /** The row that the full history demands. */
  ghost function HistoryRow(h: Samples, metric: int, period: int, bucket: int): Row
    requires HasSamples(h, metric, period, bucket)
  {
    ToRow(Fold(h, metric, bucket, bucket + period).value)
  }

  ghost predicate Aligned(w: map<int, int>) {
    forall p :: p in w ==> IsPeriod(p) && w[p] % p == 0
  }

  /** Every row lies below its watermark and is exactly the history's aggregate. */
  ghost predicate RowsRight(h: Samples, r: Rollups, w: map<int, int>) {
    forall m, p, b :: (m, p, b) in r ==>
      && IsPeriod(p) && b % p == 0 && p in w && b < w[p]
      && HasSamples(h, m, p, b) && r[(m, p, b)] == HistoryRow(h, m, p, b)
  }

  /** Retention has not purged the bucket. */
  predicate Unpurged(purged: map<int, int>, p: int, b: int) { p in purged ==> purged[p] <= b }

  /** Every unpurged bucket below the watermark that has samples has a row. */
  ghost predicate RowsComplete(h: Samples, r: Rollups, w: map<int, int>, purged: map<int, int>) {
    forall m, p, b :: HasSamples(h, m, p, b) && p in w && b % p == 0 && b < w[p] && Unpurged(purged, p, b) ==> (m, p, b) in r
  }

  /** The raw table is the history, except for samples below every watermark. */
  ghost predicate RawKept(h: Samples, s: Samples, w: map<int, int>) {
    && (forall k :: k in s ==> k in h && s[k] == h[k])
    && (forall k, p :: k in h && k !in s && IsPeriod(p) ==> p in w && k.1 < w[p])
  }

  // ----- one rollup period

  /** The groups of `GROUP BY metric_id, ts / period` for `start <= ts < end`. */
  function Groups(s: Samples, period: int, start: int, end: int): set<(int, int, int)>
    requires period > 0
  {
    set k | k in s.Keys && start <= k.1 < end :: (k.0, period, Bucket(k.1, period))
  }

  /** The aggregate of one group; only rows of the selected range contribute. */
  function GroupFold(s: Samples, k: (int, int, int), start: int, end: int): Option<Acc> {
    Fold(s, k.0, Max(k.2, start), Min(k.2 + k.1, end))
  }

  lemma GroupHasRows(s: Samples, period: int, start: int, end: int, k: (int, int, int))
    requires IsPeriod(period) && k in Groups(s, period, start, end)
    ensures GroupFold(s, k, start, end).Some?
    ensures k.1 == period && k.2 % period == 0
  {
    var j :| j in s.Keys && start <= j.1 < end && k == (j.0, period, Bucket(j.1, period));
    BucketOf(j.1, period);
    assert (k.0, j.1) == j;
    FoldNonEmpty(s, k.0, Max(k.2, start), Min(k.2 + period, end), j.1);
  }

  /** `SELECT metric_id, period, bucket, MIN, MAX, AVG, COUNT ... GROUP BY ...` */
  function SelectRows(s: Samples, period: int, start: int, end: int): Rollups
    requires IsPeriod(period)
  {
    map k | k in Groups(s, period, start, end) ::
      (GroupHasRows(s, period, start, end, k); ToRow(GroupFold(s, k, start, end).value))
  }

  /** Selecting from aligned bounds gives the history's row for every bucket of the range that has samples. */
  lemma SelectedRow(h: Samples, s: Samples, w: map<int, int>, period: int, start: int, end: int, m: int, b: int)
    requires IsPeriod(period) && start % period == 0 && end % period == 0
    requires RawKept(h, s, w)
    requires if period in w then w[period] == start else forall k :: k in s ==> start <= k.1
    requires b % period == 0
    ensures (m, period, b) in Groups(s, period, start, end) <==> start <= b < end && HasSamples(h, m, period, b)
    ensures (m, period, b) in Groups(s, period, start, end) ==>
              SelectRows(s, period, start, end)[(m, period, b)] == HistoryRow(h, m, period, b)
  {
    hide Bucket, Fold;
    var k := (m, period, b);
    if start <= b < end {
      if b + period > end { MultiplesApart(b, end, period); }
      BucketAgrees(h, s, w, period, start, m, b);
      if HasSamples(h, m, period, b) {
        SampleInBucket(s, m, b, b + period);
        var ts :| b <= ts < b + period && (m, ts) in s;
        BucketUnique(ts, b, period);
        assert (m, ts) in s.Keys;
        assert k == ((m, ts).0, period, Bucket((m, ts).1, period));
        assert k in Groups(s, period, start, end);
      }
    }
    if k in Groups(s, period, start, end) {
      var j :| j in s.Keys && start <= j.1 < end && k == (j.0, period, Bucket(j.1, period));
      BucketOf(j.1, period);
      if b < start { MultiplesApart(b, start, period); }
      assert start <= b < end;
      assert Max(b, start) == b && Min(b + period, end) == b + period;
      GroupHasRows(s, period, start, end, k);
    }
  }

  /** At or above the watermark nothing has been deleted. */
  lemma BucketAgrees(h: Samples, s: Samples, w: map<int, int>, period: int, start: int, m: int, b: int)
    requires IsPeriod(period) && RawKept(h, s, w) && start <= b
    requires period in w ==> w[period] == start
    ensures Fold(s, m, b, b + period) == Fold(h, m, b, b + period)
  {
    FoldAgree(s, h, m, b, b + period);
  }

  lemma {:induction false} SampleInBucket(s: Samples, m: int, lo: int, hi: int)
    requires Fold(s, m, lo, hi).Some?
    ensures exists ts :: lo <= ts < hi && (m, ts) in s
    decreases hi - lo
  {
    if (m, hi - 1) in s {
    } else {
      SampleInBucket(s, m, lo, hi - 1);
      var ts :| lo <= ts < hi - 1 && (m, ts) in s;
    }
  }

  /** One round of `rollup` keeps the rows right and complete up to the new watermark. */
  lemma RollupKeeps(h: Samples, s: Samples, r: Rollups, w: map<int, int>, purged: map<int, int>,
                    period: int, start: int, end: int)
    requires IsPeriod(period) && start % period == 0 && end % period == 0 && start < end
    requires Aligned(w) && RowsRight(h, r, w) && RowsComplete(h, r, w, purged) && RawKept(h, s, w)
    requires if period in w then w[period] == start else forall k :: k in s ==> start <= k.1
    ensures var w', r' := w[period := end], r + SelectRows(s, period, start, end);
            Aligned(w') && RowsRight(h, r', w') && RowsComplete(h, r', w', purged) && RawKept(h, s, w')
  {
    hide HasSamples, HistoryRow, Fold, Bucket, RowsRight, RowsComplete, SelectRows;
    RollupRight(h, s, r, w, purged, period, start, end);
    RollupComplete(h, s, r, w, purged, period, start, end);
  }

  lemma RollupRight(h: Samples, s: Samples, r: Rollups, w: map<int, int>, purged: map<int, int>,
                    period: int, start: int, end: int)
    requires IsPeriod(period) && start % period == 0 && end % period == 0 && start < end
    requires Aligned(w) && RowsRight(h, r, w) && RowsComplete(h, r, w, purged) && RawKept(h, s, w)
    requires if period in w then w[period] == start else forall k :: k in s ==> start <= k.1
    ensures RowsRight(h, r + SelectRows(s, period, start, end), w[period := end])
  {
    hide HasSamples, HistoryRow, GroupFold, Fold, Bucket, RowsComplete, RawKept, Groups;
    var w', r' := w[period := end], r + SelectRows(s, period, start, end);
    var groups := Groups(s, period, start, end);
    forall k | k in groups ensures k.1 == period && k.2 % period == 0 {
      GroupHasRows(s, period, start, end, k);
    }
    forall m, p, b | (m, p, b) in r'
      ensures IsPeriod(p) && b % p == 0 && p in w' && b < w'[p]
              && HasSamples(h, m, p, b) && r'[(m, p, b)] == HistoryRow(h, m, p, b)
    {
      if (m, p, b) in groups {
        SelectedRow(h, s, w, period, start, end, m, b);
      } else {
        assert (m, p, b) in r;
      }
    }
  }

  lemma RollupComplete(h: Samples, s: Samples, r: Rollups, w: map<int, int>, purged: map<int, int>,
                       period: int, start: int, end: int)
    requires IsPeriod(period) && start % period == 0 && end % period == 0 && start < end
    requires Aligned(w) && RowsRight(h, r, w) && RowsComplete(h, r, w, purged) && RawKept(h, s, w)
    requires if period in w then w[period] == start else forall k :: k in s ==> start <= k.1
    ensures RowsComplete(h, r + SelectRows(s, period, start, end), w[period := end], purged)
  {
    hide HasSamples, HistoryRow, GroupFold, Fold, Bucket, RowsRight, RawKept, Groups;
    var w', r' := w[period := end], r + SelectRows(s, period, start, end);
    forall m, p, b | HasSamples(h, m, p, b) && p in w' && b % p == 0 && b < w'[p] && Unpurged(purged, p, b)
      ensures (m, p, b) in r'
    {
      if p == period {
        SelectedRow(h, s, w, period, start, end, m, b);
        if b < start && period !in w {
          NothingBefore(h, s, w, period, start, m, b);
        }
      }
    }
  }

  lemma NothingBefore(h: Samples, s: Samples, w: map<int, int>, period: int, start: int, m: int, b: int)
    requires IsPeriod(period) && start % period == 0 && b % period == 0 && b < start && period !in w
    requires RawKept(h, s, w) && forall k :: k in s ==> start <= k.1
    ensures !HasSamples(h, m, period, b)
  {
    MultiplesApart(b, start, period);
    assert forall ts :: (m, ts) in h ==> (m, ts) in s;
    FoldEmpty(h, m, b, b + period);
  }

  /** The watermarks after a roll-up of `period`: the last boundary not after `now`, if there is anything below it. */
  ghost function Advanced(w: map<int, int>, s: Samples, period: int, now: int): map<int, int>
    requires IsPeriod(period)
  {
    var end := Bucket(now, period);
    if period in w then w[period := Max(w[period], end)]
    else if exists k :: k in s && k.1 < end then w[period := end]
    else w
  }

  /** No watermark moves beyond `now`. */
  ghost predicate NotBeyond(w: map<int, int>, w': map<int, int>, now: int) {
    forall p :: p in w' ==> w'[p] <= now || (p in w && w'[p] == w[p])
  }

  lemma AdvancedNotBeyond(w: map<int, int>, s: Samples, period: int, now: int)
    requires IsPeriod(period)
    ensures NotBeyond(w, Advanced(w, s, period, now), now)
  {
    hide Bucket;
    BucketOf(now, period);
  }

  /** A sample lies below a boundary iff the bucket of the earliest sample does. */
  lemma EarliestBelow(s: Samples, stamps: set<int>, period: int, end: int)
    requires IsPeriod(period) && end % period == 0 && stamps != {}
    requires forall k :: k in s ==> k.1 in stamps
    requires forall t :: t in stamps ==> exists k :: k in s && k.1 == t
    ensures Bucket(MinOf(stamps), period) < end <==> exists k :: k in s && k.1 < end
  {
    hide Bucket;
    var t := MinOf(stamps);
    BucketOf(t, period);
    var k :| k in s && k.1 == t;
    if Bucket(t, period) < end {
      MultiplesApart(Bucket(t, period), end, period);
    }
    forall j | j in s ensures t <= j.1 {
      assert j.1 in stamps;
    }
  }

  /** The timestamps of all raw samples. */
  function AllStamps(s: Samples): (r: set<int>)
    ensures forall k :: k in s ==> k.1 in r
    ensures forall t :: t in r ==> exists k :: k in s && k.1 == t
  {
    set k | k in s.Keys :: k.1
  }

  // ----- retention

  /** `DELETE FROM samples WHERE ts < cutoff`. */
  function KeepSamples(s: Samples, cutoff: int): (r: Samples)
    ensures forall k :: k in r <==> k in s && k.1 >= cutoff
    ensures forall k :: k in r ==> r[k] == s[k]
  {
    map k | k in s && k.1 >= cutoff :: s[k]
  }

  /** `DELETE FROM rollups WHERE period = ? AND bucket < cutoff`. */
  function KeepRows(r: Rollups, period: int, cutoff: int): (r': Rollups)
    ensures forall k :: k in r' <==> k in r && !(k.1 == period && k.2 < cutoff)
    ensures forall k :: k in r' ==> r'[k] == r[k]
  {
    map k | k in r && !(k.1 == period && k.2 < cutoff) :: r[k]
  }

  /** `after` is `before` without the keys that do not satisfy `keep`. */
  ghost predicate IsRestriction<K(!new), V>(before: map<K, V>, after: map<K, V>, keep: K -> bool) {
    && (forall k :: k in after <==> k in before && keep(k))
    && (forall k :: k in after ==> after[k] == before[k])
  }

  /** Rollup retention: 5-minute rows are kept 35 days at most. */
  function Cutoff(p: int, now: int, rollupDays: int): int {
    if p == 300 then now - Min(rollupDays, 35) * DAY else now - rollupDays * DAY
  }

  ghost function NewFloors(purged: map<int, int>, now: int, rollupDays: int): map<int, int> {
    map p | p in {300, 3600} ::
      if p in purged then Max(purged[p], Cutoff(p, now, rollupDays)) else Cutoff(p, now, rollupDays)
  }

  lemma NewFloorsMeaning(purged: map<int, int>, now: int, rollupDays: int)
    ensures forall p, b :: IsPeriod(p) ==>
              (Unpurged(NewFloors(purged, now, rollupDays), p, b) <==>
               Unpurged(purged, p, b) && b >= Cutoff(p, now, rollupDays))
  {
    hide Cutoff;
  }

  // ----- the store

  class Store {
    var samples: Samples
    var rollups: Rollups
    var watermarks: map<int, int>
    ghost var history: Samples
    ghost var purged: map<int, int>

    ghost predicate Valid()
      reads this
    {
      && Aligned(watermarks)
      && RowsRight(history, rollups, watermarks)
      && RowsComplete(history, rollups, watermarks, purged)
      && RawKept(history, samples, watermarks)
    }

    constructor ()
      ensures Valid() && samples == map[] && rollups == map[] && watermarks == map[] && history == map[] && purged == map[]
    {
      samples, rollups, watermarks, history, purged := map[], map[], map[], map[], map[];
    }

    /** A poll stores a sample; it is not older than what has been rolled up. */
    method Insert(metric: int, ts: int, value: real)
      requires Valid()
      requires forall p :: p in watermarks ==> watermarks[p] <= ts
      modifies this
      ensures Valid()
      ensures samples == old(samples)[(metric, ts) := value] && history == old(history)[(metric, ts) := value]
      ensures rollups == old(rollups) && watermarks == old(watermarks) && purged == old(purged)
    {
      InsertKeeps(history, rollups, watermarks, purged, metric, ts, value);
      samples := samples[(metric, ts) := value];
      history := history[(metric, ts) := value];
    }

    /** One round of `rollup`. */
    method RollupPeriod(period: int, now: int)
      requires Valid() && IsPeriod(period)
      modifies this
      ensures Valid()
      ensures samples == old(samples) && history == old(history) && purged == old(purged)
      ensures forall p :: p != period ==> (p in watermarks <==> p in old(watermarks))
      ensures forall p :: p in old(watermarks) ==> p in watermarks && old(watermarks)[p] <= watermarks[p]
      ensures forall p :: p != period && p in watermarks ==> watermarks[p] == old(watermarks)[p]
      ensures watermarks == Advanced(old(watermarks), samples, period, now) && NotBeyond(old(watermarks), watermarks, now)
      ensures if period in watermarks then watermarks[period] >= now / period * period
              else forall k :: k in samples ==> k.1 >= now / period * period
    {
      hide Aligned, RowsRight, RowsComplete, RawKept, SelectRows, NotBeyond;
      var end := now / period * period;
      BucketOf(now, period);
      AdvancedNotBeyond(watermarks, samples, period, now);
      var start;
      if period !in watermarks {
        var stamps := AllStamps(samples);
        if stamps == {} {
          return;
        }
        start := MinOf(stamps) / period * period;
        BucketOf(MinOf(stamps), period);
        EarliestBelow(samples, stamps, period, end);
      } else {
        start := watermarks[period];
        AlignedAt(watermarks, period);
      }
      if end <= start {
        return;
      }
      RollupKeeps(history, samples, rollups, watermarks, purged, period, start, end);
      rollups := rollups + SelectRows(samples, period, start, end);
      watermarks := watermarks[period := end];
    }

    /** `rollup`: completed buckets of both periods, shortest first. Watermarks never decrease. */
    method Rollup(now: int)
      requires Valid()
      modifies this
      ensures Valid()
      ensures samples == old(samples) && history == old(history) && purged == old(purged)
      ensures forall p :: p in old(watermarks) ==> p in watermarks && old(watermarks)[p] <= watermarks[p]
      ensures UpTo(now)
      ensures watermarks == Advanced(Advanced(old(watermarks), samples, 300, now), samples, 3600, now)
      ensures NotBeyond(old(watermarks), watermarks, now)
    {
      hide Aligned, RowsRight, RowsComplete, RawKept, Advanced;
      var i := 0;
      assert ROLLUP_PERIODS[0] == 300 && ROLLUP_PERIODS[1] == 3600;
      while i < |ROLLUP_PERIODS|
        invariant 0 <= i <= |ROLLUP_PERIODS|
        invariant Valid()
        invariant samples == old(samples) && history == old(history) && purged == old(purged)
        invariant forall p :: p in old(watermarks) ==> p in watermarks && old(watermarks)[p] <= watermarks[p]
        invariant forall j :: 0 <= j < i ==> RolledUp(ROLLUP_PERIODS[j], now)
        invariant NotBeyond(old(watermarks), watermarks, now)
        invariant watermarks == if i == 0 then old(watermarks)
                                else if i == 1 then Advanced(old(watermarks), samples, 300, now)
                                else Advanced(Advanced(old(watermarks), samples, 300, now), samples, 3600, now)
      {
        RollupPeriod(ROLLUP_PERIODS[i], now);
        i := i + 1;
      }
    }

    /** The period has been rolled up to its last boundary before `now`, or there is nothing below that. */
    ghost predicate RolledUp(period: int, now: int)
      requires IsPeriod(period)
      reads this
    {
      if period in watermarks then watermarks[period] >= now / period * period
      else forall k :: k in samples ==> k.1 >= now / period * period
    }

    ghost predicate UpTo(now: int)
      reads this
    {
      RolledUp(300, now) && RolledUp(3600, now)
    }

    /** Raw samples below the cutoff are all in completed rollups. */
    ghost predicate Covered(cutoff: int)
      reads this
    {
      forall p :: IsPeriod(p) ==>
        if p in watermarks then cutoff <= watermarks[p] else forall k :: k in samples ==> k.1 >= cutoff
    }

    /** The samples and rollups part of `apply_retention`. */
    method ApplyRetention(now: int, rawDays: int, rollupDays: int)
      requires Valid() && Covered(now - rawDays * DAY)
      modifies this
      ensures Valid()
      ensures history == old(history) && watermarks == old(watermarks)
      ensures IsRestriction(old(samples), samples, (k: (int, int)) => k.1 >= now - rawDays * DAY)
      ensures IsRestriction(old(rollups), rollups, (k: (int, int, int)) => k.2 >= Cutoff(k.1, now, rollupDays))
      ensures forall p, b :: IsPeriod(p) ==>
                (Unpurged(purged, p, b) <==> Unpurged(old(purged), p, b) && b >= Cutoff(p, now, rollupDays))
    {
      hide Aligned, RowsRight, RowsComplete, RawKept, Unpurged, KeepSamples, KeepRows, NewFloors;
      OnlyPeriods(history, rollups, watermarks);
      ghost var floors := NewFloors(purged, now, rollupDays);
      NewFloorsMeaning(purged, now, rollupDays);
      samples := KeepSamples(samples, now - rawDays * DAY);
      rollups := KeepRows(rollups, 300, now - Min(rollupDays, 35) * DAY);
      rollups := KeepRows(rollups, 3600, now - rollupDays * DAY);
      RetentionKeeps(history, old(samples), samples, old(rollups), rollups, watermarks, purged, floors, now - rawDays * DAY);
      purged := floors;
    }

    /** Rollup, then retention a little later: whatever is in the tables, no raw sample is lost unrolled. */
    method Housekeeping(now: int, later: int, rawDays: int, rollupDays: int)
      requires Valid() && rawDays >= 1
      requires later - now <= rawDays * DAY - 3600
      modifies this
      ensures Valid() && history == old(history)
      ensures forall p :: p in old(watermarks) ==> p in watermarks && old(watermarks)[p] <= watermarks[p]
      ensures UpTo(now) && NotBeyond(old(watermarks), watermarks, now)
      ensures watermarks == Advanced(Advanced(old(watermarks), old(samples), 300, now), old(samples), 3600, now)
      ensures IsRestriction(old(samples), samples, (k: (int, int)) => k.1 >= later - rawDays * DAY)
      ensures forall k :: k in rollups ==> k.2 >= Cutoff(k.1, later, rollupDays)
      ensures forall p, b :: IsPeriod(p) ==>
                (Unpurged(purged, p, b) <==> Unpurged(old(purged), p, b) && b >= Cutoff(p, later, rollupDays))
    {
      hide Cutoff, Unpurged, Advanced, NotBeyond, Aligned, RowsRight, RowsComplete, RawKept;
      Rollup(now);
      assert now / 300 * 300 > now - 300 && now / 3600 * 3600 > now - 3600;
      ApplyRetention(later, rawDays, rollupDays);
    }
  }

  lemma OnlyPeriods(h: Samples, r: Rollups, w: map<int, int>)
    requires RowsRight(h, r, w)
    ensures forall k :: k in r ==> IsPeriod(k.1)
  {
    forall k | k in r ensures IsPeriod(k.1) {
      var (m, p, b) := k;
      assert (m, p, b) in r;
    }
  }

  lemma AlignedAt(w: map<int, int>, p: int)
    requires Aligned(w) && p in w
    ensures IsPeriod(p) && w[p] % p == 0
  {
  }

  lemma InsertKeeps(h: Samples, r: Rollups, w: map<int, int>, purged: map<int, int>, metric: int, ts: int, value: real)
    requires Aligned(w) && RowsRight(h, r, w) && RowsComplete(h, r, w, purged)
    requires forall p :: p in w ==> w[p] <= ts
    ensures RowsRight(h[(metric, ts) := value], r, w) && RowsComplete(h[(metric, ts) := value], r, w, purged)
  {
    hide HasSamples, HistoryRow;
    var h' := h[(metric, ts) := value];
    forall m, p, b | p in w && b % p == 0 && b < w[p]
      ensures HasSamples(h', m, p, b) <==> HasSamples(h, m, p, b)
      ensures HasSamples(h', m, p, b) ==> HistoryRow(h', m, p, b) == HistoryRow(h, m, p, b)
    {
      MultiplesApart(b, w[p], p);
      BucketUntouched(h, h', m, p, b);
    }
    forall m, p, b | (m, p, b) in r ensures HasSamples(h', m, p, b) && r[(m, p, b)] == HistoryRow(h', m, p, b) {
      assert HasSamples(h, m, p, b);
    }
  }

  lemma BucketUntouched(h: Samples, h': Samples, m: int, p: int, b: int)
    requires forall ts :: b <= ts < b + p ==> ((m, ts) in h' <==> (m, ts) in h)
    requires forall ts :: b <= ts < b + p && (m, ts) in h' ==> h'[(m, ts)] == h[(m, ts)]
    ensures HasSamples(h', m, p, b) <==> HasSamples(h, m, p, b)
    ensures HasSamples(h', m, p, b) ==> HistoryRow(h', m, p, b) == HistoryRow(h, m, p, b)
  {
    FoldAgree(h', h, m, b, b + p);
  }

  /** Deleting raw samples that are covered, and old rollup rows, keeps the tables right. */
  lemma RetentionKeeps(h: Samples, s: Samples, s': Samples, r: Rollups, r': Rollups, w: map<int, int>,
                       purged: map<int, int>, purged': map<int, int>, cutoff: int)
    requires RowsRight(h, r, w) && RowsComplete(h, r, w, purged) && RawKept(h, s, w) && Aligned(w)
    requires forall p :: IsPeriod(p) ==> if p in w then cutoff <= w[p] else forall k :: k in s ==> k.1 >= cutoff
    requires forall k :: k in s' <==> k in s && k.1 >= cutoff
    requires forall k :: k in s' ==> s'[k] == s[k]
    requires forall k :: k in r' ==> k in r && r'[k] == r[k]
    requires forall m, p, b :: (m, p, b) in r && Unpurged(purged', p, b) ==> (m, p, b) in r'
    requires forall p, b :: IsPeriod(p) && Unpurged(purged', p, b) ==> Unpurged(purged, p, b)
    ensures RowsRight(h, r', w) && RowsComplete(h, r', w, purged') && RawKept(h, s', w)
  {
    hide HasSamples, HistoryRow, Unpurged;
    forall k, p | k in h && k !in s' && IsPeriod(p) ensures p in w && k.1 < w[p] {
      if k in s {
        assert k.1 < cutoff;
      }
    }
  }

  // ----- what every reachable state says

  /** Below the watermark: a row iff the full history has a sample there, and then exactly its aggregate. */
  lemma RowIffSamples(st: Store, m: int, p: int, b: int)
    requires st.Valid() && p in st.watermarks && b % p == 0 && b < st.watermarks[p] && Unpurged(st.purged, p, b)
    ensures IsPeriod(p)
    ensures (m, p, b) in st.rollups <==> HasSamples(st.history, m, p, b)
    ensures (m, p, b) in st.rollups ==> st.rollups[(m, p, b)] == HistoryRow(st.history, m, p, b)
  {
  }

  /** Every row of a reachable store holds least, greatest, mean and number of the bucket's values, of all ever inserted. */
  lemma RowIsAggregate(st: Store, m: int, p: int, b: int)
    requires st.Valid() && (m, p, b) in st.rollups
    ensures var r := st.rollups[(m, p, b)];
            IsAggregate(st.history, m, b, b + p, r.vmin, r.vmax, r.vavg, r.vcount)
  {
    hide Fold, IsAggregate, ToRow, RowsComplete, RawKept;
    RowMeaning(st.history, m, b, b + p);
  }

  /** Retention: 5-minute rows for at most 35 days, hourly rows for as long as is set. */
  lemma CutoffMeaning(now: int, rollupDays: int)
    ensures rollupDays <= 35 ==> Cutoff(300, now, rollupDays) == now - rollupDays * 86400
    ensures rollupDays > 35 ==> Cutoff(300, now, rollupDays) == now - 35 * 86400
    ensures Cutoff(3600, now, rollupDays) == now - rollupDays * 86400
  {
  }

  /** `n` consecutive 5-minute rows combined. */
  ghost function Combined(r: Rollups, m: int, b: int, n: nat): Option<Acc> {
    if n == 0 then None
    else
      var k := (m, 300, b + 300 * (n - 1));
      JoinOption(Combined(r, m, b, n - 1), if k in r then Some(ToAcc(r[k])) else None)
  }

  /** A completed hourly row is the weighted combination of its twelve 5-minute rows. */
  lemma HourIsTwelve(st: Store, m: int, b: int)
    requires st.Valid() && 300 in st.watermarks && 3600 in st.watermarks && b % 3600 == 0
    requires b < st.watermarks[3600] && b + 3600 <= st.watermarks[300]
    requires Unpurged(st.purged, 3600, b) && Unpurged(st.purged, 300, b)
    ensures (m, 3600, b) in st.rollups <==> Combined(st.rollups, m, b, 12).Some?
    ensures (m, 3600, b) in st.rollups ==> ToAcc(st.rollups[(m, 3600, b)]) == Combined(st.rollups, m, b, 12).value
  {
    hide Combined, Fold, Aligned, RowsRight, RowsComplete, RawKept, ToRow, ToAcc;
    HourIsAligned(b);
    RowIffSamples(st, m, 3600, b);
    CombinedIsFold(st, m, b, 12);
    if HasSamples(st.history, m, 3600, b) {
      AverageTimesCount(Fold(st.history, m, b, b + 3600).value);
    }
  }

  lemma HourIsAligned(b: int)
    requires b % 3600 == 0
    ensures b % 300 == 0
  {
    assert b == b / 3600 * 3600;
  }

  lemma {:induction false} CombinedIsFold(st: Store, m: int, b: int, n: nat)
    requires st.Valid() && 300 in st.watermarks && b % 300 == 0 && b + 300 * n <= st.watermarks[300]
             && Unpurged(st.purged, 300, b)
    ensures Combined(st.rollups, m, b, n) == Fold(st.history, m, b, b + 300 * n)
  {
    hide Aligned, RowsRight, RowsComplete, RawKept, Fold, ToRow, ToAcc;
    FoldEmpty(st.history, m, b, b);
    if n == 0 {
    } else {
      var last := b + 300 * (n - 1);
      CombinedIsFold(st, m, b, n - 1);
      RowIffSamples(st, m, 300, last);
      FoldSplit(st.history, m, b, last, last + 300);
      if HasSamples(st.history, m, 300, last) {
        AverageTimesCount(Fold(st.history, m, last, last + 300).value);
      }
    }
  }
}
