/**
  Aggregates of timestamped samples: what MIN, MAX, AVG and COUNT mean for a range.

  Timestamps are integers, as in the samples table; values are exact reals.
 */
module SampleHistory {
  import opened Options

  /** The samples table: (metric, ts) is its primary key. */
  type Samples = map<(int, int), real>

  /** Minimum, maximum, sum and count of a non-empty group. */
  datatype Acc = Acc(min: real, max: real, sum: real, count: nat)

  /** A rollup row. */
  datatype Row = Row(vmin: real, vmax: real, vavg: real, vcount: nat)

  function MinR(a: real, b: real): real { if a < b then a else b }

  function MaxR(a: real, b: real): real { if a < b then b else a }

  function One(v: real): Acc { Acc(v, v, v, 1) }

  function Join(a: Acc, b: Acc): Acc {
    Acc(MinR(a.min, b.min), MaxR(a.max, b.max), a.sum + b.sum, a.count + b.count)
  }

  function JoinOption(a: Option<Acc>, b: Option<Acc>): Option<Acc> {
    if a.None? then b else if b.None? then a else Some(Join(a.value, b.value))
  }

  /** The aggregate of the samples of a metric with `lo <= ts < hi`; None for an empty group. */
  function Fold(s: Samples, metric: int, lo: int, hi: int): (r: Option<Acc>)
    ensures r.Some? ==> r.value.count > 0
    decreases hi - lo
  {
    if hi <= lo then None
    else
      var before := Fold(s, metric, lo, hi - 1);
      if (metric, hi - 1) in s then JoinOption(before, Some(One(s[(metric, hi - 1)]))) else before
  }

  function ToRow(a: Acc): Row
    requires a.count > 0
  {
    Row(a.min, a.max, a.sum / a.count as real, a.count)
  }

  function ToAcc(r: Row): Acc {
    Acc(r.vmin, r.vmax, r.vavg * r.vcount as real, r.vcount)
  }

  lemma AverageTimesCount(a: Acc)
    requires a.count > 0
    ensures ToAcc(ToRow(a)) == a
  {
  }

  /** The timestamps of a group. */
  ghost function Stamps(s: Samples, metric: int, lo: int, hi: int): set<int> {
    set k | k in s.Keys && k.0 == metric && lo <= k.1 < hi :: k.1
  }

  /** `a` holds the number and the extremes of the values at the given timestamps. */
  ghost predicate Describes(s: Samples, metric: int, stamps: set<int>, a: Acc) {
    && (forall t :: t in stamps ==> (metric, t) in s)
    && a.count == |stamps|
    && (forall t :: t in stamps ==> a.min <= s[(metric, t)] <= a.max)
    && (exists t :: t in stamps && s[(metric, t)] == a.min)
    && (exists t :: t in stamps && s[(metric, t)] == a.max)
  }

  lemma DescribeOneMore(s: Samples, metric: int, stamps: set<int>, a: Acc, t: int)
    requires Describes(s, metric, stamps, a) && t !in stamps && (metric, t) in s
    ensures Describes(s, metric, stamps + {t}, Join(a, One(s[(metric, t)])))
  {
    var u :| u in stamps && s[(metric, u)] == a.min;
    var w :| w in stamps && s[(metric, w)] == a.max;
    var more := stamps + {t};
    assert u in more && w in more && t in more;
  }

  lemma DescribeOne(s: Samples, metric: int, t: int)
    requires (metric, t) in s
    ensures Describes(s, metric, {t}, One(s[(metric, t)]))
  {
    assert t in {t};
  }

  /** `Fold` is what SQL computes: none for no rows; else least, greatest and number of the values. */
  lemma {:induction false} FoldMeaning(s: Samples, metric: int, lo: int, hi: int)
    ensures Fold(s, metric, lo, hi).None? <==> Stamps(s, metric, lo, hi) == {}
    ensures Fold(s, metric, lo, hi).Some? ==>
              Describes(s, metric, Stamps(s, metric, lo, hi), Fold(s, metric, lo, hi).value)
    decreases hi - lo
  {
    hide Stamps, Describes, Join, One;
    if hi <= lo {
      NoStamps(s, metric, lo, hi);
    } else {
      FoldMeaning(s, metric, lo, hi - 1);
      LastStamp(s, metric, lo, hi);
      var all, front := Stamps(s, metric, lo, hi), Stamps(s, metric, lo, hi - 1);
      if (metric, hi - 1) in s {
        assert all == front + {hi - 1};
        if front == {} {
          DescribeOne(s, metric, hi - 1);
          assert all == {hi - 1};
        } else {
          DescribeOneMore(s, metric, front, Fold(s, metric, lo, hi - 1).value, hi - 1);
        }
      } else {
        assert all == front;
      }
    }
  }

  lemma NoStamps(s: Samples, metric: int, lo: int, hi: int)
    requires hi <= lo
    ensures Stamps(s, metric, lo, hi) == {}
  {
    assert forall t :: t !in Stamps(s, metric, lo, hi);
  }

  lemma LastStamp(s: Samples, metric: int, lo: int, hi: int)
    requires lo < hi
    ensures Stamps(s, metric, lo, hi) ==
            Stamps(s, metric, lo, hi - 1) + if (metric, hi - 1) in s then {hi - 1} else {}
    ensures hi - 1 !in Stamps(s, metric, lo, hi - 1)
  {
    forall t ensures t in Stamps(s, metric, lo, hi) <==> lo <= t < hi && (metric, t) in s.Keys {
    }
    forall t ensures t in Stamps(s, metric, lo, hi - 1) <==> lo <= t < hi - 1 && (metric, t) in s.Keys {
    }
  }

  /** Sum of the values of a range, on its own. */
  ghost function Sum(s: Samples, metric: int, lo: int, hi: int): real
    decreases hi - lo
  {
    if hi <= lo then 0.0
    else Sum(s, metric, lo, hi - 1) + if (metric, hi - 1) in s then s[(metric, hi - 1)] else 0.0
  }

  lemma {:induction false} FoldSum(s: Samples, metric: int, lo: int, hi: int)
    ensures Sum(s, metric, lo, hi) ==
            if Fold(s, metric, lo, hi).Some? then Fold(s, metric, lo, hi).value.sum else 0.0
    decreases hi - lo
  {
    if hi <= lo {
    } else {
      FoldSum(s, metric, lo, hi - 1);
    }
  }

  /** Extremes, average and number of the values of a range, said without the aggregate. */
  ghost predicate IsAggregate(s: Samples, metric: int, lo: int, hi: int, vmin: real, vmax: real, vavg: real, vcount: nat) {
    var stamps := Stamps(s, metric, lo, hi);
    && vcount == |stamps| > 0
    && (forall t :: t in stamps ==> (metric, t) in s && vmin <= s[(metric, t)] <= vmax)
    && (exists t :: t in stamps && (metric, t) in s && s[(metric, t)] == vmin)
    && (exists t :: t in stamps && (metric, t) in s && s[(metric, t)] == vmax)
    && vavg * vcount as real == Sum(s, metric, lo, hi)
  }

  /** A rollup row holds them. */
  lemma RowMeaning(s: Samples, metric: int, lo: int, hi: int)
    requires Fold(s, metric, lo, hi).Some?
    ensures var r := ToRow(Fold(s, metric, lo, hi).value);
            IsAggregate(s, metric, lo, hi, r.vmin, r.vmax, r.vavg, r.vcount)
  {
    hide Fold, Stamps, Sum;
    FoldMeaning(s, metric, lo, hi);
    FoldSum(s, metric, lo, hi);
    var a := Fold(s, metric, lo, hi).value;
    AverageTimesCount(a);
    assert a.sum / a.count as real * a.count as real == a.sum;
  }

  /** Adjacent ranges combine. */
  lemma {:induction false} FoldSplit(s: Samples, metric: int, lo: int, mid: int, hi: int)
    requires lo <= mid <= hi
    ensures Fold(s, metric, lo, hi) == JoinOption(Fold(s, metric, lo, mid), Fold(s, metric, mid, hi))
    decreases hi - mid
  {
    if hi <= mid {
    } else {
      FoldSplit(s, metric, lo, mid, hi - 1);
    }
  }

  /** Tables that agree on a range have the same aggregate there. */
  lemma {:induction false} FoldAgree(s: Samples, t: Samples, metric: int, lo: int, hi: int)
    requires forall ts :: lo <= ts < hi ==> ((metric, ts) in s <==> (metric, ts) in t)
    requires forall ts :: lo <= ts < hi && (metric, ts) in s ==> s[(metric, ts)] == t[(metric, ts)]
    ensures Fold(s, metric, lo, hi) == Fold(t, metric, lo, hi)
    decreases hi - lo
  {
    if hi <= lo {
    } else {
      FoldAgree(s, t, metric, lo, hi - 1);
      assert (metric, hi - 1) in s <==> (metric, hi - 1) in t;
    }
  }

  lemma {:induction false} FoldEmpty(s: Samples, metric: int, lo: int, hi: int)
    requires forall ts :: lo <= ts < hi ==> (metric, ts) !in s
    ensures Fold(s, metric, lo, hi) == None
    decreases hi - lo
  {
    if hi <= lo {
    } else {
      FoldEmpty(s, metric, lo, hi - 1);
      assert (metric, hi - 1) !in s;
    }
  }

  lemma {:induction false} FoldNonEmpty(s: Samples, metric: int, lo: int, hi: int, ts: int)
    requires lo <= ts < hi && (metric, ts) in s
    ensures Fold(s, metric, lo, hi).Some?
    decreases hi - lo
  {
    if hi - 1 <= ts {
    } else {
      FoldNonEmpty(s, metric, lo, hi - 1, ts);
    }
  }

  // ----- buckets

  const ROLLUP_PERIODS: seq<int> := [300, 3600]

  predicate IsPeriod(p: int) { p == 300 || p == 3600 }

  function Bucket(ts: int, period: int): int
    requires period > 0
  {
    ts / period * period
  }

  /** A timestamp lies in its bucket. */
  lemma BucketOf(ts: int, period: int)
    requires IsPeriod(period)
    ensures Bucket(ts, period) % period == 0 && Bucket(ts, period) <= ts < Bucket(ts, period) + period
  {
  }

  /** Two multiples of the period are at least a period apart. */
  lemma MultiplesApart(a: int, b: int, period: int)
    requires IsPeriod(period) && a % period == 0 && b % period == 0 && a < b
    ensures a + period <= b
  {
    if period == 300 {
      assert a == a / 300 * 300 && b == b / 300 * 300;
    } else {
      assert a == a / 3600 * 3600 && b == b / 3600 * 3600;
    }
  }

  /** A timestamp lies in no other bucket. */
  lemma BucketUnique(ts: int, b: int, period: int)
    requires IsPeriod(period) && b % period == 0 && b <= ts < b + period
    ensures b == Bucket(ts, period)
  {
    hide Bucket;
    BucketOf(ts, period);
    var c := Bucket(ts, period);
    if b < c {
      MultiplesApart(b, c, period);
    } else if c < b {
      MultiplesApart(c, b, period);
    }
  }
}
