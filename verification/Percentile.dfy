/**
  The 95th percentile of a window, as used for burstable billing: of the 5-minute averages if there
  are enough, else of the hourly ones, else of the raw samples.

  The query sorts and skips rows; its result is characterised by counting, without any order.
 */
module Percentile {
  import opened Options
  import opened SampleHistory
  import opened Storage

  /** `vavg` of the rows with `lo <= bucket < hi`. */
  function RowValues(r: Rollups, m: int, p: int, lo: int, hi: int): seq<real>
    decreases hi - lo
  {
    if hi <= lo then []
    else RowValues(r, m, p, lo, hi - 1) + if (m, p, hi - 1) in r then [r[(m, p, hi - 1)].vavg] else []
  }

  /** `value` of the samples with `lo <= ts < hi`. */
  function SampleValues(s: Samples, m: int, lo: int, hi: int): seq<real>
    decreases hi - lo
  {
    if hi <= lo then []
    else SampleValues(s, m, lo, hi - 1) + if (m, hi - 1) in s then [s[(m, hi - 1)]] else []
  }

  /** Number of values at most `v`. */
  function AtMost(xs: seq<real>, v: real): nat {
    if xs == [] then 0 else AtMost(xs[..|xs| - 1], v) + if xs[|xs| - 1] <= v then 1 else 0
  }

  /** Number of values below `v`. */
  function Below(xs: seq<real>, v: real): nat {
    if xs == [] then 0 else Below(xs[..|xs| - 1], v) + if xs[|xs| - 1] < v then 1 else 0
  }

  /** The least of the values that at least 95 in 100 values do not exceed. */
  ghost predicate IsP95(xs: seq<real>, v: real) {
    v in xs && 100 * AtMost(xs, v) >= 95 * |xs| && 100 * Below(xs, v) < 95 * |xs|
  }

  // ----- ORDER BY ... LIMIT 1 OFFSET ...

  ghost predicate Ascending(xs: seq<real>) {
    forall i, j :: 0 <= i < j < |xs| ==> xs[i] <= xs[j]
  }

  function Insert(x: real, xs: seq<real>): (r: seq<real>)
    ensures Ascending(xs) ==> Ascending(r)
    ensures |r| == |xs| + 1
    ensures forall y :: y in r <==> y == x || y in xs
  {
    if xs == [] then [x]
    else
      var n := |xs| - 1;
      assert xs == xs[..n] + [xs[n]];
      if xs[n] <= x then xs + [x]
      else
        var front := Insert(x, xs[..n]);
        assert Ascending(xs) ==> forall i :: 0 <= i < |front| ==> front[i] in front && front[i] <= xs[n];
        front + [xs[n]]
  }

  function Sorted(xs: seq<real>): (r: seq<real>)
    ensures Ascending(r) && |r| == |xs|
    ensures forall y :: y in r <==> y in xs
  {
    if xs == [] then []
    else
      assert xs == xs[..|xs| - 1] + [xs[|xs| - 1]];
      Insert(xs[|xs| - 1], Sorted(xs[..|xs| - 1]))
  }

  /** `max(0, ceil(n * 0.95) - 1)`. */
  function Offset(n: nat): (k: nat)
    ensures n > 0 ==> k < n && 100 * k < 95 * n <= 100 * (k + 1)
  {
    var c := (95 * n + 99) / 100;
    if c == 0 then 0 else c - 1
  }

  function Pick(xs: seq<real>): Option<real> {
    if xs == [] then None else Some(Sorted(xs)[Offset(|xs|)])
  }

  /** `percentile_95`. */
  function Percentile95(s: Samples, r: Rollups, m: int, start: int, end: int): Option<real> {
    var five, hour := RowValues(r, m, 300, start, end), RowValues(r, m, 3600, start, end);
    if |five| >= 12 then Pick(five)
    else if |hour| >= 12 || |hour| > 0 then Pick(hour)
    else Pick(SampleValues(s, m, start, end + 1))
  }

  // ----- counting does not see the order

  lemma CountAppend(xs: seq<real>, x: real, v: real)
    ensures AtMost(xs + [x], v) == AtMost(xs, v) + if x <= v then 1 else 0
    ensures Below(xs + [x], v) == Below(xs, v) + if x < v then 1 else 0
  {
    assert (xs + [x])[..|xs|] == xs;
  }

  lemma {:induction false} CountInsert(x: real, xs: seq<real>, v: real)
    ensures AtMost(Insert(x, xs), v) == AtMost(xs, v) + if x <= v then 1 else 0
    ensures Below(Insert(x, xs), v) == Below(xs, v) + if x < v then 1 else 0
  {
    CountAppend(xs, x, v);
    if xs == [] {
      assert xs + [x] == [x];
    } else if !(xs[|xs| - 1] <= x) {
      var n := |xs| - 1;
      CountInsert(x, xs[..n], v);
      CountAppend(Insert(x, xs[..n]), xs[n], v);
    }
  }

  lemma {:induction false} CountSorted(xs: seq<real>, v: real)
    ensures AtMost(Sorted(xs), v) == AtMost(xs, v) && Below(Sorted(xs), v) == Below(xs, v)
  {
    if xs == [] {
    } else {
      var n := |xs| - 1;
      CountSorted(xs[..n], v);
      CountInsert(xs[n], Sorted(xs[..n]), v);
    }
  }

  /** In an ascending list the count is bounded by the position. */
  lemma {:induction false} CountAscending(xs: seq<real>, k: nat)
    requires Ascending(xs) && k < |xs|
    ensures AtMost(xs, xs[k]) >= k + 1 && Below(xs, xs[k]) <= k
  {
    var n := |xs| - 1;
    if k < n {
      CountAscending(xs[..n], k);
    } else {
      AllAtMost(xs, xs[k]);
      FewBelow(xs[..n], xs[k]);
    }
  }

  lemma {:induction false} AllAtMost(xs: seq<real>, v: real)
    requires forall i :: 0 <= i < |xs| ==> xs[i] <= v
    ensures AtMost(xs, v) == |xs|
  {
    if xs == [] {
    } else {
      AllAtMost(xs[..|xs| - 1], v);
    }
  }

  lemma {:induction false} FewBelow(xs: seq<real>, v: real)
    ensures Below(xs, v) <= |xs|
  {
    if xs == [] {
    } else {
      FewBelow(xs[..|xs| - 1], v);
    }
  }

  lemma {:induction false} MoreBelow(xs: seq<real>, v: real, w: real)
    requires v < w
    ensures AtMost(xs, v) <= Below(xs, w)
  {
    if xs == [] {
    } else {
      MoreBelow(xs[..|xs| - 1], v, w);
    }
  }

  /** The picked value is the 95th percentile, and the only one. */
  lemma PickIsP95(xs: seq<real>, v: real)
    requires xs != []
    ensures IsP95(xs, v) <==> Pick(xs) == Some(v)
  {
    var k, u := Offset(|xs|), Sorted(xs)[Offset(|xs|)];
    CountAscending(Sorted(xs), k);
    CountSorted(xs, u);
    assert u in Sorted(xs);
    assert IsP95(xs, u);
    if v < u {
      MoreBelow(xs, v, u);
    } else if u < v {
      MoreBelow(xs, u, v);
    }
  }

  /** Which rows answer the query, and that the answer is their 95th percentile. */
  lemma Percentile95Meaning(s: Samples, r: Rollups, m: int, start: int, end: int, v: real)
    ensures var five, hour, raw := RowValues(r, m, 300, start, end), RowValues(r, m, 3600, start, end),
                                   SampleValues(s, m, start, end + 1);
            var p := Percentile95(s, r, m, start, end);
            && (p == None <==> |five| < 12 && hour == [] && raw == [])
            && (|five| >= 12 ==> (p == Some(v) <==> IsP95(five, v)))
            && (|five| < 12 && hour != [] ==> (p == Some(v) <==> IsP95(hour, v)))
            && (|five| < 12 && hour == [] && raw != [] ==> (p == Some(v) <==> IsP95(raw, v)))
  {
    hide Pick, IsP95;
    var five, hour, raw := RowValues(r, m, 300, start, end), RowValues(r, m, 3600, start, end),
                           SampleValues(s, m, start, end + 1);
    PickSome(five);
    PickSome(hour);
    PickSome(raw);
    if five != [] { PickIsP95(five, v); }
    if hour != [] { PickIsP95(hour, v); }
    if raw != [] { PickIsP95(raw, v); }
  }

  lemma PickSome(xs: seq<real>)
    ensures Pick(xs) == None <==> xs == []
  {
  }

  // ----- the values of a window, counted without listing them

  ghost function RowsAtMost(r: Rollups, m: int, p: int, lo: int, hi: int, v: real): set<int> {
    set b | lo <= b < hi && (m, p, b) in r && r[(m, p, b)].vavg <= v
  }

  ghost function SamplesAtMost(s: Samples, m: int, lo: int, hi: int, v: real): set<int> {
    set t | lo <= t < hi && (m, t) in s && s[(m, t)] <= v
  }

  /** The listed averages are those of the rows of the window, each once. */
  lemma {:induction false} RowValuesMeaning(r: Rollups, m: int, p: int, lo: int, hi: int, v: real)
    ensures AtMost(RowValues(r, m, p, lo, hi), v) == |RowsAtMost(r, m, p, lo, hi, v)|
    decreases hi - lo
  {
    if hi <= lo {
      assert RowsAtMost(r, m, p, lo, hi, v) == {};
    } else {
      RowValuesMeaning(r, m, p, lo, hi - 1, v);
      var front, before := RowValues(r, m, p, lo, hi - 1), RowsAtMost(r, m, p, lo, hi - 1, v);
      if (m, p, hi - 1) in r {
        CountAppend(front, r[(m, p, hi - 1)].vavg, v);
        hide AtMost, RowValues;
        assert RowsAtMost(r, m, p, lo, hi, v) == before + if r[(m, p, hi - 1)].vavg <= v then {hi - 1} else {};
      } else {
        assert RowValues(r, m, p, lo, hi) == front;
        assert RowsAtMost(r, m, p, lo, hi, v) == before;
      }
    }
  }

  lemma {:induction false} SampleValuesMeaning(s: Samples, m: int, lo: int, hi: int, v: real)
    ensures AtMost(SampleValues(s, m, lo, hi), v) == |SamplesAtMost(s, m, lo, hi, v)|
    decreases hi - lo
  {
    if hi <= lo {
      assert SamplesAtMost(s, m, lo, hi, v) == {};
    } else {
      SampleValuesMeaning(s, m, lo, hi - 1, v);
      var front, before := SampleValues(s, m, lo, hi - 1), SamplesAtMost(s, m, lo, hi - 1, v);
      if (m, hi - 1) in s {
        CountAppend(front, s[(m, hi - 1)], v);
        hide AtMost, SampleValues;
        assert SamplesAtMost(s, m, lo, hi, v) == before + if s[(m, hi - 1)] <= v then {hi - 1} else {};
      } else {
        assert SampleValues(s, m, lo, hi) == front;
        assert SamplesAtMost(s, m, lo, hi, v) == before;
      }
    }
  }
}
