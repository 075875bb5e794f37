/**
  Interval arithmetic of the SLA reports.

  An interval is half-open and its end points are integer clock ticks, so a list
  of intervals denotes a finite set of ticks and `total` can be compared with the
  cardinality of that set.
 */
module Intervals {
  import opened Arithmetic

  datatype Interval = Interval(lo: int, hi: int)

  /** The ticks of the window `[lo, hi)`; empty when `hi <= lo`. */
  ghost function Ticks(lo: int, hi: int): (r: set<int>)
    ensures forall t :: t in r <==> lo <= t < hi
    decreases hi - lo
  {
    if hi <= lo then {} else Ticks(lo, hi - 1) + {hi - 1}
  }

  /** The ticks denoted by a list of intervals. */
  ghost function Points(xs: seq<Interval>): set<int> {
    if xs == [] then {}
    else Points(xs[..|xs| - 1]) + Ticks(xs[|xs| - 1].lo, xs[|xs| - 1].hi)
  }

  /** Non-empty intervals in increasing order with a strict gap between neighbours. */
  ghost predicate Canonical(xs: seq<Interval>) {
    xs == [] ||
    (var front, last := xs[..|xs| - 1], xs[|xs| - 1];
     last.lo < last.hi && Canonical(front) && (front != [] ==> front[|front| - 1].hi < last.lo))
  }

  /** `total`: the summed lengths. */
  function Total(xs: seq<Interval>): int {
    if xs == [] then 0 else Total(xs[..|xs| - 1]) + (xs[|xs| - 1].hi - xs[|xs| - 1].lo)
  }

  // ----- what the recursive definitions mean

  /** A tick is denoted by a list iff one of its intervals contains it. */
  lemma {:induction false} PointsMeaning(xs: seq<Interval>, t: int)
    ensures t in Points(xs) <==> exists i :: 0 <= i < |xs| && xs[i].lo <= t < xs[i].hi
  {
    if xs == [] {
    } else {
      var front := xs[..|xs| - 1];
      PointsMeaning(front, t);
      assert forall i :: 0 <= i < |front| ==> front[i] == xs[i];
    }
  }

  lemma {:induction false} CanonicalMeaning(xs: seq<Interval>, i: nat, j: nat)
    requires Canonical(xs) && i <= j < |xs|
    ensures xs[i].lo < xs[i].hi
    ensures i < j ==> xs[i].hi < xs[j].lo
  {
    var front := xs[..|xs| - 1];
    if j < |front| {
      CanonicalMeaning(front, i, j);
    } else if i < j {
      CanonicalMeaning(front, i, |front| - 1);
      CanonicalMeaning(front, |front| - 1, |front| - 1);
    }
  }

  lemma NothingCovered(xs: seq<Interval>)
    ensures Canonical([]) && Points(xs[..0]) == Points([]) == {}
  {
  }

  lemma PointsAppend(xs: seq<Interval>, x: Interval)
    ensures Points(xs + [x]) == Points(xs) + Ticks(x.lo, x.hi)
    ensures Canonical(xs) && x.lo < x.hi && (xs != [] ==> xs[|xs| - 1].hi < x.lo) ==> Canonical(xs + [x])
  {
    assert (xs + [x])[..|xs|] == xs;
  }

  lemma PointsUpTo(xs: seq<Interval>, i: nat)
    requires i < |xs|
    ensures Points(xs[..i + 1]) == Points(xs[..i]) + Ticks(xs[i].lo, xs[i].hi)
  {
    assert xs[..i + 1] == xs[..i] + [xs[i]];
    PointsAppend(xs[..i], xs[i]);
  }

  /** The last interval of a gap-separated list lies strictly right of all other ticks. */
  lemma {:induction false} PointsBelowLast(xs: seq<Interval>, t: int)
    requires Canonical(xs) && xs != [] && t in Points(xs)
    ensures t < xs[|xs| - 1].hi
  {
    var front := xs[..|xs| - 1];
    if t in Points(front) {
      PointsBelowLast(front, t);
    }
  }

  // ----- measure

  lemma {:induction false} TicksSize(lo: int, hi: int)
    ensures |Ticks(lo, hi)| == if lo <= hi then hi - lo else 0
    decreases hi - lo
  {
    if hi <= lo {
    } else {
      TicksSize(lo, hi - 1);
      assert hi - 1 !in Ticks(lo, hi - 1);
    }
  }

  /** On a gap-separated list the summed lengths are the number of ticks covered. */
  lemma {:induction false} TotalIsMeasure(xs: seq<Interval>)
    requires Canonical(xs)
    ensures Total(xs) == |Points(xs)|
  {
    if xs == [] {
    } else {
      var front, last := xs[..|xs| - 1], xs[|xs| - 1];
      TotalIsMeasure(front);
      TicksSize(last.lo, last.hi);
      forall t | t in Points(front) ensures t < last.lo {
        PointsBelowLast(front, t);
      }
    }
  }

  // ----- canonical form

  /** The last interval can be read off the ticks: its top is the greatest one and a gap lies below it. */
  lemma LastFromPoints(xs: seq<Interval>, t: int)
    requires Canonical(xs) && xs != []
    ensures var last := xs[|xs| - 1];
            && last.hi - 1 in Points(xs) && last.lo - 1 !in Points(xs)
            && (t in Points(xs) ==> t < last.hi)
            && (last.lo <= t < last.hi ==> t in Points(xs))
  {
    var front, last := xs[..|xs| - 1], xs[|xs| - 1];
    if t in Points(xs) {
      PointsBelowLast(xs, t);
    }
    if last.lo - 1 in Points(front) {
      PointsBelowLast(front, last.lo - 1);
    }
  }

  lemma PointsOfFront(xs: seq<Interval>)
    requires Canonical(xs) && xs != []
    ensures Points(xs[..|xs| - 1]) == Points(xs) - Ticks(xs[|xs| - 1].lo, xs[|xs| - 1].hi)
  {
    var front := xs[..|xs| - 1];
    forall t | t in Points(front) ensures t < xs[|xs| - 1].lo {
      PointsBelowLast(front, t);
    }
  }

  /** Two gap-separated lists that denote the same ticks are the same list. */
  lemma {:induction false} CanonicalUnique(xs: seq<Interval>, ys: seq<Interval>)
    requires Canonical(xs) && Canonical(ys)
    requires Points(xs) == Points(ys)
    ensures xs == ys
    decreases |xs|
  {
    hide Ticks;
    if xs == [] {
      if ys != [] { LastFromPoints(ys, 0); }
    } else {
      LastFromPoints(xs, 0);
      assert ys != [];
      var x, y := xs[|xs| - 1], ys[|ys| - 1];
      LastFromPoints(ys, x.hi - 1);
      LastFromPoints(xs, y.hi - 1);
      LastFromPoints(ys, x.lo - 1);
      LastFromPoints(xs, y.lo - 1);
      PointsOfFront(xs);
      PointsOfFront(ys);
      CanonicalUnique(xs[..|xs| - 1], ys[..|ys| - 1]);
      assert xs == xs[..|xs| - 1] + [x] && ys == ys[..|ys| - 1] + [y];
    }
  }

  // ----- sorting

  /** The order of Python tuples: by start, then by end. */
  predicate Before(a: Interval, b: Interval) {
    a.lo < b.lo || (a.lo == b.lo && a.hi <= b.hi)
  }

  ghost predicate Ordered(xs: seq<Interval>) {
    xs == [] || (Ordered(xs[1..]) && forall y :: y in xs[1..] ==> Before(xs[0], y))
  }

  function Insert(x: Interval, xs: seq<Interval>): (r: seq<Interval>)
    requires Ordered(xs)
    ensures Ordered(r) && |r| == |xs| + 1
    ensures forall y :: y in r <==> y == x || y in xs
  {
    if xs == [] then [x]
    else if Before(x, xs[0]) then
      assert ([x] + xs)[1..] == xs && xs == [xs[0]] + xs[1..];
      [x] + xs
    else
      assert xs == [xs[0]] + xs[1..];
      [xs[0]] + Insert(x, xs[1..])
  }

  /** `sorted` restricted to the intervals that are not empty. */
  function SortedNonEmpty(xs: seq<Interval>): (r: seq<Interval>)
    ensures Ordered(r)
    ensures Points(r) == Points(xs)
    ensures forall x :: x in r <==> x in xs && x.lo < x.hi
  {
    if xs == [] then []
    else
      var rest := SortedNonEmpty(xs[1..]);
      assert xs == [xs[0]] + xs[1..];
      var r := if xs[0].lo < xs[0].hi then Insert(xs[0], rest) else rest;
      assert Points(r) == Points(xs) by { SameNonEmptySamePoints(xs, r); }
      r
  }

  lemma SameNonEmptySamePoints(xs: seq<Interval>, ys: seq<Interval>)
    requires forall x :: x in ys <==> x in xs && x.lo < x.hi
    ensures Points(xs) == Points(ys)
  {
    forall t ensures t in Points(xs) <==> t in Points(ys) {
      PointsMeaning(xs, t);
      PointsMeaning(ys, t);
      if t in Points(xs) {
        var i :| 0 <= i < |xs| && xs[i].lo <= t < xs[i].hi;
        assert xs[i] in ys;
      }
      if t in Points(ys) {
        var i :| 0 <= i < |ys| && ys[i].lo <= t < ys[i].hi;
        assert ys[i] in xs;
      }
    }
  }

  // ----- merge, clip, subtract

  /** `out` is what `merge` must return for `xs`. */
  ghost predicate IsMerge(out: seq<Interval>, xs: seq<Interval>) {
    Canonical(out) && Points(out) == Points(xs)
  }

  /** Stretching the last interval of a gap-separated list to the right. */
  lemma ExtendLast(out: seq<Interval>, s: int, e: int)
    requires Canonical(out) && out != [] && s < e
    requires out[|out| - 1].lo <= s <= out[|out| - 1].hi
    ensures var last := out[|out| - 1];
            var wider := out[|out| - 1 := Interval(last.lo, Max(last.hi, e))];
            Canonical(wider) && Points(wider) == Points(out) + Ticks(s, e)
  {
    var front, last := out[..|out| - 1], out[|out| - 1];
    var wider := out[|out| - 1 := Interval(last.lo, Max(last.hi, e))];
    assert wider[..|out| - 1] == front;
    assert Ticks(last.lo, Max(last.hi, e)) == Ticks(last.lo, last.hi) + Ticks(s, e);
  }

  lemma {:induction false} OrderedMeaning(xs: seq<Interval>, i: nat, j: nat)
    requires Ordered(xs) && i < j < |xs|
    ensures xs[i].lo <= xs[j].lo
  {
    if i > 0 {
      OrderedMeaning(xs[1..], i - 1, j - 1);
    } else {
      assert xs[j] in xs[1..];
    }
  }

  /** `merge`: sorts, then either extends the last interval in place or appends. */
  method Merge(intervals: seq<Interval>) returns (out: seq<Interval>)
    ensures IsMerge(out, intervals)
  {
    hide Canonical, Points, Ticks;
    var sorted := SortedNonEmpty(intervals);
    out := [];
    NothingCovered(sorted);
    var i := 0;
    while i < |sorted|
      invariant 0 <= i <= |sorted|
      invariant IsMerge(out, sorted[..i])
      invariant out != [] && i < |sorted| ==> out[|out| - 1].lo <= sorted[i].lo
    {
      var s, e := sorted[i].lo, sorted[i].hi;
      assert sorted[i] in sorted;
      PointsUpTo(sorted, i);
      if out != [] && s <= out[|out| - 1].hi {
        ExtendLast(out, s, e);
        out := out[|out| - 1 := Interval(out[|out| - 1].lo, Max(out[|out| - 1].hi, e))];
      } else {
        PointsAppend(out, Interval(s, e));
        out := out + [Interval(s, e)];
      }
      if i + 1 < |sorted| { OrderedMeaning(sorted, i, i + 1); }
      i := i + 1;
    }
    assert sorted[..i] == sorted;
  }

  /** Two interval lists cover the same instants iff their merges are equal. */
  lemma MergeIsCanonicalForm(xs: seq<Interval>, ys: seq<Interval>, mx: seq<Interval>, my: seq<Interval>)
    requires IsMerge(mx, xs) && IsMerge(my, ys)
    ensures mx == my <==> Points(xs) == Points(ys)
  {
    if Points(xs) == Points(ys) {
      CanonicalUnique(mx, my);
    }
  }

  /** Merging again changes nothing, and the order and repetition of the input do not matter. */
  lemma MergeIdempotentAndOrderFree(xs: seq<Interval>, ys: seq<Interval>,
                                    mx: seq<Interval>, mmx: seq<Interval>, my: seq<Interval>)
    requires IsMerge(mx, xs) && IsMerge(mmx, mx) && IsMerge(my, ys)
    requires forall x :: x in xs <==> x in ys
    ensures mmx == mx == my
  {
    CanonicalUnique(mmx, mx);
    SameNonEmptySamePoints(xs, SortedNonEmpty(xs));
    SameNonEmptySamePoints(ys, SortedNonEmpty(xs));
    CanonicalUnique(mx, my);
  }

  /** `clip`: restricts a list to the window `[start, end)`. */
  function Clip(xs: seq<Interval>, start: int, end: int): (r: seq<Interval>)
    ensures Points(r) == Points(xs) * Ticks(start, end)
  {
    if xs == [] then []
    else
      var x := xs[|xs| - 1];
      var front := Clip(xs[..|xs| - 1], start, end);
      if x.hi > start && x.lo < end then
        var y := Interval(Max(x.lo, start), Min(x.hi, end));
        PointsAppend(front, y);
        front + [y]
      else front
  }

  /** Everything before the cursor has been cut; `result` stays strictly left of it. */
  ghost predicate CutUpTo(result: seq<Interval>, done: set<int>, cur: int) {
    && Canonical(result)
    && (result != [] ==> result[|result| - 1].hi < cur)
    && Points(result) == done
  }

  /** Ticks of `[cur, upTo)` when every interval of the gap-separated `cuts` ends before or starts after it. */
  lemma FreeOfCuts(cuts: seq<Interval>, j: nat, cur: int, upTo: int)
    requires Canonical(cuts) && j <= |cuts|
    requires forall k :: 0 <= k < j ==> cuts[k].hi <= cur || cuts[k].lo >= upTo
    requires j < |cuts| ==> cuts[j].lo >= upTo
    ensures Ticks(cur, upTo) !! Points(cuts)
  {
    forall t | cur <= t < upTo ensures t !in Points(cuts) {
      PointsMeaning(cuts, t);
      forall k | j < k < |cuts| ensures cuts[k].lo >= upTo {
        CanonicalMeaning(cuts, j, k);
        CanonicalMeaning(cuts, j, j);
      }
    }
  }

  lemma KeepDisjoint(a: set<int>, b: set<int>, cut: set<int>)
    requires b !! cut
    ensures (a + b) - cut == (a - cut) + b
  {
  }

  /** Emitting the free piece `[cur, upTo)` moves the cut line to `upTo`. */
  lemma EmitPiece(result: seq<Interval>, before: set<int>, s: int, cur: int, upTo: int, cuts: seq<Interval>, j: nat)
    requires CutUpTo(result, (before + Ticks(s, cur)) - Points(cuts), cur)
    requires s <= cur < upTo
    requires Canonical(cuts) && j <= |cuts|
    requires forall k :: 0 <= k < j ==> cuts[k].hi <= cur || cuts[k].lo >= upTo
    requires j < |cuts| ==> cuts[j].lo >= upTo
    ensures CutUpTo(result + [Interval(cur, upTo)], (before + Ticks(s, upTo)) - Points(cuts), upTo + 1)
  {
    hide Canonical, Points, Ticks;
    FreeOfCuts(cuts, j, cur, upTo);
    PointsAppend(result, Interval(cur, upTo));
    KeepDisjoint(before + Ticks(s, cur), Ticks(cur, upTo), Points(cuts));
    assert before + Ticks(s, upTo) == (before + Ticks(s, cur)) + Ticks(cur, upTo);
  }

  /** Moving the cursor over the cut `cuts[j]` adds nothing to the result. */
  lemma SkipCut(result: seq<Interval>, before: set<int>, s: int, cur: int, next: int, cuts: seq<Interval>, j: nat)
    requires j < |cuts| && s <= cur <= next && cuts[j].lo <= cur && next <= cuts[j].hi
    ensures (before + Ticks(s, cur)) - Points(cuts) == (before + Ticks(s, next)) - Points(cuts)
  {
    forall t | cur <= t < next ensures t in Points(cuts) {
      PointsMeaning(cuts, t);
    }
  }

  /** The inner loop of `subtract`: cuts `[s, e)` by every interval of `cuts`. */
  method CutOne(kept: seq<Interval>, s: int, e: int, cuts: seq<Interval>, ghost before: set<int>)
    returns (result: seq<Interval>)
    requires s < e && Canonical(cuts)
    requires CutUpTo(kept, before - Points(cuts), s)
    ensures CutUpTo(result, (before + Ticks(s, e)) - Points(cuts), e + 1)
  {
    hide Canonical, Points, Ticks;
    result := kept;
    var cur := s;
    assert before + Ticks(s, s) == before;
    var j := 0;
    while j < |cuts|
      invariant 0 <= j <= |cuts|
      invariant s <= cur < e
      invariant CutUpTo(result, (before + Ticks(s, cur)) - Points(cuts), cur)
      invariant forall k :: 0 <= k < j ==> cuts[k].hi <= cur || cuts[k].lo >= e
    {
      var bs, be := cuts[j].lo, cuts[j].hi;
      CanonicalMeaning(cuts, j, j);
      if be <= cur || bs >= e {
        j := j + 1;
        continue;
      }
      if bs > cur {
        EmitPiece(result, before, s, cur, bs, cuts, j);
        result := result + [Interval(cur, bs)];
        SkipCut(result, before, s, bs, Min(be, e), cuts, j);
      } else {
        SkipCut(result, before, s, cur, Min(be, e), cuts, j);
      }
      cur := Max(cur, be);
      if cur >= e {
        return;
      }
      j := j + 1;
    }
    EmitPiece(result, before, s, cur, e, cuts, |cuts|);
    result := result + [Interval(cur, e)];
  }

  /** `subtract`: removes every interval of `b` from the merged intervals of `a`. */
  method Subtract(a: seq<Interval>, b: seq<Interval>) returns (result: seq<Interval>)
    ensures Canonical(result)
    ensures Points(result) == Points(a) - Points(b)
    ensures Total(result) == |Points(a)| - |Points(a) * Points(b)|
  {
    hide Canonical, Points, Ticks, Total;
    result := [];
    var cuts := Merge(b);
    var from := Merge(a);
    NothingCovered(from);
    var i := 0;
    while i < |from|
      invariant 0 <= i <= |from|
      invariant Canonical(result) && Points(result) == Points(from[..i]) - Points(cuts)
      invariant result != [] && i < |from| ==> result[|result| - 1].hi < from[i].lo
    {
      CanonicalMeaning(from, i, i);
      PointsUpTo(from, i);
      result := CutOne(result, from[i].lo, from[i].hi, cuts, Points(from[..i]));
      if i + 1 < |from| { CanonicalMeaning(from, i, i + 1); }
      i := i + 1;
    }
    assert from[..i] == from;
    TotalIsMeasure(result);
    assert Points(a) - Points(b) == Points(a) - Points(a) * Points(b);
  }
}
