/**
  Rates from polled SNMP counters: wraparound, missing reads, cached reads, restarts.

  A counter metric keeps the last raw reading and its time. Ghost fields follow the
  true, never wrapping count of the agent; `Valid` says that no traffic is lost or
  invented between the readings.
 */
module CounterRates {
  import opened Arithmetic
  import opened Options

  const COUNTER32_MAX := 0x1_0000_0000
  const COUNTER64_MAX := 0x1_0000_0000_0000_0000
  const MIN_RATE_WINDOW := 15.0

  datatype Kind = Gauge | Counter | Ratio | RatioFree | Other

  /** `counter_delta`: None when the counter seems to have been reset. */
  function CounterDelta(prev: real, cur: real, bits: int): Option<real> {
    if cur >= prev then Some(cur - prev)
    else if bits == 32 && prev < COUNTER32_MAX as real &&
            COUNTER32_MAX as real - prev + cur < COUNTER32_MAX as real / 2.0 then
      Some(COUNTER32_MAX as real - prev + cur)
    else if bits == 64 && prev < COUNTER64_MAX as real &&
            COUNTER64_MAX as real - prev + cur < COUNTER64_MAX as real / 2.0 then
      Some(COUNTER64_MAX as real - prev + cur)
    else None
  }

  function Range(bits: int): int {
    if bits == 32 then COUNTER32_MAX else COUNTER64_MAX
  }

  /** What an agent reports for a true count. */
  function Reported(count: nat, bits: int): real {
    (count % Range(bits)) as real
  }

  lemma ReportedAdvance(count: nat, d: nat, bits: int)
    requires d < Range(bits)
    ensures var m, a := Range(bits), count % Range(bits);
            (count + d) % m == if a + d < m then a + d else a + d - m
  {
    var m := Range(bits);
    var q, a := count / m, count % m;
    assert count == q * m + a;
    if a + d < m {
      Quotient(count + d, q, a + d, m);
    } else {
      assert (q + 1) * m == q * m + m;
      Quotient(count + d, q + 1, a + d - m, m);
    }
  }

  /** What the wraparound rule needs of the true count and its increment. */
  predicate Recoverable(count: nat, d: nat, bits: int) {
    d < Range(bits) && (count % Range(bits) + d < Range(bits) || 2 * d < Range(bits))
  }

  /**
    The true increment is recovered exactly when it is smaller than the counter range and the counter
    either did not wrap or moved by less than half its range.
   */
  lemma DeltaIsIncrement(count: nat, d: nat, bits: int)
    requires bits == 32 || bits == 64
    ensures CounterDelta(Reported(count, bits), Reported(count + d, bits), bits) == Some(d as real) <==>
            Recoverable(count, d, bits)
  {
    if d < Range(bits) {
      ReportedAdvance(count, d, bits);
    } else {
      var m := Range(bits);
      var a, c := count % m, (count + d) % m;
      assert 0 <= a < m && 0 <= c < m;
    }
  }

  /** A counter that moved too far: once it is taken for reset, once for standing still. */
  lemma IncrementLost()
    ensures CounterDelta(Reported(3000000000, 32), Reported(3000000000 + 2500000000, 32), 32) == None
    ensures CounterDelta(Reported(5, 32), Reported(5 + COUNTER32_MAX, 32), 32) == Some(0.0)
  {
    Quotient(5 + COUNTER32_MAX, 1, 5, COUNTER32_MAX);
    Quotient(3000000000 + 2500000000, 1, 1205032704, COUNTER32_MAX);
  }

  /** `compute_value` for a metric of any kind: the value, and the raw reading to keep as baseline. */
  function ComputeValue(kind: Kind, scale0: real, bits: int, lastRaw: Option<real>, lastRawTs: Option<real>,
                        raw: Option<real>, raw2: Option<real>, now: real, rebooted: bool): (Option<real>, Option<real>) {
    var scale := ScaleOf(scale0);
    match kind
    case Gauge => (if raw.None? then None else Some(raw.value * scale), raw)
    case Counter =>
      if raw.None? then (None, None)
      else if lastRaw.None? || lastRawTs.None? || rebooted then (None, raw)
      else
        var dt := now - lastRawTs.value;
        if dt <= 0.0 then (None, raw)
        else
          var delta := CounterDelta(lastRaw.value, raw.value, bits);
          if delta.None? then (None, raw)
          else if delta.value == 0.0 && dt < MIN_RATE_WINDOW then (None, None)
          else (Some(delta.value / dt * scale), raw)
    case Ratio => (RatioValue(raw, raw2, false), raw)
    case RatioFree => (RatioValue(raw, raw2, true), raw)
    case Other => (None, raw)
  }

  /** What a computed rate carries over the time it stands for. */
  function Carries(value: Option<real>, dt: real): real {
    if value.None? then 0.0 else value.value * dt
  }

  lemma CarriesMeaning(value: Option<real>, dt: real)
    ensures Carries(value, dt) == if value.Some? then value.value * dt else 0.0
  {
  }

  /** A number of counts in the unit of the metric, times seconds. */
  function Units(scale: real, counts: int): real {
    ScaleOf(scale) * counts as real
  }

  /** Counts times the scale; a scale of zero is none. */
  lemma UnitsMeaning(scale: real, counts: int)
    ensures scale != 0.0 ==> Units(scale, counts) == scale * counts as real
    ensures scale == 0.0 ==> Units(scale, counts) == counts as real
  {
  }

  lemma UnitsAdd(scale: real, a: int, b: int)
    ensures Units(scale, a + b) == Units(scale, a) + Units(scale, b)
  {
  }

  /**
    One counter reading on a running device: the value times the elapsed time is the scaled increment, or
    the reading repeats the last one within the rate window and the baseline is held.
   */
  lemma CounterStep(scale: real, bits: int, last: nat, lastTs: real, count: nat, now: real)
    requires (bits == 32 || bits == 64) && lastTs < now
    requires last <= count && Recoverable(last, count - last, bits)
    ensures var raw := Some(Reported(count, bits));
            var r := ComputeValue(Counter, scale, bits, Some(Reported(last, bits)), Some(lastTs), raw, None, now, false);
            var repeated := count == last && now - lastTs < MIN_RATE_WINDOW;
            || (!repeated && r.0.Some? && r.1 == raw && Carries(r.0, now - lastTs) == Units(scale, count - last))
            || (repeated && r.0.None? && r.1.None?)
  {
    var d := count - last;
    var prev, cur := Reported(last, bits), Reported(count, bits);
    assert CounterDelta(prev, cur, bits) == Some(d as real) by { DeltaIsIncrement(last, d, bits); }
    hide CounterDelta, Reported, Recoverable, ScaleOf;
    RateTimesTime(d as real, now - lastTs, ScaleOf(scale));
  }

  /** A missing reading changes nothing; a first one, or one after a restart or a clock step back, sets the baseline. */
  lemma WithoutBaseline(scale: real, bits: int, lastRaw: Option<real>, lastRawTs: Option<real>,
                        reading: Option<real>, now: real, rebooted: bool)
    requires lastRaw.Some? <==> lastRawTs.Some?
    ensures var r := ComputeValue(Counter, scale, bits, lastRaw, lastRawTs, reading, None, now, rebooted);
            reading.None? || lastRaw.None? || rebooted || now <= lastRawTs.value ==> r.0.None? && r.1 == reading
  {
  }

  /** `metric["scale"] or 1.0`. */
  function ScaleOf(scale: real): real { if scale == 0.0 then 1.0 else scale }

  /** A percentage, clamped; None without a numerator or a non-zero denominator. */
  function RatioValue(raw: Option<real>, raw2: Option<real>, free: bool): (r: Option<real>)
    ensures r.Some? <==> raw.Some? && raw2.Some? && raw2.value != 0.0
    ensures r.Some? ==> 0.0 <= r.value <= 100.0
  {
    if raw.None? || raw2.None? || raw2.value == 0.0 then None
    else
      var q := raw.value / raw2.value;
      var p := (if free then 1.0 - q else q) * 100.0;
      Some(if p < 0.0 then 0.0 else if p > 100.0 then 100.0 else p)
  }

  /** Unclamped between the extremes; the used and the free share always make a whole. */
  lemma RatioMeaning(num: real, den: real)
    requires den != 0.0
    ensures var used, free := RatioValue(Some(num), Some(den), false), RatioValue(Some(num), Some(den), true);
            && used.value + free.value == 100.0
            && (0.0 <= num <= den ==> used.value * den == 100.0 * num)
            && (num < 0.0 < den ==> used.value == 0.0)
            && (0.0 < den < num ==> used.value == 100.0)
  {
    var q := num / den;
    assert q * den == num;
    assert 0.0 <= num <= den ==> 0.0 <= q <= 1.0;
    assert num < 0.0 < den ==> q < 0.0;
    assert 0.0 < den < num ==> q > 1.0;
  }

  /** An interface rate above twice the known line rate. */
  predicate Spike(rate: Option<real>, speed: Option<real>) {
    rate.Some? && speed.Some? && speed.value != 0.0 && rate.value > speed.value * 2.0
  }

  /** The restart test on sysUpTime, in seconds. */
  predicate Rebooted(uptime: Option<real>, prevUptime: Option<real>, polledBefore: bool) {
    && uptime.Some? && prevUptime.Some? && polledBefore
    && uptime.value + 60.0 < prevUptime.value && prevUptime.value < 42900000.0
  }

  /** sysUpTime as an agent that has been up for `ticks` hundredths of a second reports it. */
  function Uptime(ticks: nat): Option<real> {
    Some(Reported(ticks, 32) / 100.0)
  }

  /** The restart test on any two readings: the clock fell by more than a minute, not from its last part. */
  lemma RestartSeen(before: nat, after: nat)
    requires before < COUNTER32_MAX && after < COUNTER32_MAX
    ensures Rebooted(Uptime(after), Uptime(before), true) <==> after + 6000 < before < 4290000000
    ensures !Rebooted(Uptime(after), Uptime(before), false)
    ensures !Rebooted(None, Uptime(before), true) && !Rebooted(Uptime(after), None, true)
  {
  }

  /**
    A device that kept running between two polls, `gap` ticks apart, is taken for a restart exactly when
    its TimeTicks wrapped, the earlier reading was outside the guarded last part of the range, and the
    polls were less than a whole range minus a minute apart. Polls at most 4967296 ticks (13.8 hours)
    apart are never misread.
   */
  lemma WrapIsNotRestart(ticks: nat, gap: nat)
    requires gap < COUNTER32_MAX
    ensures Rebooted(Uptime(ticks + gap), Uptime(ticks), true) <==>
            ticks % COUNTER32_MAX + gap >= COUNTER32_MAX && ticks % COUNTER32_MAX < 4290000000 && gap + 6000 < COUNTER32_MAX
    ensures gap <= 4967296 ==> !Rebooted(Uptime(ticks + gap), Uptime(ticks), true)
  {
    ReportedAdvance(ticks, gap, 32);
  }

  /** Polled 16.7 hours apart around the wrap of its TimeTicks, a running device is taken for restarted. */
  lemma WrapTakenForRestart()
    ensures Rebooted(Uptime(4289000000 + 6000000), Uptime(4289000000), true)
  {
    WrapIsNotRestart(4289000000, 6000000);
  }

  /**
    What really happened on the device: the true count at the first and the last reading, the counts
    made between usable readings, and whether a restart or a clock step back left a gap between two of them.
   */
  datatype Truth = Truth(first: nat, last: nat, counted: nat, gap: bool)

  ghost function Observed(t: Truth, baseline: bool, count: Option<nat>, cut: bool): Truth
    requires count.Some? && baseline && !cut ==> t.last <= count.value
  {
    if count.None? then t
    else if !baseline then Truth(count.value, count.value, 0, false)
    else if cut then Truth(t.first, count.value, t.counted, true)
    else Truth(t.first, count.value, t.counted + (count.value - t.last), t.gap)
  }

  class Metric {
    const scale: real
    const bits: int
    var lastRaw: Option<real>
    var lastRawTs: Option<real>
    var lastValue: Option<real>
    var lastTs: Option<real>

    ghost var truth: Truth
    /** Sum of value * (time - baseline time) over all computed values. */
    ghost var carried: real

    /** Conservation: what the rates carry is what was counted, in units of the metric. */
    ghost predicate Valid()
      reads this
    {
      && (bits == 32 || bits == 64)
      && (lastRaw.Some? <==> lastRawTs.Some?)
      && (lastRaw.Some? ==> lastRaw.value == Reported(truth.last, bits))
      && carried == Units(scale, truth.counted)
      && (lastRaw.None? ==> truth.counted == 0 && !truth.gap)
      && (lastRaw.Some? && !truth.gap ==> truth.first <= truth.last && truth.counted == truth.last - truth.first)
    }

    constructor (scale: real, bits: int)
      requires bits == 32 || bits == 64
      ensures Valid() && lastRaw == None && lastRawTs == None && this.scale == scale && this.bits == bits
    {
      this.scale, this.bits := scale, bits;
      lastRaw, lastRawTs, lastValue, lastTs := None, None, None, None;
      truth, carried := Truth(0, 0, 0, false), 0.0;
    }

    /** No rate can span this poll. */
    ghost predicate Cut(now: real, rebooted: bool)
      reads this
    {
      rebooted || (lastRawTs.Some? && now <= lastRawTs.value)
    }

    /** An unchanged reading soon after the last one: the agent may have answered from its cache. */
    ghost predicate Repeated(count: Option<nat>, now: real)
      requires lastRaw.Some? <==> lastRawTs.Some?
      reads this
    {
      count.Some? && lastRaw.Some? && count.value == truth.last && now - lastRawTs.value < MIN_RATE_WINDOW
    }

    /** Keep a computed value, unless it is an impossible interface rate. */
    method Store(computed: Option<real>, now: real, speed: Option<real>) returns (stored: Option<real>)
      modifies `lastValue, `lastTs
      ensures stored == if computed.Some? && speed.Some? && speed.value != 0.0 && computed.value > 2.0 * speed.value
                        then None else computed
      ensures lastValue == if stored.Some? then stored else old(lastValue)
      ensures lastTs == if stored.Some? then Some(now) else old(lastTs)
    {
      stored := computed;
      if Spike(computed, speed) {
        stored := None;
      }
      if stored.Some? {
        lastValue, lastTs := stored, Some(now);
      }
    }

    /**
      One poll of a counter metric. `count` is the true count behind the reading, None when the
      read is missing. `speed` is the line rate when the metric is an interface rate.
     */
    method Poll(reading: Option<real>, ghost count: Option<nat>, now: real, rebooted: bool, speed: Option<real>)
      returns (computed: Option<real>, stored: Option<real>)
      requires Valid()
      requires reading == if count.None? then None else Some(Reported(count.value, bits))
      requires count.Some? && lastRaw.Some? && !Cut(now, rebooted) ==>
                 truth.last <= count.value && Recoverable(truth.last, count.value - truth.last, bits)
      modifies this
      ensures Valid()
      ensures truth == Observed(old(truth), old(lastRaw).Some?, count, old(Cut(now, rebooted)))
      ensures computed.Some? <==> count.Some? && old(lastRaw).Some? && !old(Cut(now, rebooted)) && !old(Repeated(count, now))
      ensures carried == old(carried) + if computed.Some? then Carries(computed, now - old(lastRawTs).value) else 0.0
      ensures computed.Some? ==> Carries(computed, now - old(lastRawTs).value) == Units(scale, count.value - old(truth).last)
      ensures if count.None? || (!old(Cut(now, rebooted)) && old(Repeated(count, now)))
              then lastRaw == old(lastRaw) && lastRawTs == old(lastRawTs)
              else lastRaw == reading && lastRawTs == Some(now)
      ensures stored == if computed.Some? && speed.Some? && speed.value != 0.0 && computed.value > 2.0 * speed.value
                        then None else computed
      ensures lastValue == if stored.Some? then stored else old(lastValue)
      ensures lastTs == if stored.Some? then Some(now) else old(lastTs)
    {
      var result := ComputeValue(Counter, scale, bits, lastRaw, lastRawTs, reading, None, now, rebooted);
      if count.Some? && lastRaw.Some? && !Cut(now, rebooted) {
        CounterStep(scale, bits, truth.last, lastRawTs.value, count.value, now);
        UnitsAdd(scale, truth.counted, count.value - truth.last);
      }
      WithoutBaseline(scale, bits, lastRaw, lastRawTs, reading, now, rebooted);
      hide ComputeValue, Reported, Recoverable, Units, Carries, Spike;
      computed := result.0;
      truth := Observed(truth, lastRaw.Some?, count, Cut(now, rebooted));
      carried := carried + if computed.Some? then Carries(computed, now - lastRawTs.value) else 0.0;
      if result.1.Some? {
        lastRaw, lastRawTs := result.1, Some(now);
      }
      stored := Store(computed, now, speed);
    }
  }

  /** As long as no restart or clock step lost sight of the counter, the rates carry all that was counted, to scale. */
  lemma Conserved(metric: Metric)
    requires metric.Valid() && metric.lastRaw.Some? && !metric.truth.gap
    ensures metric.scale != 0.0 ==> metric.carried == metric.scale * (metric.truth.last - metric.truth.first) as real
    ensures metric.scale == 0.0 ==> metric.carried == (metric.truth.last - metric.truth.first) as real
  {
    hide Reported;
  }

  /** A rate stands for the scaled counts between its two readings, spread over the time between them. */
  lemma RateMeaning(value: real, dt: real, scale: real, counts: int)
    requires dt > 0.0 && Carries(Some(value), dt) == Units(scale, counts)
    ensures scale != 0.0 ==> value == scale * counts as real / dt
    ensures scale == 0.0 ==> value == counts as real / dt
  {
    var x := value * dt;
    assert x / dt == value;
  }

  /** A gauge is its reading, scaled. */
  lemma GaugeMeaning(scale: real, bits: int, lastRaw: Option<real>, lastRawTs: Option<real>, num: real,
                     now: real, rebooted: bool)
    ensures ComputeValue(Gauge, scale, bits, lastRaw, lastRawTs, None, None, now, rebooted) == (None, None)
    ensures var r := ComputeValue(Gauge, scale, bits, lastRaw, lastRawTs, Some(num), None, now, rebooted);
            && r.1 == Some(num) && r.0.Some?
            && (scale != 0.0 ==> r.0.value == num * scale)
            && (scale == 0.0 ==> r.0.value == num)
  {
  }

  /** Ratios are percentages of the denominator; every kind keeps the raw reading. */
  lemma OtherKinds(scale: real, bits: int, lastRaw: Option<real>, lastRawTs: Option<real>, num: real, den: real,
                   now: real, rebooted: bool)
    ensures ComputeValue(Other, scale, bits, lastRaw, lastRawTs, Some(num), None, now, rebooted) == (None, Some(num))
    ensures var r := ComputeValue(Ratio, scale, bits, lastRaw, lastRawTs, Some(num), Some(den), now, rebooted);
            && r.1 == Some(num) && (r.0.Some? <==> den != 0.0)
            && (0.0 <= num <= den && den != 0.0 ==> r.0.value * den == 100.0 * num)
    ensures var r := ComputeValue(RatioFree, scale, bits, lastRaw, lastRawTs, Some(num), Some(den), now, rebooted);
            && r.1 == Some(num) && (r.0.Some? <==> den != 0.0)
            && (0.0 <= num <= den && den != 0.0 ==> r.0.value * den == 100.0 * (den - num))
    ensures ComputeValue(Ratio, scale, bits, lastRaw, lastRawTs, Some(num), None, now, rebooted).0 == None
    ensures ComputeValue(Ratio, scale, bits, lastRaw, lastRawTs, None, Some(den), now, rebooted).0 == None
  {
    if den != 0.0 {
      RatioMeaning(num, den);
      FreeShare(num, den);
    }
    hide RatioValue, ScaleOf;
  }

  lemma FreeShare(num: real, den: real)
    requires den != 0.0
    ensures 0.0 <= num <= den ==> RatioValue(Some(num), Some(den), true).value * den == 100.0 * (den - num)
  {
    var q := num / den;
    assert q * den == num;
    assert 0.0 <= num <= den ==> 0.0 <= q <= 1.0;
    assert (1.0 - q) * 100.0 * den == 100.0 * (den - q * den);
  }

  lemma RateTimesTime(delta: real, dt: real, scale: real)
    requires dt > 0.0
    ensures delta / dt * scale * dt == scale * delta
  {
    var q := delta / dt;
    assert q * dt == delta;
    assert q * scale * dt == scale * (q * dt);
  }
}
