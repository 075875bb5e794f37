/**
  What the probe history of one check says about it.

  Everything here is read off the list of probe results. Nothing refers to the
  fail counter or to the tables that the check runner maintains.
 */
module CheckHistory {
  import opened Options

  /** One probe result. */
  datatype Probe = Probe(ts: int, ok: bool)

  /** A row of the outage table; `end` is NULL while the outage is open. */
  datatype Outage = Outage(check: int, start: int, end: Option<int>)

  datatype State = Unknown | Up | Down

  /** Probe times are positive and strictly increasing. */
  ghost predicate Increasing(h: seq<Probe>) {
    && (forall i :: 0 <= i < |h| ==> h[i].ts > 0)
    && (forall i, j :: 0 <= i < j < |h| ==> h[i].ts < h[j].ts)
  }

  /** `h[i..j]` is a maximal run of failed probes. */
  ghost predicate MaximalRun(h: seq<Probe>, i: int, j: int) {
    && 0 <= i < j <= |h|
    && (forall k :: i <= k < j ==> !h[k].ok)
    && (i == 0 || h[i - 1].ok)
    && (j == |h| || h[j].ok)
  }

  /** From the first failed probe of the run to the success after it, if there is one. */
  ghost function RunOutage(id: int, h: seq<Probe>, i: int, j: int): Outage
    requires 0 <= i < |h| && 0 <= j
  {
    Outage(id, h[i].ts, if j < |h| then Some(h[j].ts) else None)
  }

  /** `o` is the outage of the maximal failing run `h[i..j]`, which has at least `retries + 1` probes. */
  ghost predicate OutageOfRun(o: Outage, id: int, h: seq<Probe>, retries: int, i: int, j: int) {
    MaximalRun(h, i, j) && j - i > retries && o == RunOutage(id, h, i, j)
  }

  /** `o` is the outage of some maximal failing run of at least `retries + 1` probes. */
  ghost predicate IsOutage(o: Outage, id: int, h: seq<Probe>, retries: int) {
    exists i, j :: OutageOfRun(o, id, h, retries, i, j)
  }

  /** Number of failed probes since the last success. */
  ghost function Trailing(h: seq<Probe>): (f: nat)
    ensures f <= |h|
    ensures forall k :: |h| - f <= k < |h| ==> !h[k].ok
    ensures f < |h| ==> h[|h| - f - 1].ok
  {
    if h == [] || h[|h| - 1].ok then 0 else 1 + Trailing(h[..|h| - 1])
  }

  ghost predicate EverOk(h: seq<Probe>) {
    exists k :: 0 <= k < |h| && h[k].ok
  }

  ghost function StateOf(h: seq<Probe>, retries: int): State {
    if Trailing(h) > retries then Down else if EverOk(h) then Up else Unknown
  }

  /** The up state was entered at probe `k` and has lasted since. */
  ghost predicate UpSince(h: seq<Probe>, retries: int, k: int) {
    && 0 <= k < |h|
    && h[k].ok
    && StateOf(h[..k], retries) != Up
    && forall m :: k < m <= |h| ==> StateOf(h[..m], retries) == Up
  }

  // ----- effect of one more probe

  lemma TrailingAppend(h: seq<Probe>, p: Probe)
    ensures Trailing(h + [p]) == if p.ok then 0 else Trailing(h) + 1
  {
    assert (h + [p])[..|h|] == h;
  }

  lemma EverOkAppend(h: seq<Probe>, p: Probe)
    ensures EverOk(h + [p]) <==> EverOk(h) || p.ok
  {
    var g := h + [p];
    if EverOk(h) {
      var k :| 0 <= k < |h| && h[k].ok;
      assert g[k].ok;
    }
    if p.ok { assert g[|h|].ok; }
  }

  /** A run that ends at the end of the history is the trailing one. */
  lemma OpenRunIsTrailing(h: seq<Probe>, i: int)
    ensures MaximalRun(h, i, |h|) <==> Trailing(h) > 0 && i == |h| - Trailing(h)
  {
  }

  /** Runs that ended before the last probe do not see it. */
  lemma EndedRunAppend(h: seq<Probe>, p: Probe, i: int, j: int)
    requires j < |h| || (j == |h| && p.ok)
    ensures MaximalRun(h + [p], i, j) <==> MaximalRun(h, i, j)
  {
    var g := h + [p];
    assert forall k :: 0 <= k < |h| ==> g[k] == h[k];
    if MaximalRun(g, i, j) {
      assert forall k :: i <= k < j ==> !h[k].ok;
    }
  }

  /** Open outages: there is one iff more than `retries` probes failed since the last success. */
  lemma OpenOutage(o: Outage, id: int, h: seq<Probe>, retries: nat)
    ensures (IsOutage(o, id, h, retries) && o.end == None) <==>
            (Trailing(h) > retries && o == Outage(id, h[|h| - Trailing(h)].ts, None))
  {
    var i := |h| - Trailing(h);
    OpenRunIsTrailing(h, i);
    if Trailing(h) > retries && o == Outage(id, h[i].ts, None) {
      assert OutageOfRun(o, id, h, retries, i, |h|);
    }
    if IsOutage(o, id, h, retries) && o.end == None {
      var a, b :| OutageOfRun(o, id, h, retries, a, b);
      OpenRunIsTrailing(h, a);
    }
  }

  /** A closed outage after one more probe was closed before it, or the probe is the success that closed it. */
  lemma ClosedOutageBefore(o: Outage, id: int, h: seq<Probe>, p: Probe, retries: nat)
    requires o.end != None && IsOutage(o, id, h + [p], retries)
    ensures IsOutage(o, id, h, retries) ||
            (p.ok && Trailing(h) > retries && o == Outage(id, h[|h| - Trailing(h)].ts, Some(p.ts)))
  {
    hide Trailing;
    var a, b :| OutageOfRun(o, id, h + [p], retries, a, b);
    EndedRunAppend(h, p, a, b);
    if b < |h| {
      assert OutageOfRun(o, id, h, retries, a, b);
    } else {
      OpenRunIsTrailing(h, a);
    }
  }

  /** Closed outages are not touched by another probe, except that a success closes the open one. */
  lemma ClosedOutageAppend(o: Outage, id: int, h: seq<Probe>, p: Probe, retries: nat)
    requires o.end != None
    ensures IsOutage(o, id, h + [p], retries) <==>
            (IsOutage(o, id, h, retries) ||
             (p.ok && Trailing(h) > retries && o == Outage(id, h[|h| - Trailing(h)].ts, Some(p.ts))))
  {
    hide Trailing;
    var g, n, i := h + [p], |h|, |h| - Trailing(h);
    if IsOutage(o, id, g, retries) {
      ClosedOutageBefore(o, id, h, p, retries);
    }
    if IsOutage(o, id, h, retries) {
      var a, b :| OutageOfRun(o, id, h, retries, a, b);
      EndedRunAppend(h, p, a, b);
      assert OutageOfRun(o, id, g, retries, a, b);
    } else if p.ok && Trailing(h) > retries && o == Outage(id, h[i].ts, Some(p.ts)) {
      OpenRunIsTrailing(h, i);
      EndedRunAppend(h, p, i, n);
      assert OutageOfRun(o, id, g, retries, i, n);
    }
  }

  /** A success closes the open outage, if any, and changes nothing else. */
  lemma OutagesAfterSuccess(o: Outage, id: int, h: seq<Probe>, p: Probe, retries: nat)
    requires p.ok
    ensures IsOutage(o, id, h + [p], retries) <==>
            ((IsOutage(o, id, h, retries) && o.end != None) ||
             (Trailing(h) > retries && o == Outage(id, h[|h| - Trailing(h)].ts, Some(p.ts))))
  {
    TrailingAppend(h, p);
    OpenOutage(o, id, h + [p], retries);
    if o.end != None { ClosedOutageAppend(o, id, h, p, retries); }
  }

  /** A failure opens an outage, dated back to the run's first failure, once the run is long enough. */
  lemma OutagesAfterFailure(o: Outage, id: int, h: seq<Probe>, p: Probe, retries: nat)
    requires !p.ok
    ensures IsOutage(o, id, h + [p], retries) <==>
            (IsOutage(o, id, h, retries) ||
             (Trailing(h) >= retries && o == Outage(id, (h + [p])[|h| - Trailing(h)].ts, None)))
  {
    TrailingAppend(h, p);
    OpenOutage(o, id, h + [p], retries);
    OpenOutage(o, id, h, retries);
    if o.end != None { ClosedOutageAppend(o, id, h, p, retries); }
  }

  lemma PrefixAppend(h: seq<Probe>, p: Probe, m: int)
    requires 0 <= m <= |h|
    ensures (h + [p])[..m] == h[..m]
    ensures h[..|h|] == h && (h + [p])[..|h| + 1] == h + [p]
  {
  }

  /** The up spell survives a probe that leaves the state up, and a new one starts when the state becomes up. */
  lemma UpSinceAppend(h: seq<Probe>, p: Probe, retries: nat, k: int)
    requires StateOf(h + [p], retries) == Up
    requires StateOf(h, retries) == Up ==> UpSince(h, retries, k)
    requires StateOf(h, retries) != Up ==> k == |h|
    ensures UpSince(h + [p], retries, k)
  {
    hide Trailing, EverOk;
    var g := h + [p];
    TrailingAppend(h, p);
    EverOkAppend(h, p);
    PrefixAppend(h, p, if StateOf(h, retries) == Up then k else |h|);
    forall m | k < m <= |g| ensures StateOf(g[..m], retries) == Up {
      if m <= |h| { PrefixAppend(h, p, m); }
    }
  }
}
