/**
  The check runner: stores a probe result and advances the check's state machine.

  `Database` holds the tables `checks`, `heartbeats`, `outages` and the up/down
  events of all checks. Its ghost field `history` is the list of probe results
  recorded for each check, and `Valid` says that the tables are exactly what
  that history means (module CheckHistory).
 */
module CheckRunner {
  import opened Aggregates
  import opened CheckHistory
  import opened Options

  datatype Check = Check(id: int, device: Option<int>, retries: nat, state: State, stateSince: Option<int>,
                         failCount: nat, lastChecked: Option<int>)

  datatype Transition = NoTransition | FirstUp | WentUp | WentDown

  datatype Event = Event(check: int, wentDown: bool, ts: int)

  // ----- the SQL aggregates that record_result uses

  type Heartbeats = map<(int, int), bool>

  function OkTimes(hb: Heartbeats, id: int): set<int> {
    set k | k in hb.Keys && k.0 == id && hb[k] :: k.1
  }

  function FailTimesAfter(hb: Heartbeats, id: int, after: int): set<int> {
    set k | k in hb.Keys && k.0 == id && !hb[k] && k.1 > after :: k.1
  }

  /** The last successful heartbeat; 0 when there is none. */
  function LastOk(hb: Heartbeats, id: int): int {
    var oks := OkTimes(hb, id);
    if oks == {} then 0 else MaxOf(oks)
  }

  /** The first failed heartbeat after the last successful one; `now` when there is none. */
  function FirstFail(hb: Heartbeats, id: int, now: int): int {
    var fails := FailTimesAfter(hb, id, LastOk(hb, id));
    if fails == {} || MinOf(fails) == 0 then now else MinOf(fails)
  }

  /** Index of an open outage row of the check. */
  function OpenRow(outages: seq<Outage>, id: int): (r: Option<nat>)
    ensures r.Some? ==> r.value < |outages| && outages[r.value].check == id && outages[r.value].end == None
    ensures r.None? ==> forall k :: 0 <= k < |outages| && outages[k].check == id ==> outages[k].end != None
  {
    if outages == [] then None
    else
      var n := |outages| - 1;
      if outages[n].check == id && outages[n].end == None then Some(n) else OpenRow(outages[..n], id)
  }

  // ----- what the tables must say

  /** The heartbeats of a check are its probe results. */
  ghost predicate Beats(hb: Heartbeats, id: int, h: seq<Probe>) {
    && (forall t :: (id, t) in hb ==> exists k :: 0 <= k < |h| && h[k].ts == t)
    && (forall k :: 0 <= k < |h| ==> (id, h[k].ts) in hb && hb[(id, h[k].ts)] == h[k].ok)
  }

  /** Fail counter, state and start of the state. */
  ghost predicate RowReflects(c: Check, h: seq<Probe>) {
    && c.failCount == Trailing(h)
    && c.state == StateOf(h, c.retries)
    && (c.state == Unknown ==> c.stateSince == None)
    && (c.state == Down ==> c.stateSince == Some(h[|h| - Trailing(h)].ts))
    && (c.state == Up ==> exists k :: UpSince(h, c.retries, k) && c.stateSince == Some(h[k].ts))
    && c.lastChecked == if h == [] then None else Some(h[|h| - 1].ts)
  }

  /** The rows of a check are exactly the outages of its history. */
  ghost predicate RowsMatch(outages: seq<Outage>, c: Check, h: seq<Probe>) {
    forall o: Outage :: o.check == c.id ==> (o in outages <==> IsOutage(o, c.id, h, c.retries))
  }

  /** Oldest first, none twice. */
  ghost predicate RowsOrdered(outages: seq<Outage>, id: int) {
    forall a, b :: 0 <= a < b < |outages| && outages[a].check == outages[b].check == id ==>
      outages[a].start < outages[b].start
  }

  ghost predicate OutagesReflect(outages: seq<Outage>, c: Check, h: seq<Probe>) {
    RowsMatch(outages, c, h) && RowsOrdered(outages, c.id)
  }

  lemma LastOkIsLastSuccess(hb: Heartbeats, id: int, h: seq<Probe>)
    requires Increasing(h) && Beats(hb, id, h)
    ensures LastOk(hb, id) == if Trailing(h) < |h| then h[|h| - Trailing(h) - 1].ts else 0
  {
    hide Trailing;
    var i := |h| - Trailing(h);
    var oks := OkTimes(hb, id);
    assert forall t :: t in oks <==> (id, t) in hb && hb[(id, t)];
    forall t | t in oks ensures exists k :: 0 <= k < i && h[k].ts == t {
      var k :| 0 <= k < |h| && h[k].ts == t;
      assert h[k].ok;
    }
    if i > 0 {
      assert h[i - 1].ts in oks;
      var k :| 0 <= k < i && h[k].ts == MaxOf(oks);
    } else {
      assert forall t :: t !in oks;
    }
  }

  /** The backdating query finds the first probe of the trailing failing run. */
  lemma FirstFailIsRunStart(hb: Heartbeats, id: int, h: seq<Probe>, now: int)
    requires Increasing(h) && Beats(hb, id, h) && Trailing(h) > 0
    ensures FirstFail(hb, id, now) == h[|h| - Trailing(h)].ts
  {
    LastOkIsLastSuccess(hb, id, h);
    FailsAfterLastOk(hb, id, h, LastOk(hb, id));
  }

  lemma FailsAfterLastOk(hb: Heartbeats, id: int, h: seq<Probe>, last: int)
    requires Increasing(h) && Beats(hb, id, h) && Trailing(h) > 0
    requires last == if Trailing(h) < |h| then h[|h| - Trailing(h) - 1].ts else 0
    ensures var fails := FailTimesAfter(hb, id, last);
            fails != {} && MinOf(fails) == h[|h| - Trailing(h)].ts
  {
    hide Trailing;
    var i := |h| - Trailing(h);
    var fails := FailTimesAfter(hb, id, last);
    assert (id, h[i].ts) in hb.Keys && h[i].ts in fails;
    forall t | t in fails ensures h[i].ts <= t {
      var k :| 0 <= k < |h| && h[k].ts == t;
    }
  }

  lemma BeatsAppend(hb: Heartbeats, id: int, h: seq<Probe>, p: Probe)
    requires Beats(hb, id, h) && Increasing(h + [p])
    ensures Beats(hb[(id, p.ts) := p.ok], id, h + [p])
  {
    var g, hb' := h + [p], hb[(id, p.ts) := p.ok];
    forall t | (id, t) in hb' ensures exists k :: 0 <= k < |g| && g[k].ts == t {
      if t == p.ts {
        assert g[|h|].ts == t;
      } else {
        var k :| 0 <= k < |h| && h[k].ts == t;
        assert g[k].ts == t;
      }
    }
    forall k | 0 <= k < |g| ensures (id, g[k].ts) in hb' && hb'[(id, g[k].ts)] == g[k].ok {
      if k < |h| { assert g[k].ts < g[|h|].ts && g[k] == h[k]; }
    }
  }

  lemma BeatsOther(hb: Heartbeats, id: int, h: seq<Probe>, other: int, ts: int, ok: bool)
    requires Beats(hb, id, h) && other != id
    ensures Beats(hb[(other, ts) := ok], id, h)
  {
  }

  /** Outages start at a failed probe of the history. */
  lemma OutageStart(o: Outage, id: int, h: seq<Probe>, retries: nat)
    requires IsOutage(o, id, h, retries)
    ensures exists i :: 0 <= i < |h| && o.start == h[i].ts
    ensures o.check == id
  {
    var i, j :| OutageOfRun(o, id, h, retries, i, j);
  }

  /** The open row is the trailing run's outage. */
  lemma OpenRowIsTrailing(outages: seq<Outage>, c: Check, h: seq<Probe>)
    requires RowsMatch(outages, c, h)
    ensures OpenRow(outages, c.id).Some? <==> Trailing(h) > c.retries
    ensures var r := OpenRow(outages, c.id);
            r.Some? ==> outages[r.value] == Outage(c.id, h[|h| - Trailing(h)].ts, None)
  {
    var r := OpenRow(outages, c.id);
    if r.Some? {
      assert outages[r.value] in outages;
      OpenOutage(outages[r.value], c.id, h, c.retries);
    } else if Trailing(h) > c.retries {
      OpenOutage(Outage(c.id, h[|h| - Trailing(h)].ts, None), c.id, h, c.retries);
    }
  }

  /** The table after a success: the open row, if any, is closed. */
  function Closed(outages: seq<Outage>, id: int, now: int): seq<Outage> {
    var r := OpenRow(outages, id);
    if r.Some? then outages[r.value := outages[r.value].(end := Some(now))] else outages
  }

  lemma ReplaceMembership(rows: seq<Outage>, k: nat, row: Outage, o: Outage)
    requires k < |rows|
    requires forall m :: 0 <= m < |rows| && m != k ==> rows[m] != rows[k]
    ensures o in rows[k := row] <==> o == row || (o in rows && o != rows[k])
  {
    var after := rows[k := row];
    assert after[k] == row;
    if o in rows && o != rows[k] {
      var m :| 0 <= m < |rows| && rows[m] == o;
      assert after[m] == o;
    }
  }

  /** Closing the open row on a success. */
  lemma CloseRow(outages: seq<Outage>, c: Check, h: seq<Probe>, p: Probe)
    requires OutagesReflect(outages, c, h) && p.ok
    ensures Step(c, outages, Closed(outages, c.id, p.ts), h, p)
    ensures Trailing(h) <= c.retries ==> OpenRow(outages, c.id) == None
  {
    var r, after := OpenRow(outages, c.id), Closed(outages, c.id, p.ts);
    OpenRowIsTrailing(outages, c, h);
    if r.Some? {
      forall m | 0 <= m < |outages| && m != r.value ensures outages[m] != outages[r.value] {
        if outages[m].check == c.id {
          assert outages[m].start != outages[r.value].start;
        }
      }
    }
    forall o: Outage | o.check == c.id ensures o in after <==> IsOutage(o, c.id, h + [p], c.retries) {
      OutagesAfterSuccess(o, c.id, h, p, c.retries);
      OpenOutage(o, c.id, h, c.retries);
      if r.Some? {
        ReplaceMembership(outages, r.value, outages[r.value].(end := Some(p.ts)), o);
      }
    }
  }

  /** A failure that leaves the trailing run too short, or extends an outage, needs no row. */
  lemma NoRow(outages: seq<Outage>, c: Check, h: seq<Probe>, p: Probe)
    requires OutagesReflect(outages, c, h) && !p.ok && Trailing(h) != c.retries
    ensures Step(c, outages, outages, h, p)
  {
    forall o ensures IsOutage(o, c.id, h + [p], c.retries) <==> IsOutage(o, c.id, h, c.retries) {
      OutagesAfterFailure(o, c.id, h, p, c.retries);
      OpenOutage(o, c.id, h, c.retries);
    }
  }

  /** The failure that makes the trailing run long enough appends its row. */
  lemma AppendRow(outages: seq<Outage>, c: Check, h: seq<Probe>, p: Probe)
    requires OutagesReflect(outages, c, h) && !p.ok && Increasing(h + [p]) && Trailing(h) == c.retries
    ensures Step(c, outages, outages + [Outage(c.id, (h + [p])[|h| - Trailing(h)].ts, None)], h, p)
  {
    hide Trailing, IsOutage, Increasing;
    var row := Outage(c.id, (h + [p])[|h| - Trailing(h)].ts, None);
    assert RowsMatch(outages + [row], c, h + [p]) by {
      forall o: Outage | o.check == c.id ensures o in outages + [row] <==> IsOutage(o, c.id, h + [p], c.retries) {
        OutagesAfterFailure(o, c.id, h, p, c.retries);
      }
    }
    NewRowIsLast(outages, c, h, p);
  }

  lemma NewRowIsLast(outages: seq<Outage>, c: Check, h: seq<Probe>, p: Probe)
    requires OutagesReflect(outages, c, h) && !p.ok && Increasing(h + [p]) && Trailing(h) <= c.retries
    ensures RowsOrdered(outages + [Outage(c.id, (h + [p])[|h| - Trailing(h)].ts, None)], c.id)
  {
    hide Trailing, IsOutage;
    var g, i := h + [p], |h| - Trailing(h);
    forall a | 0 <= a < |outages| && outages[a].check == c.id ensures outages[a].start < g[i].ts {
      assert outages[a] in outages;
      StartBeforeTrailing(outages[a], c.id, h, c.retries);
      var k :| 0 <= k < i && outages[a].start == h[k].ts;
      assert g[k].ts < g[i].ts && g[k] == h[k];
    }
  }

  /** When the trailing run is still too short, every outage started before it. */
  lemma StartBeforeTrailing(o: Outage, id: int, h: seq<Probe>, retries: nat)
    requires IsOutage(o, id, h, retries) && Trailing(h) <= retries
    ensures exists k :: 0 <= k < |h| - Trailing(h) && o.start == h[k].ts
  {
    var i, j :| OutageOfRun(o, id, h, retries, i, j);
    var s := |h| - Trailing(h);
    if i >= s {
      if j == |h| { OpenRunIsTrailing(h, i); }
      assert false;
    }
  }

  /** The rows of other checks may be closed or appended without harm. */
  lemma OutagesOther(outages: seq<Outage>, after: seq<Outage>, c: Check, h: seq<Probe>)
    requires OutagesReflect(outages, c, h)
    requires |outages| <= |after|
    requires forall k :: 0 <= k < |outages| ==>
               outages[k] == after[k] || (outages[k].check != c.id && after[k].check != c.id)
    requires forall k :: |outages| <= k < |after| ==> after[k].check != c.id
    ensures OutagesReflect(after, c, h)
  {
    forall o | IsOutage(o, c.id, h, c.retries) ensures o in after {
      OutageStart(o, c.id, h, c.retries);
      var k :| 0 <= k < |outages| && outages[k] == o;
      assert after[k] == o;
    }
    forall o | o in after && o.check == c.id ensures o in outages {
      var k :| 0 <= k < |after| && after[k] == o;
      assert outages[k] in outages;
    }
  }

  ghost predicate Reflects(c: Check, hb: Heartbeats, outages: seq<Outage>, h: seq<Probe>) {
    && Increasing(h)
    && RowReflects(c, h)
    && Beats(hb, c.id, h)
    && OutagesReflect(outages, c, h)
  }

  /** The row of the probed check after one more probe. */
  ghost predicate RowAfter(c: Check, updated: Check, h: seq<Probe>, p: Probe) {
    && updated.id == c.id && updated.retries == c.retries && updated.device == c.device
    && updated.lastChecked == Some(p.ts)
    && updated.failCount == (if p.ok then 0 else c.failCount + 1)
    && (if p.ok && c.state != Up then updated.state == Up && updated.stateSince == Some(p.ts)
        else if !p.ok && c.failCount == c.retries
        then updated.state == Down && updated.stateSince == Some((h + [p])[|h| - Trailing(h)].ts)
        else updated.state == c.state && updated.stateSince == c.stateSince)
  }

  lemma RowAfterReflects(c: Check, updated: Check, h: seq<Probe>, p: Probe)
    requires RowReflects(c, h) && RowAfter(c, updated, h, p)
    ensures RowReflects(updated, h + [p])
  {
    hide Trailing, EverOk;
    TrailingAppend(h, p);
    EverOkAppend(h, p);
    if updated.state == Up {
      if c.state == Up {
        var k :| UpSince(h, c.retries, k) && c.stateSince == Some(h[k].ts);
        UpSinceAppend(h, p, c.retries, k);
        assert (h + [p])[k] == h[k];
      } else {
        UpSinceAppend(h, p, c.retries, |h|);
        assert (h + [p])[|h|] == p;
      }
    }
  }

  ghost predicate AllReflect(checks: map<int, Check>, hb: Heartbeats, outages: seq<Outage>,
                             history: map<int, seq<Probe>>)
    requires checks.Keys == history.Keys
  {
    forall id :: id in checks ==>
      checks[id].id == id && Reflects(checks[id], hb, outages, history[id])
  }

  /** A table change on behalf of one check leaves the rows of the others. */
  ghost predicate TouchesOnly(outages: seq<Outage>, after: seq<Outage>, id: int) {
    && |outages| <= |after|
    && (forall k :: 0 <= k < |outages| ==>
          outages[k] == after[k] || (outages[k].check == id && after[k].check == id))
    && (forall k :: |outages| <= k < |after| ==> after[k].check == id)
  }

  /** The outage table has followed the history of `c` by one probe. */
  ghost predicate Step(c: Check, outages: seq<Outage>, after: seq<Outage>, h: seq<Probe>, p: Probe) {
    OutagesReflect(after, c, h + [p]) && TouchesOnly(outages, after, c.id)
  }

  lemma RowFacts(checks: map<int, Check>, hb: Heartbeats, outages: seq<Outage>, history: map<int, seq<Probe>>,
                 id: int, p: Probe)
    requires checks.Keys == history.Keys && id in checks && AllReflect(checks, hb, outages, history)
    requires p.ts > 0 && (checks[id].lastChecked.Some? ==> checks[id].lastChecked.value < p.ts)
    ensures checks[id].id == id
    ensures checks[id].failCount == Trailing(history[id]) && checks[id].state == StateOf(history[id], checks[id].retries)
    ensures Increasing(history[id] + [p]) && Beats(hb, id, history[id])
    ensures OutagesReflect(outages, checks[id], history[id])
  {
    hide StateOf, Beats, OutagesReflect, UpSince, Trailing;
    assert Reflects(checks[id], hb, outages, history[id]);
    assert Increasing(history[id] + [p]);
  }

  lemma Backdated(hb: Heartbeats, before: Heartbeats, id: int, h: seq<Probe>, p: Probe)
    requires Increasing(h + [p]) && Beats(before, id, h) && hb == before[(id, p.ts) := p.ok] && !p.ok
    ensures FirstFail(hb, id, p.ts) == (h + [p])[|h| - Trailing(h)].ts
  {
    BeatsAppend(before, id, h, p);
    TrailingAppend(h, p);
    FirstFailIsRunStart(hb, id, h + [p], p.ts);
  }

  lemma AllKept(checks: map<int, Check>, hb: Heartbeats, hb': Heartbeats, outages: seq<Outage>, after: seq<Outage>,
                history: map<int, seq<Probe>>, updated: Check, now: int, ok: bool)
    requires checks.Keys == history.Keys && updated.id in checks && AllReflect(checks, hb, outages, history)
    requires var id, p := updated.id, Probe(now, ok);
             && hb' == hb[(id, now) := ok]
             && Step(checks[id], outages, after, history[id], p)
             && RowAfter(checks[id], updated, history[id], p)
             && Increasing(history[id] + [p])
    ensures AllReflect(checks[updated.id := updated], hb', after,
                       history[updated.id := history[updated.id] + [Probe(now, ok)]])
  {
    var id, p := updated.id, Probe(now, ok);
    var checks', history' := checks[id := updated], history[id := history[id] + [p]];
    forall other | other in checks'
      ensures checks'[other].id == other && Reflects(checks'[other], hb', after, history'[other])
    {
      if other == id {
        RowAfterReflects(checks[id], updated, history[id], p);
        BeatsAppend(hb, id, history[id], p);
        SameOutages(after, checks[id], updated, history'[id]);
      } else {
        BeatsOther(hb, other, history[other], id, now, ok);
        OutagesOther(outages, after, checks[other], history[other]);
      }
    }
  }

  lemma SameOutages(outages: seq<Outage>, c: Check, d: Check, h: seq<Probe>)
    requires c.id == d.id && c.retries == d.retries && OutagesReflect(outages, c, h)
    ensures OutagesReflect(outages, d, h)
  {
  }

  lemma StepTouches(c: Check, outages: seq<Outage>, after: seq<Outage>, h: seq<Probe>, p: Probe)
    requires Step(c, outages, after, h, p)
    ensures TouchesOnly(outages, after, c.id)
  {
  }

  /** Heartbeats and outages belong to existing checks. */
  ghost predicate NoStrangers(ids: set<int>, hb: Heartbeats, outages: seq<Outage>) {
    && (forall k :: k in hb ==> k.0 in ids)
    && (forall o :: o in outages ==> o.check in ids)
  }

  lemma StillNoStrangers(checks: map<int, Check>, hb: Heartbeats, outages: seq<Outage>, after: seq<Outage>,
                         updated: Check, now: int, ok: bool)
    requires NoStrangers(checks.Keys, hb, outages) && updated.id in checks && TouchesOnly(outages, after, updated.id)
    ensures NoStrangers(checks[updated.id := updated].Keys, hb[(updated.id, now) := ok], after)
  {
    var ids := checks.Keys;
    assert checks[updated.id := updated].Keys == ids;
    forall o | o in after ensures o.check in ids {
      var k :| 0 <= k < |after| && after[k] == o;
      assert k < |outages| ==> outages[k] in outages;
    }
  }

  class Database {
    var checks: map<int, Check>
    var heartbeats: Heartbeats
    var outages: seq<Outage>
    var events: seq<Event>
    ghost var history: map<int, seq<Probe>>

    /** Every table is what the recorded probe history says it must be. */
    ghost predicate Valid()
      reads this
    {
      && checks.Keys == history.Keys
      && AllReflect(checks, heartbeats, outages, history)
      && NoStrangers(checks.Keys, heartbeats, outages)
    }

    constructor ()
      ensures Valid() && checks == map[] && heartbeats == map[] && outages == [] && events == []
    {
      checks, heartbeats, outages, events := map[], map[], [], [];
      history := map[];
    }

    /** A check row as inserted by `create_check`: nothing probed yet. */
    method AddCheck(id: int, device: Option<int>, retries: nat)
      requires Valid() && id !in checks
      modifies this
      ensures Valid()
      ensures checks == old(checks)[id := Check(id, device, retries, Unknown, None, 0, None)]
      ensures history == old(history)[id := []]
      ensures heartbeats == old(heartbeats) && outages == old(outages) && events == old(events)
    {
      checks := checks[id := Check(id, device, retries, Unknown, None, 0, None)];
      history := history[id := []];
    }

    /** `record_result`. The caller hands over the row that the previous call left. */
    method RecordResult(check: Check, ok: bool, now: int) returns (updated: Check, transition: Transition)
      requires Valid()
      requires check.id in checks && checks[check.id] == check
      requires now > 0 && (check.lastChecked.Some? ==> check.lastChecked.value < now)
      modifies this
      ensures Valid()
      ensures check.id in old(history)
      ensures history == old(history)[check.id := old(history[check.id]) + [Probe(now, ok)]]
      ensures updated.id == check.id && updated.retries == check.retries && updated.device == check.device
      ensures updated.failCount == (if ok then 0 else check.failCount + 1) && updated.lastChecked == Some(now)
      ensures updated.state == if ok then Up else if check.failCount + 1 > check.retries then Down else check.state
      ensures checks == old(checks)[check.id := updated]
      ensures heartbeats == old(heartbeats)[(check.id, now) := ok]
      ensures transition == if ok && check.state == Down then WentUp
                            else if ok && check.state == Unknown then FirstUp
                            else if !ok && Trailing(old(history[check.id])) == check.retries then WentDown
                            else NoTransition
      ensures events == old(events) + (if transition == WentDown then [Event(check.id, true, now)]
                                       else if transition == WentUp then [Event(check.id, false, now)] else [])
    {
      hide AllReflect, OutagesReflect, TouchesOnly, NoStrangers, Step, Increasing, Beats, Trailing,
           EverOk, OkTimes, FirstFail;
      ghost var h, p := history[check.id], Probe(now, ok);
      RowFacts(checks, heartbeats, outages, history, check.id, p);
      updated := check.(lastChecked := Some(now));
      transition := NoTransition;
      heartbeats := heartbeats[(check.id, now) := ok];
      if ok {
        updated := updated.(failCount := 0);
        CloseRow(outages, check, h, p);
        if check.state != Up {
          updated := updated.(state := Up, stateSince := Some(now));
          var open := OpenRow(outages, check.id);
          if open.Some? {
            outages := outages[open.value := outages[open.value].(end := Some(now))];
          }
          transition := if check.state == Down then WentUp else FirstUp;
        }
      } else {
        var failCount := check.failCount + 1;
        updated := updated.(failCount := failCount);
        if failCount > check.retries && check.state != Down {
          var firstFail := FirstFail(heartbeats, check.id, now);
          Backdated(heartbeats, old(heartbeats), check.id, h, p);
          updated := updated.(state := Down, stateSince := Some(firstFail));
          outages := outages + [Outage(check.id, firstFail, None)];
          AppendRow(old(outages), check, h, p);
          transition := WentDown;
        } else {
          NoRow(outages, check, h, p);
        }
      }
      assert RowAfter(check, updated, h, p);
      StepTouches(check, old(outages), outages, h, p);
      StillNoStrangers(checks, old(heartbeats), old(outages), outages, updated, now, ok);
      AllKept(checks, old(heartbeats), heartbeats, old(outages), outages, history, updated, now, ok);
      checks := checks[check.id := updated];
      if transition == WentDown {
        events := events + [Event(check.id, true, now)];
      } else if transition == WentUp {
        events := events + [Event(check.id, false, now)];
      }
      history := history[check.id := h + [p]];
    }
  }

  /** In every reachable state a check is down iff it has exactly one open outage iff its counter exceeds `retries`. */
  lemma DownIffOneOpenOutage(db: Database, id: int)
    requires db.Valid() && id in db.checks
    ensures db.checks[id].state == Down <==> db.checks[id].failCount > db.checks[id].retries
    ensures db.checks[id].state == Down <==>
            exists k :: 0 <= k < |db.outages| && db.outages[k].check == id && db.outages[k].end == None
    ensures forall a, b :: 0 <= a < b < |db.outages| && db.outages[a].check == db.outages[b].check == id ==>
              db.outages[a].end != None || db.outages[b].end != None
  {
    var c, h := db.checks[id], db.history[id];
    forall k | 0 <= k < |db.outages| && db.outages[k].check == id && db.outages[k].end == None
      ensures Trailing(h) > c.retries && db.outages[k].start == h[|h| - Trailing(h)].ts
    {
      assert db.outages[k] in db.outages;
      OpenOutage(db.outages[k], id, h, c.retries);
    }
    if Trailing(h) > c.retries {
      var o := Outage(id, h[|h| - Trailing(h)].ts, None);
      OpenOutage(o, id, h, c.retries);
      assert o in db.outages;
    }
  }

  /**
    A check has been down since its open outage began, and up since the success that ended its last outage, or
    since its first success; while it has had neither, its state is unknown.
   */
  lemma SinceMeaning(db: Database, id: int)
    requires db.Valid() && id in db.checks
    ensures db.checks[id].state == Unknown ==> db.checks[id].stateSince == None
    ensures db.checks[id].state != Unknown ==> db.checks[id].stateSince.Some?
    ensures db.checks[id].state == Down ==>
              forall o :: o in db.outages && o.check == id && o.end == None ==> db.checks[id].stateSince == Some(o.start)
    ensures db.checks[id].state == Up ==>
              var since := db.checks[id].stateSince.value;
              && (id, since) in db.heartbeats && db.heartbeats[(id, since)]
              && (forall o :: o in db.outages && o.check == id ==> o.end.Some? && o.end.value <= since)
              && ((exists o :: o in db.outages && o.check == id && o.end == Some(since))
                  || forall t :: (id, t) in db.heartbeats && t < since ==> !db.heartbeats[(id, t)])
  {
    hide Increasing, StateOf, Trailing, Beats, MaximalRun, RowsOrdered;
    var c, h := db.checks[id], db.history[id];
    assert Reflects(c, db.heartbeats, db.outages, h);
    if c.state == Down {
      forall o | o in db.outages && o.check == id && o.end == None ensures c.stateSince == Some(o.start) {
        OpenOutage(o, id, h, c.retries);
      }
    }
    if c.state == Up {
      var k :| UpSince(h, c.retries, k) && c.stateSince == Some(h[k].ts);
      UpSpell(c, db.heartbeats, h, k);
      forall o | o in db.outages && o.check == id ensures o.end.Some? && o.end.value <= h[k].ts {
        OutageBeforeSpell(o, id, h, c.retries, k);
      }
      if Trailing(h[..k]) > c.retries {
        SpellEndsOutage(id, h, c.retries, k);
        var o := Outage(id, h[k - Trailing(h[..k])].ts, Some(h[k].ts));
        assert o in db.outages;
      }
    }
  }

  lemma UpSpell(c: Check, hb: Heartbeats, h: seq<Probe>, k: int)
    requires Increasing(h) && Beats(hb, c.id, h) && UpSince(h, c.retries, k)
    ensures 0 <= k < |h| && h[k].ok && (c.id, h[k].ts) in hb && hb[(c.id, h[k].ts)]
    ensures Trailing(h[..k]) > c.retries || forall t :: (c.id, t) in hb && t < h[k].ts ==> !hb[(c.id, t)]
  {
    if Trailing(h[..k]) <= c.retries {
      forall t | (c.id, t) in hb && t < h[k].ts ensures !hb[(c.id, t)] {
        var n :| 0 <= n < |h| && h[n].ts == t;
        assert n < k && h[..k][n] == h[n];
      }
    }
  }

  lemma SpellEndsOutage(id: int, h: seq<Probe>, retries: nat, k: int)
    requires 0 <= k < |h| && h[k].ok && Trailing(h[..k]) > retries
    ensures IsOutage(Outage(id, h[k - Trailing(h[..k])].ts, Some(h[k].ts)), id, h, retries)
  {
    var i := k - Trailing(h[..k]);
    assert forall n :: 0 <= n < k ==> h[..k][n] == h[n];
    hide Trailing;
    assert MaximalRun(h, i, k);
    assert OutageOfRun(Outage(id, h[i].ts, Some(h[k].ts)), id, h, retries, i, k);
  }

  /** While the check is up no outage can end, let alone be open. */
  lemma OutageBeforeSpell(o: Outage, id: int, h: seq<Probe>, retries: nat, k: int)
    requires IsOutage(o, id, h, retries) && Increasing(h) && UpSince(h, retries, k)
    ensures o.end.Some? && o.end.value <= h[k].ts
  {
    hide Trailing;
    var i, j :| OutageOfRun(o, id, h, retries, i, j);
    if k < j {
      LongRunIsDown(h, retries, i, j);
    }
  }

  lemma LongRunIsDown(h: seq<Probe>, retries: nat, i: int, j: int)
    requires MaximalRun(h, i, j) && j - i > retries
    ensures StateOf(h[..j], retries) == Down
  {
    var g := h[..j];
    assert forall n :: 0 <= n < j ==> g[n] == h[n];
    assert MaximalRun(g, i, |g|);
    OpenRunIsTrailing(g, i);
  }

  /** Every heartbeat inside an outage failed, and a closed outage ends at a successful one. */
  lemma OutageHoldsOnlyFailures(db: Database, id: int, o: Outage, t: int)
    requires db.Valid() && id in db.checks && o in db.outages && o.check == id
    requires (id, t) in db.heartbeats && o.start <= t && (o.end.Some? ==> t < o.end.value)
    ensures !db.heartbeats[(id, t)]
    ensures o.end.Some? ==> (id, o.end.value) in db.heartbeats && db.heartbeats[(id, o.end.value)]
  {
    var c, h := db.checks[id], db.history[id];
    assert Reflects(c, db.heartbeats, db.outages, h);
    var i, j :| OutageOfRun(o, id, h, c.retries, i, j);
    InsideRun(h, i, j, o.start, t);
    var k :| 0 <= k < |h| && h[k].ts == t;
  }

  lemma InsideRun(h: seq<Probe>, i: int, j: int, start: int, t: int)
    requires Increasing(h) && MaximalRun(h, i, j) && start == h[i].ts
    requires start <= t && (j < |h| ==> t < h[j].ts)
    ensures forall k :: 0 <= k < |h| && h[k].ts == t ==> !h[k].ok
  {
  }
}
