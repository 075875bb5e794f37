/**
  The alert engine: one evaluation of all rules against the alert table.

  `Valid` is what holds in every reachable state: at most one active alert per
  fingerprint; per fingerprint the events sent so far alternate between firing and
  resolved, ending with firing exactly while the alert is firing; and every active
  alert has been sustained by every evaluation since the one that inserted it.
 */
module AlertEngine {
  import opened AlertLifecycle
  import opened AlertTable
  import opened Maintenance
  import opened Options

  /** firing, resolved, firing, ... */
  ghost predicate Alternates(kinds: seq<Kind>) {
    forall i :: 0 <= i < |kinds| ==> kinds[i] == if i % 2 == 0 then FiringEvent else ResolvedEvent
  }

  ghost predicate IsFiring(row: Option<Alert>) { row.Some? && row.value.state == Firing }

  /** A whole evaluation: every fingerprint gets its next row and events, every old row becomes what it must. */
  ghost predicate Evaluated(e: Evaluation, before: Table, after: Table, outbox: seq<Event>)
    requires WellFormed(e)
  {
    && (forall fp :: (RowOf(after, fp), EventsOf(outbox, fp)) == Next(e, fp, VerdictOf(e, fp), RowOf(before, fp)))
    && (forall id :: id in before ==> At(after, id) == Becomes(e, before[id]))
    && (forall id :: id in after && id !in before ==> IsActive(after[id]))
    && (forall i :: 0 <= i < |outbox| ==> Carries(before, after, outbox[i], e.now))
  }

  /** Foreign key: the rule of an active alert exists. */
  ghost predicate RulesExist(e: Evaluation, alerts: Table) {
    forall id :: id in alerts && IsActive(alerts[id]) ==>
        exists i :: 0 <= i < |e.rules| && e.rules[i].id == alerts[id].fp.rule
  }

  /** One evaluation of a run: the table it found, its input, and the events it sent. */
  datatype Step = Step(before: Table, input: Evaluation, outbox: seq<Event>)

  /** The table that step `k` left behind. */
  ghost function AfterStep(log: seq<Step>, alerts: Table, k: nat): Table
    requires k < |log|
  {
    if k + 1 < |log| then log[k + 1].before else alerts
  }

  /** The steps lead from the empty table to `alerts`. */
  ghost predicate IsRun(log: seq<Step>, alerts: Table) {
    && (if log == [] then alerts else log[0].before) == map[]
    && forall k :: 0 <= k < |log| ==>
         WellFormed(log[k].input) && Evaluated(log[k].input, log[k].before, AfterStep(log, alerts, k), log[k].outbox)
  }

  /** Step `born` found no active alert `a` and inserted it for a match outside maintenance. */
  ghost predicate InsertedBy(s: Step, a: Alert) {
    && WellFormed(s.input)
    && RowOf(s.before, a.fp) == None
    && a.startedAt <= s.input.now
    && var v := VerdictOf(s.input, a.fp);
       v.Hit? && !Held(s.input.windows, s.input.now, v.m.device, v.m.check)
  }

  /** The step found alert `a` active, and matched it, held it by maintenance, or could not run its rule. */
  ghost predicate SustainedBy(s: Step, a: Alert) {
    && WellFormed(s.input)
    && RowOf(s.before, a.fp).Some? && RowOf(s.before, a.fp).value.startedAt == a.startedAt
    && Sustains(s.input, VerdictOf(s.input, a.fp), a)
  }

  /** Alert `a` was inserted by step `born`, and every later one found it and sustained it. */
  ghost predicate SustainedSince(log: seq<Step>, born: nat, a: Alert) {
    && born < |log|
    && InsertedBy(log[born], a)
    && forall k :: born < k < |log| ==> SustainedBy(log[k], a)
  }

  ghost predicate EventsAlternate(alerts: Table, sent: seq<Event>) {
    forall fp :: Alternates(EventsOf(sent, fp)) && (|EventsOf(sent, fp)| % 2 == 1 <==> IsFiring(RowOf(alerts, fp)))
  }

  ghost predicate AllSustained(alerts: Table, log: seq<Step>, born: map<Fingerprint, nat>) {
    forall fp :: RowOf(alerts, fp).Some? ==>
      fp in born && RowOf(alerts, fp).value.fp == fp && SustainedSince(log, born[fp], RowOf(alerts, fp).value)
  }

  /** An enabled rule among the first `n` matched the fingerprint. */
  ghost predicate HitBy(e: Evaluation, n: nat, fp: Fingerprint)
    requires n <= |e.rules|
  {
    exists i :: 0 <= i < n && e.rules[i].enabled && e.rules[i].id == fp.rule && RuleOutcome(e, fp.rule).Matches?
             && exists m :: m in RuleOutcome(e, fp.rule).list && m.subject == fp.subject
  }

  ghost predicate FailedBy(e: Evaluation, n: nat, rule: nat)
    requires n <= |e.rules|
  {
    exists i :: 0 <= i < n && e.rules[i].enabled && e.rules[i].id == rule && RuleOutcome(e, rule) == Raised
  }

  lemma HitByAll(e: Evaluation, fp: Fingerprint)
    requires WellFormed(e)
    ensures HitBy(e, |e.rules|, fp) <==> VerdictOf(e, fp).Hit?
    ensures FailedBy(e, |e.rules|, fp.rule) <==> VerdictOf(e, fp).Failed?
  {
    hide VerdictOf;
    if HitBy(e, |e.rules|, fp) {
      var i :| 0 <= i < |e.rules| && e.rules[i].enabled && e.rules[i].id == fp.rule
               && exists m :: m in RuleOutcome(e, fp.rule).list && m.subject == fp.subject;
      var m :| m in RuleOutcome(e, fp.rule).list && m.subject == fp.subject;
      assert IsVerdict(e, fp, Hit(e.rules[i], m));
    }
    if FailedBy(e, |e.rules|, fp.rule) {
      assert IsVerdict(e, fp, Failed);
    }
    var v := VerdictOf(e, fp);
    assert IsVerdict(e, fp, v);
    if v.Hit? {
      var i :| 0 <= i < |e.rules| && e.rules[i] == v.rule;
    }
  }

  /** The verdict of a match that the loop has reached. */
  lemma HitVerdict(e: Evaluation, rule: Rule, m: Match)
    requires WellFormed(e) && rule in e.rules && rule.enabled
    requires RuleOutcome(e, rule.id).Matches? && m in RuleOutcome(e, rule.id).list
    ensures VerdictOf(e, Fingerprint(rule.id, m.subject)) == Hit(rule, m)
  {
    hide VerdictOf;
    assert IsVerdict(e, Fingerprint(rule.id, m.subject), Hit(rule, m));
  }

  function FindRule(rules: seq<Rule>, id: nat): (r: Option<Rule>)
    ensures r.Some? ==> r.value in rules && r.value.id == id
    ensures r.None? ==> forall i :: 0 <= i < |rules| ==> rules[i].id != id
  {
    if rules == [] then None
    else if rules[0].id == id then Some(rules[0])
    else FindRule(rules[1..], id)
  }

  /** The verdict of an active alert that no rule matched. */
  lemma MissVerdict(e: Evaluation, fp: Fingerprint)
    requires WellFormed(e) && !VerdictOf(e, fp).Hit? && !VerdictOf(e, fp).Failed?
    ensures var r := FindRule(e.rules, fp.rule);
            VerdictOf(e, fp) == if r.None? then Gone else if r.value.enabled then Quiet else Off
  {
    hide VerdictOf;
    assert IsVerdict(e, fp, VerdictOf(e, fp));
    var r := FindRule(e.rules, fp.rule);
    if r.Some? {
      var i :| 0 <= i < |e.rules| && e.rules[i] == r.value;
    }
  }

  class Engine {
    var alerts: Table
    ghost var sent: seq<Event>
    ghost var log: seq<Step>
    /** The step that inserted the active alert of a fingerprint. */
    ghost var born: map<Fingerprint, nat>

    ghost predicate Valid()
      reads this
    {
      UniqueActive(alerts) && EventsAlternate(alerts, sent) && AllSustained(alerts, log, born) && IsRun(log, alerts)
    }

    constructor ()
      ensures Valid() && alerts == map[] && sent == [] && log == [] && born == map[]
    {
      alerts, sent, log, born := map[], [], [], map[];
    }

    /** One match: refresh or insert the row, and let it fire when it is old enough. */
    method Observe(e: Evaluation, rule: Rule, m: Match, w: Work,
                   ghost old': Table, ghost done: set<Fingerprint>, ghost failed: set<nat>) returns (w': Work)
      requires WellFormed(e) && rule in e.rules && rule.enabled
      requires RuleOutcome(e, rule.id).Matches? && m in RuleOutcome(e, rule.id).list
      requires Working(e, old', alerts, w, done, failed) && old'.Keys <= alerts.Keys
      requires Fingerprint(rule.id, m.subject) !in done && rule.id !in failed
      modifies this
      ensures Working(e, old', alerts, w', done + {Fingerprint(rule.id, m.subject)}, failed)
      ensures old'.Keys <= alerts.Keys
      ensures sent == old(sent) && log == old(log) && born == old(born)
    {
      hide Working, WellFormed, VerdictOf, Held, RowOf, Becomes, Settled, SeenAs;
      var fp := Fingerprint(rule.id, m.subject);
      ghost var before := alerts;
      HitVerdict(e, rule, m);
      StillThere(e, old', alerts, w, done, failed, fp);
      var existing := fp in w.active;
      var id := if existing then w.active[fp] else FreshId(alerts);
      w' := w.(active := w.active - {fp});
      if Held(e.windows, e.now, m.device, m.check) {
        HeldHit(e, old', alerts, w, w', done, failed, id, fp);
        return;
      }
      var alert;
      if !existing {
        var started := if m.since.Some? && m.since.value != 0 && m.since.value <= e.now then m.since.value else e.now;
        alert := Alert(fp, m.device, m.check, Pending, m.detail, started, None, None, e.now);
        alerts := alerts[id := alert];
      } else {
        alert := alerts[id].(detail := m.detail, lastEval := e.now);
        alerts := alerts[id := alert];
      }
      assert alert == Refreshed(fp, RowOf(old', fp), m, e.now);
      ghost var pending := alert;
      var stats := w.stats;
      if alert.state == Pending && e.now - alert.startedAt >= rule.forSeconds {
        alert := alert.(state := Firing, firedAt := Some(e.now));
        alerts := alerts[id := alert];
        w' := w'.(outbox := w.outbox + [Event(FiringEvent, alert)]);
        stats := stats.(fired := stats.fired + 1);
      }
      assert alert == Aged(pending, rule.forSeconds, e.now);
      stats := if alert.state == Pending then stats.(pending := stats.pending + 1) else stats.(firing := stats.firing + 1);
      w' := w'.(stats := stats);
      OpenHit(e, old', before, alerts, w, w', done, failed, id, fp, rule, m, alert);
    }

    /** All matches of one rule. */
    method ObserveAll(e: Evaluation, rule: Rule, list: seq<Match>, w: Work,
                      ghost old': Table, ghost done: set<Fingerprint>, ghost failed: set<nat>)
      returns (w': Work, ghost done': set<Fingerprint>)
      requires WellFormed(e) && rule in e.rules && rule.enabled && RuleOutcome(e, rule.id) == Matches(list)
      requires Working(e, old', alerts, w, done, failed) && old'.Keys <= alerts.Keys && rule.id !in failed
      requires forall m :: m in list ==> Fingerprint(rule.id, m.subject) !in done
      modifies this
      ensures Working(e, old', alerts, w', done', failed) && old'.Keys <= alerts.Keys
      ensures forall fp: Fingerprint :: fp in done' <==>
                fp in done || (fp.rule == rule.id && exists m :: m in list && m.subject == fp.subject)
      ensures sent == old(sent) && log == old(log) && born == old(born)
    {
      hide Working, VerdictOf, RowOf;
      w', done' := w, done;
      SubjectsDistinct(e, rule.id, list);
      var j := 0;
      while j < |list|
        invariant 0 <= j <= |list|
        invariant Working(e, old', alerts, w', done', failed) && old'.Keys <= alerts.Keys
        invariant forall fp :: fp in done' <==>
                    fp in done || (fp.rule == rule.id && exists k :: 0 <= k < j && list[k].subject == fp.subject)
        invariant sent == old(sent) && log == old(log) && born == old(born)
      {
        assert Fingerprint(rule.id, list[j].subject) !in done';
        w' := Observe(e, rule, list[j], w', old', done', failed);
        done' := done' + {Fingerprint(rule.id, list[j].subject)};
        j := j + 1;
      }
    }

    /** An active alert that no rule matched: held, forgotten or resolved. */
    method Clear(e: Evaluation, fp: Fingerprint, w: Work,
                 ghost old': Table, ghost done: set<Fingerprint>, ghost failed: set<nat>) returns (w': Work)
      requires WellFormed(e) && Working(e, old', alerts, w, done, failed) && fp in w.active
      requires !VerdictOf(e, fp).Hit? && !VerdictOf(e, fp).Failed?
      modifies this
      ensures Working(e, old', alerts, w', done + {fp}, failed) && w'.active == w.active - {fp}
      ensures w'.stats.fired == w.stats.fired && w'.stats.pending == w.stats.pending && w'.stats.firing == w.stats.firing
      ensures sent == old(sent) && log == old(log) && born == old(born)
    {
      hide Working, WellFormed, VerdictOf, Held, RowOf, Becomes, Settled, SeenAs;
      ghost var before := alerts;
      ActiveNotDone(e, old', alerts, w, done, failed, fp);
      StillThere(e, old', alerts, w, done, failed, fp);
      MissVerdict(e, fp);
      var id := w.active[fp];
      var alert := alerts[id];
      var rule := FindRule(e.rules, alert.fp.rule);
      w' := w.(active := w.active - {fp});
      if rule.Some? && rule.value.enabled && Held(e.windows, e.now, alert.device, alert.check) {
        Missed(e, old', before, alerts, w, w', done, failed, id, fp, []);
        return;
      }
      if alert.state == Pending {
        alerts := alerts - {id};
        Missed(e, old', before, alerts, w, w', done, failed, id, fp, []);
        return;
      }
      alert := alert.(state := Resolved, resolvedAt := Some(e.now), lastEval := e.now);
      alerts := alerts[id := alert];
      w' := w'.(stats := w.stats.(resolved := w.stats.resolved + 1));
      if rule.Some? {
        w' := w'.(outbox := w.outbox + [Event(ResolvedEvent, alert)]);
        Missed(e, old', before, alerts, w, w', done, failed, id, fp, [Event(ResolvedEvent, alert)]);
      } else {
        Missed(e, old', before, alerts, w, w', done, failed, id, fp, []);
      }
    }

    /** The loop over the enabled rules. */
    method RunRules(e: Evaluation, w0: Work, ghost old': Table)
      returns (w: Work, ghost done: set<Fingerprint>, ghost failed: set<nat>)
      requires WellFormed(e) && old' == alerts && Working(e, old', alerts, w0, {}, {})
      requires forall fp :: !HitBy(e, 0, fp)
      requires forall r :: !FailedBy(e, 0, r)
      modifies this
      ensures Working(e, old', alerts, w, done, failed)
      ensures forall fp :: fp in done <==> HitBy(e, |e.rules|, fp)
      ensures forall r :: r in failed <==> FailedBy(e, |e.rules|, r)
      ensures sent == old(sent) && log == old(log) && born == old(born)
    {
      hide Working, HitBy, FailedBy;
      w, done, failed := w0, {}, {};
      var k := 0;
      while k < |e.rules|
        invariant 0 <= k <= |e.rules|
        invariant Working(e, old', alerts, w, done, failed) && old'.Keys <= alerts.Keys
        invariant forall fp :: fp in done <==> HitBy(e, k, fp)
        invariant forall r :: r in failed <==> FailedBy(e, k, r)
        invariant sent == old(sent) && log == old(log) && born == old(born)
      {
        var rule := e.rules[k];
        NextRule(e, k);
        if rule.enabled {
          var outcome := e.outcomes[rule.id];
          match outcome {
            case Raised =>
              var active := map fp | fp in w.active && fp.rule != rule.id :: w.active[fp];
              GiveUp(e, old', alerts, w, w.(active := active), done, failed, rule.id);
              w := w.(active := active);
              failed := failed + {rule.id};
            case Matches(list) =>
              w, done := ObserveAll(e, rule, list, w, old', done, failed);
          }
        }
        k := k + 1;
      }
    }

    /** The loop over the active alerts that no rule accounted for. */
    method ClearRest(e: Evaluation, w0: Work, ghost old': Table, ghost done0: set<Fingerprint>, ghost failed: set<nat>)
      returns (w: Work, ghost done: set<Fingerprint>)
      requires WellFormed(e) && Working(e, old', alerts, w0, done0, failed)
      requires forall fp :: fp in w0.active ==> !VerdictOf(e, fp).Hit? && !VerdictOf(e, fp).Failed?
      modifies this
      ensures Working(e, old', alerts, w, done, failed) && w.active == map[] && done0 <= done
      ensures sent == old(sent) && log == old(log) && born == old(born)
    {
      hide Working, VerdictOf;
      w, done := w0, done0;
      while w.active != map[]
        invariant Working(e, old', alerts, w, done, failed) && done0 <= done
        invariant forall fp :: fp in w.active ==> !VerdictOf(e, fp).Hit? && !VerdictOf(e, fp).Failed?
        invariant sent == old(sent) && log == old(log) && born == old(born)
        decreases |w.active|
      {
        var fp := AnyKey(w.active);
        Shrinks(w.active, fp);
        w := Clear(e, fp, w, old', done, failed);
        done := done + {fp};
      }
    }

    /** `evaluate`, without the sending of the outbox. */
    method Evaluate(e: Evaluation) returns (stats: Stats, outbox: seq<Event>)
      requires Valid() && WellFormed(e) && RulesExist(e, alerts)
      modifies this
      ensures Valid()
      ensures Evaluated(e, old(alerts), alerts, outbox)
      ensures sent == old(sent) + outbox && log == old(log) + [Step(old(alerts), e, outbox)]
      ensures born == NewBorn(old(alerts), alerts, old(born), |old(log)|)
      ensures |FiringIds(alerts)| == |FiringIds(old(alerts))| + stats.fired - stats.resolved
      ensures stats.fired == CountKind(outbox, FiringEvent)
      ensures stats.pending == |HitsNow(e, old(alerts), Pending)| && stats.firing == |HitsNow(e, old(alerts), Firing)|
    {
      hide Working, VerdictOf, RowOf, Evaluated, EventsAlternate, AllSustained, IsRun, HitsNow, NewBorn, RulesExist,
           HitBy, FailedBy, WellFormed, UniqueActive, FiringIds;
      ghost var old' := alerts;
      var w := Work(ActiveRows(alerts), [], Stats(0, 0, 0, 0));
      Start(e, alerts, w);
      ghost var done, failed;
      w, done, failed := RunRules(e, w, old');
      LoopsMeet(e, old', alerts, w, done, failed);
      w, done := ClearRest(e, w, old', done, failed);
      Finish(e, old', alerts, w, done, failed);
      KeepsAlternating(e, old', alerts, sent, w.outbox);
      KeepsSustained(e, old', alerts, w.outbox, log, born);
      KeepsRun(e, old', alerts, w.outbox, log);
      sent := sent + w.outbox;
      born := NewBorn(old', alerts, born, |log|);
      log := log + [Step(old', e, w.outbox)];
      stats, outbox := w.stats, w.outbox;
    }
  }

  /** `SELECT * FROM alerts WHERE state IN ('pending', 'firing')`, by fingerprint. */
  function ActiveRows(alerts: Table): (active: map<Fingerprint, int>)
    requires UniqueActive(alerts)
    ensures forall fp :: fp in active ==> ActiveAt(alerts, active[fp], fp)
    ensures forall id :: id in alerts && IsActive(alerts[id]) ==> alerts[id].fp in active
  {
    assert forall i, j | i in alerts && j in alerts && IsActive(alerts[i]) && IsActive(alerts[j])
                         && alerts[i].fp == alerts[j].fp :: i == j by {
      forall i, j | i in alerts && j in alerts && IsActive(alerts[i]) && IsActive(alerts[j]) && alerts[i].fp == alerts[j].fp
        ensures i == j
      {
        assert ActiveAt(alerts, i, alerts[i].fp) && ActiveAt(alerts, j, alerts[i].fp);
      }
    }
    map id | id in alerts && IsActive(alerts[id]) :: alerts[id].fp := id
  }

  /** After the rules: what is still in the dictionary was neither matched nor left to a failed rule. */
  lemma LoopsMeet(e: Evaluation, old': Table, alerts: Table, w: Work, done: set<Fingerprint>, failed: set<nat>)
    requires WellFormed(e) && Working(e, old', alerts, w, done, failed)
    requires forall fp :: fp in done <==> HitBy(e, |e.rules|, fp)
    requires forall r :: r in failed <==> FailedBy(e, |e.rules|, r)
    ensures forall fp :: VerdictOf(e, fp).Hit? <==> fp in done
    ensures forall fp: Fingerprint :: fp.rule in failed <==> VerdictOf(e, fp).Failed?
    ensures forall fp :: fp in w.active ==> !VerdictOf(e, fp).Hit? && !VerdictOf(e, fp).Failed?
  {
    hide VerdictOf, HitBy, FailedBy, Progress, CountsRight, RowOf;
    forall fp ensures (fp in done <==> VerdictOf(e, fp).Hit?) && (fp.rule in failed <==> VerdictOf(e, fp).Failed?) {
      HitByAll(e, fp);
    }
  }

  method AnyKey(m: map<Fingerprint, int>) returns (fp: Fingerprint)
    requires m != map[]
    ensures fp in m
  {
    KeyExists(m);
    fp :| fp in m;
  }

  lemma KeyExists(m: map<Fingerprint, int>)
    ensures m == map[] || exists fp :: fp in m
  {
    if forall fp :: fp !in m {
      assert m == map[];
    }
  }

  lemma Shrinks(m: map<Fingerprint, int>, fp: Fingerprint)
    requires fp in m
    ensures |m - {fp}| < |m|
  {
    assert m.Keys == (m - {fp}).Keys + {fp};
    assert |m.Keys| == |(m - {fp}).Keys| + 1;
  }

  lemma SubjectsDistinct(e: Evaluation, rule: nat, list: seq<Match>)
    requires WellFormed(e) && RuleOutcome(e, rule) == Matches(list)
    ensures DistinctSubjects(list)
  {
  }

  lemma ActiveNotDone(e: Evaluation, old': Table, alerts: Table, w: Work,
                      done: set<Fingerprint>, failed: set<nat>, fp: Fingerprint)
    requires WellFormed(e) && Working(e, old', alerts, w, done, failed) && fp in w.active
    ensures fp !in done && fp.rule !in failed
  {
    hide Progress, CountsRight, RowOf;
  }

  lemma Missed(e: Evaluation, old': Table, before: Table, after: Table, w: Work, w': Work,
               done: set<Fingerprint>, failed: set<nat>, id: int, fp: Fingerprint, events: seq<Event>)
    requires WellFormed(e) && Working(e, old', before, w, done, failed) && fp in w.active && id == w.active[fp]
    requires !VerdictOf(e, fp).Hit? && !VerdictOf(e, fp).Failed?
    requires fp !in done && fp.rule !in failed && id in before
    requires var a := before[id];
             var v := VerdictOf(e, fp);
             var held := v.Quiet? && Held(e.windows, e.now, a.device, a.check);
             var resolved := a.(state := Resolved, resolvedAt := Some(e.now), lastEval := e.now);
             && after == (if held then before else if a.state == Pending then before - {id} else before[id := resolved])
             && events == (if held || a.state == Pending || v.Gone? then [] else [Event(ResolvedEvent, resolved)])
             && w' == w.(active := w.active - {fp}, outbox := w.outbox + events,
                         stats := if held || a.state == Pending then w.stats
                                  else w.stats.(resolved := w.stats.resolved + 1))
    ensures Working(e, old', after, w', done + {fp}, failed)
  {
    hide Working, WellFormed, VerdictOf, Held, RowOf, UniqueActive, AfterHit;
    StillThere(e, old', before, w, done, failed, fp);
    assert !SeenAs(e, old', fp, Pending) && !SeenAs(e, old', fp, Firing);
    Account(e, old', before, after, w, w', done, failed, id, fp, events);
  }

  /** Fingerprints matched outside maintenance whose row ends up in state `st`. */
  ghost function HitsNow(e: Evaluation, before: Table, st: AlertState): set<Fingerprint>
    requires WellFormed(e)
  {
    set r, m | r in e.outcomes && e.outcomes[r].Matches? && m in e.outcomes[r].list
               && SeenAs(e, before, Fingerprint(r, m.subject), st)
      :: Fingerprint(r, m.subject)
  }

  lemma Start(e: Evaluation, alerts: Table, w: Work)
    requires WellFormed(e) && UniqueActive(alerts)
    requires w.outbox == [] && w.stats == Stats(0, 0, 0, 0)
    requires forall fp :: fp in w.active ==> ActiveAt(alerts, w.active[fp], fp)
    requires forall id :: id in alerts && IsActive(alerts[id]) ==> alerts[id].fp in w.active
    ensures Working(e, alerts, alerts, w, {}, {})
    ensures forall fp :: !HitBy(e, 0, fp)
    ensures forall r :: !FailedBy(e, 0, r)
  {
    hide Next, VerdictOf, Becomes, SeenAs;
    forall fp ensures fp in w.active <==> RowOf(alerts, fp).Some? {
      if fp in w.active { assert ActiveAt(alerts, w.active[fp], fp); }
    }
    assert Seen(e, alerts, {}, Pending) == {} && Seen(e, alerts, {}, Firing) == {};
  }

  lemma NextRule(e: Evaluation, k: nat)
    requires WellFormed(e) && k < |e.rules|
    ensures var r := e.rules[k];
            && (r.enabled ==> r.id in e.outcomes && RuleOutcome(e, r.id) == e.outcomes[r.id])
            && !FailedBy(e, k, r.id)
            && (forall fp: Fingerprint :: fp.rule == r.id ==> !HitBy(e, k, fp))
            && (forall fp :: HitBy(e, k + 1, fp) <==>
                  HitBy(e, k, fp) || (r.enabled && fp.rule == r.id && RuleOutcome(e, r.id).Matches?
                                      && exists m :: m in RuleOutcome(e, r.id).list && m.subject == fp.subject))
            && (forall id :: FailedBy(e, k + 1, id) <==>
                  FailedBy(e, k, id) || (r.enabled && id == r.id && RuleOutcome(e, id) == Raised))
  {
    var r := e.rules[k];
    forall fp ensures HitBy(e, k + 1, fp) <==>
                  HitBy(e, k, fp) || (r.enabled && fp.rule == r.id && RuleOutcome(e, r.id).Matches?
                                      && exists m :: m in RuleOutcome(e, r.id).list && m.subject == fp.subject) {
    }
  }

  /** A rule that raised keeps its alerts out of the dictionary. */
  lemma GiveUp(e: Evaluation, old': Table, alerts: Table, w: Work, w': Work,
               done: set<Fingerprint>, failed: set<nat>, rule: nat)
    requires WellFormed(e) && Working(e, old', alerts, w, done, failed)
    requires w'.outbox == w.outbox && w'.stats == w.stats
    requires forall fp :: fp in w'.active <==> fp in w.active && fp.rule != rule
    requires forall fp :: fp in w'.active ==> w'.active[fp] == w.active[fp]
    ensures Working(e, old', alerts, w', done, failed + {rule})
  {
    hide Progress, RowOf;
  }

  /** When nothing is left in the dictionary every fingerprint has its next row. */
  lemma Finish(e: Evaluation, old': Table, alerts: Table, w: Work, done: set<Fingerprint>, failed: set<nat>)
    requires WellFormed(e) && Working(e, old', alerts, w, done, failed) && w.active == map[]
    requires forall fp :: VerdictOf(e, fp).Hit? ==> fp in done
    requires forall fp: Fingerprint :: fp.rule in failed <==> VerdictOf(e, fp).Failed?
    ensures Evaluated(e, old', alerts, w.outbox) && UniqueActive(alerts)
    ensures |FiringIds(alerts)| == |FiringIds(old')| + w.stats.fired - w.stats.resolved
    ensures w.stats.fired == CountKind(w.outbox, FiringEvent)
    ensures w.stats.pending == |HitsNow(e, old', Pending)| && w.stats.firing == |HitsNow(e, old', Firing)|
  {
    FinishRows(e, old', alerts, w, done, failed);
    FinishSeen(e, old', done, Pending);
    FinishSeen(e, old', done, Firing);
  }

  lemma FinishRows(e: Evaluation, old': Table, alerts: Table, w: Work, done: set<Fingerprint>, failed: set<nat>)
    requires WellFormed(e) && UniqueActive(old') && Progress(e, old', alerts, w.outbox, done)
    requires EventsCarryRows(old', alerts, w.outbox, e.now, done)
    requires ActiveIs(old', w.active, done, failed) && w.active == map[]
    requires forall fp :: VerdictOf(e, fp).Hit? ==> fp in done
    requires forall fp: Fingerprint :: fp.rule in failed <==> VerdictOf(e, fp).Failed?
    ensures Evaluated(e, old', alerts, w.outbox)
  {
    hide VerdictOf, RowOf, EventsOf, AfterHit, AfterMiss, Becomes, Carries;
    forall fp ensures (RowOf(alerts, fp), EventsOf(w.outbox, fp)) == Next(e, fp, VerdictOf(e, fp), RowOf(old', fp)) {
      assert fp !in w.active;
      assert fp in done || fp.rule in failed || RowOf(old', fp) == None;
    }
    forall id | id in old' ensures At(alerts, id) == Becomes(e, old'[id]) {
      if old'[id].fp !in done {
        LeftAlone(e, old', id, done, failed);
      }
    }
  }

  lemma LeftAlone(e: Evaluation, old': Table, id: int, done: set<Fingerprint>, failed: set<nat>)
    requires WellFormed(e) && UniqueActive(old') && id in old' && old'[id].fp !in done
    requires ActiveIs(old', map[], done, failed)
    requires forall fp: Fingerprint :: fp.rule in failed <==> VerdictOf(e, fp).Failed?
    ensures Becomes(e, old'[id]) == Some(old'[id])
  {
    hide VerdictOf;
    var fp := old'[id].fp;
    if IsActive(old'[id]) {
      RowIs(old', id, fp);
      assert fp.rule in failed;
    }
  }

  lemma FinishSeen(e: Evaluation, old': Table, done: set<Fingerprint>, st: AlertState)
    requires WellFormed(e)
    requires forall fp :: VerdictOf(e, fp).Hit? ==> fp in done
    ensures Seen(e, old', done, st) == HitsNow(e, old', st)
  {
    hide VerdictOf, Next;
    forall fp ensures fp in Seen(e, old', done, st) <==> fp in HitsNow(e, old', st) {
      if SeenAs(e, old', fp, st) {
        var v := VerdictOf(e, fp);
        assert IsVerdict(e, fp, v);
        assert fp == Fingerprint(fp.rule, v.m.subject);
      }
    }
  }

  // ----- what every evaluation keeps

  /** The evaluation that inserted the active row of a fingerprint. */
  ghost function NewBorn(before: Table, after: Table, born: map<Fingerprint, nat>, now: nat): map<Fingerprint, nat> {
    map id | id in after && IsActive(after[id]) ::
      after[id].fp := var fp := after[id].fp; if RowOf(before, fp).Some? && fp in born then born[fp] else now
  }

  lemma RowBelongs(alerts: Table, fp: Fingerprint)
    ensures RowOf(alerts, fp).Some? ==>
              RowOf(alerts, fp).value.fp == fp && IsActive(RowOf(alerts, fp).value)
              && exists id :: ActiveAt(alerts, id, fp) && RowOf(alerts, fp) == Some(alerts[id])
  {
  }

  /** Per fingerprint the events keep alternating: firing, resolved, firing, ... */
  lemma KeepsAlternating(e: Evaluation, before: Table, after: Table, sent: seq<Event>, outbox: seq<Event>)
    requires WellFormed(e) && Evaluated(e, before, after, outbox) && RulesExist(e, before)
    requires EventsAlternate(before, sent)
    ensures EventsAlternate(after, sent + outbox)
  {
    hide RowOf, EventsOf, VerdictOf, Next, Becomes;
    forall fp ensures Alternates(EventsOf(sent + outbox, fp))
                   && (|EventsOf(sent + outbox, fp)| % 2 == 1 <==> IsFiring(RowOf(after, fp))) {
      EventsConcat(sent, outbox, fp);
      RowBelongs(before, fp);
      EventsFollowState(e, fp, VerdictOf(e, fp), RowOf(before, fp));
      RuleIsThere(e, before, fp);
      assert (RowOf(after, fp), EventsOf(outbox, fp)) == Next(e, fp, VerdictOf(e, fp), RowOf(before, fp));
      AlternatesMore(EventsOf(sent, fp), EventsOf(outbox, fp));
    }
  }

  lemma RuleIsThere(e: Evaluation, alerts: Table, fp: Fingerprint)
    requires WellFormed(e) && RulesExist(e, alerts)
    ensures RowOf(alerts, fp).Some? ==> VerdictOf(e, fp) != Gone
  {
    hide VerdictOf;
    assert IsVerdict(e, fp, VerdictOf(e, fp));
  }

  lemma AlternatesMore(kinds: seq<Kind>, more: seq<Kind>)
    requires Alternates(kinds)
    ensures more == [] ==> Alternates(kinds + more)
    ensures more == [if |kinds| % 2 == 0 then FiringEvent else ResolvedEvent] ==> Alternates(kinds + more)
  {
  }

  /** Every alert that is active after the evaluation has been sustained by it, or was inserted by it. */
  lemma KeepsSustained(e: Evaluation, before: Table, after: Table, outbox: seq<Event>,
                       log: seq<Step>, born: map<Fingerprint, nat>)
    requires WellFormed(e) && Evaluated(e, before, after, outbox) && AllSustained(before, log, born)
    ensures AllSustained(after, log + [Step(before, e, outbox)], NewBorn(before, after, born, |log|))
  {
    var born', step := NewBorn(before, after, born, |log|), Step(before, e, outbox);
    forall fp | RowOf(after, fp).Some?
      ensures fp in born' && RowOf(after, fp).value.fp == fp &&
              SustainedSince(log + [step], born'[fp], RowOf(after, fp).value)
    {
      hide RowOf, VerdictOf, Next, SustainedSince, EventsOf, Becomes;
      RowBelongs(after, fp);
      RowBelongs(before, fp);
      var id :| ActiveAt(after, id, fp) && RowOf(after, fp) == Some(after[id]);
      assert after[id].fp in born';
      var v := VerdictOf(e, fp);
      assert (RowOf(after, fp), EventsOf(outbox, fp)) == Next(e, fp, v, RowOf(before, fp));
      if RowOf(before, fp).Some? {
        SurvivesIffSustained(e, fp, v, RowOf(before, fp).value);
        StillSustained(log, step, born[fp], RowOf(before, fp).value, RowOf(after, fp).value);
      } else {
        AppearsOnlyWhenHit(e, fp, v);
        JustInserted(log, step, RowOf(after, fp).value);
      }
    }
  }

  lemma StillSustained(log: seq<Step>, s: Step, born: nat, a: Alert, b: Alert)
    requires SustainedSince(log, born, a) && SustainedBy(s, a)
    requires b.fp == a.fp && b.startedAt == a.startedAt && b.device == a.device && b.check == a.check
    ensures SustainedSince(log + [s], born, b)
  {
    hide VerdictOf, WellFormed, Held, RowOf;
    var more := log + [s];
    assert forall k :: 0 <= k < |log| ==> more[k] == log[k];
  }

  lemma JustInserted(log: seq<Step>, s: Step, b: Alert)
    requires InsertedBy(s, b)
    ensures SustainedSince(log + [s], |log|, b)
  {
    hide InsertedBy;
  }

  /** There is only one evaluation since which the alert can have been active. */
  lemma BornUnique(log: seq<Step>, a: Alert, i: nat, j: nat)
    requires SustainedSince(log, i, a) && SustainedSince(log, j, a)
    ensures i == j
  {
    hide RowOf, VerdictOf;
    assert i < j ==> SustainedBy(log[j], a);
    assert j < i ==> SustainedBy(log[i], a);
  }

  lemma KeepsRun(e: Evaluation, before: Table, after: Table, outbox: seq<Event>, log: seq<Step>)
    requires WellFormed(e) && Evaluated(e, before, after, outbox) && IsRun(log, before)
    ensures IsRun(log + [Step(before, e, outbox)], after)
  {
    hide Evaluated, WellFormed;
    var more := log + [Step(before, e, outbox)];
    forall k | 0 <= k < |log| ensures more[k] == log[k] && AfterStep(more, after, k) == AfterStep(log, before, k) {
    }
  }

  /**
    An alert fires only when it is old enough, and when every evaluation since the one that
    inserted it found it active and matched it, held it by maintenance, or could not run its rule.
   */
  lemma FiringWasSustained(engine: Engine, i: nat)
    requires engine.Valid() && engine.log != []
    requires var outbox := engine.log[|engine.log| - 1].outbox;
             i < |outbox| && outbox[i].kind == FiringEvent
    ensures var step := engine.log[|engine.log| - 1];
            var e, fp := step.input, step.outbox[i].alert.fp;
            && WellFormed(e)
            && var v, row := VerdictOf(e, fp), RowOf(engine.alerts, fp);
               && v.Hit? && !Held(e.windows, e.now, v.m.device, v.m.check)
               && row.Some? && row.value.state == Firing && row.value.firedAt == Some(e.now)
               && e.now - row.value.startedAt >= v.rule.forSeconds
               && fp in engine.born && SustainedSince(engine.log, engine.born[fp], row.value)
  {
    hide VerdictOf, RowOf, Next, Becomes, SustainedSince, UniqueActive, EventsAlternate;
    var step := engine.log[|engine.log| - 1];
    var e, before, outbox := step.input, step.before, step.outbox;
    var fp := outbox[i].alert.fp;
    assert Evaluated(e, before, engine.alerts, outbox);
    EventListed(outbox, i);
    EventsFollowState(e, fp, VerdictOf(e, fp), RowOf(before, fp)) by { RowBelongs(before, fp); }
    assert EventsOf(outbox, fp) == Next(e, fp, VerdictOf(e, fp), RowOf(before, fp)).1;
    FiresWhenOldEnough(e, fp, VerdictOf(e, fp), RowOf(before, fp));
  }

  /** An event carries the row it is about: a firing one the active row, a resolved one the row it ended. */
  lemma EventCarriesRow(e: Evaluation, before: Table, after: Table, outbox: seq<Event>, i: nat)
    requires WellFormed(e) && Evaluated(e, before, after, outbox) && UniqueActive(before) && UniqueActive(after) &&
             i < |outbox|
    ensures var a := outbox[i].alert;
            if outbox[i].kind == FiringEvent then
              RowOf(after, a.fp) == Some(a) && a.state == Firing && a.firedAt == Some(e.now)
            else
              exists id :: id in before && id in after && RowOf(before, a.fp) == Some(before[id]) && after[id] == a
                           && a == before[id].(state := Resolved, resolvedAt := Some(e.now), lastEval := e.now)
  {
    hide VerdictOf, Held, RowOf, EventsOf;
    assert Carries(before, after, outbox[i], e.now);
    var id :| CarriesRow(before, after, outbox[i], e.now, id);
    var a := outbox[i].alert;
    if outbox[i].kind == FiringEvent {
      RowIs(after, id, a.fp);
    } else {
      RowIs(before, id, a.fp);
      BecomesNext(e, before[id]);
      assert At(after, id) == Becomes(e, before[id]);
    }
  }

  // ----- what becomes of an alert, in the terms of its fields

  /** When the condition of a match began: as reported, unless that is missing, zero or in the future. */
  ghost predicate StartedAsReported(startedAt: int, since: Option<int>, now: int) {
    && (since == None ==> startedAt == now)
    && (since.Some? && since.value == 0 ==> startedAt == now)
    && (since.Some? && since.value > now ==> startedAt == now)
    && (since.Some? && since.value != 0 && since.value <= now ==> startedAt == since.value)
  }

  /**
    A match outside maintenance opens or refreshes the alert. Unless it was firing already, it fires, with an
    event, iff its age has reached the delay of the rule.
   */
  lemma HitOutcome(e: Evaluation, before: Table, after: Table, outbox: seq<Event>, rule: Rule, m: Match)
    requires WellFormed(e) && Evaluated(e, before, after, outbox)
    requires rule in e.rules && rule.enabled && RuleOutcome(e, rule.id).Matches? && m in RuleOutcome(e, rule.id).list
    requires !Held(e.windows, e.now, m.device, m.check)
    ensures var fp := Fingerprint(rule.id, m.subject);
            && RowOf(after, fp).Some?
            && var old', b := RowOf(before, fp), RowOf(after, fp).value;
               && b.fp == fp && b.detail == m.detail && b.lastEval == e.now
               && (if old'.None? then b.device == m.device && b.check == m.check
                      && StartedAsReported(b.startedAt, m.since, e.now)
                   else b.device == old'.value.device && b.check == old'.value.check && b.startedAt == old'.value.startedAt)
               && (if IsFiring(old') then b.state == Firing && b.firedAt == old'.value.firedAt && EventsOf(outbox, fp) == []
                   else if e.now - b.startedAt >= rule.forSeconds then
                     b.state == Firing && b.firedAt == Some(e.now) && EventsOf(outbox, fp) == [FiringEvent]
                   else b.state == Pending && EventsOf(outbox, fp) == [])
  {
    hide VerdictOf, RowOf, EventsOf, Held, Becomes;
    var fp := Fingerprint(rule.id, m.subject);
    HitVerdict(e, rule, m);
    RowBelongs(before, fp);
    assert (RowOf(after, fp), EventsOf(outbox, fp)) == Next(e, fp, VerdictOf(e, fp), RowOf(before, fp));
  }

  /**
    Without a match, and not held by an enabled rule in maintenance, a pending alert is deleted and a firing
    one resolved, with an event if its rule still exists.
   */
  lemma MissOutcome(e: Evaluation, before: Table, after: Table, outbox: seq<Event>, id: int)
    requires WellFormed(e) && Evaluated(e, before, after, outbox) && UniqueActive(before)
    requires id in before && IsActive(before[id])
    requires var a := before[id];
             var v := VerdictOf(e, a.fp);
             v == Off || v == Gone || (v == Quiet && !Held(e.windows, e.now, a.device, a.check))
    ensures RowOf(after, before[id].fp) == None
    ensures before[id].state == Pending ==> id !in after && EventsOf(outbox, before[id].fp) == []
    ensures before[id].state == Firing ==>
              && id in after
              && after[id] == before[id].(state := Resolved, resolvedAt := Some(e.now), lastEval := e.now)
              && EventsOf(outbox, before[id].fp) == if VerdictOf(e, before[id].fp) == Gone then [] else [ResolvedEvent]
  {
    hide VerdictOf, RowOf, EventsOf, Held, Becomes;
    var a := before[id];
    RowIs(before, id, a.fp);
    assert (RowOf(after, a.fp), EventsOf(outbox, a.fp)) == Next(e, a.fp, VerdictOf(e, a.fp), RowOf(before, a.fp));
    BecomesMissed(e, a);
    assert At(after, id) == Becomes(e, a);
  }

  lemma BecomesMissed(e: Evaluation, a: Alert)
    requires WellFormed(e) && IsActive(a)
    requires var v := VerdictOf(e, a.fp);
             v == Off || v == Gone || (v == Quiet && !Held(e.windows, e.now, a.device, a.check))
    ensures Becomes(e, a) == if a.state == Pending then None
                             else Some(a.(state := Resolved, resolvedAt := Some(e.now), lastEval := e.now))
  {
    hide VerdictOf, Held;
  }

  /** A rule that raises leaves its alerts, their rows and the outbox alone. */
  lemma RaisedOutcome(e: Evaluation, before: Table, after: Table, outbox: seq<Event>, rule: Rule, fp: Fingerprint)
    requires WellFormed(e) && Evaluated(e, before, after, outbox)
    requires rule in e.rules && rule.enabled && rule.id == fp.rule && e.outcomes[rule.id] == Raised
    ensures RowOf(after, fp) == RowOf(before, fp) && EventsOf(outbox, fp) == []
    ensures forall id :: id in before && before[id].fp == fp ==> id in after && after[id] == before[id]
  {
    hide VerdictOf, RowOf, EventsOf, Held;
    assert IsVerdict(e, fp, Failed);
    assert (RowOf(after, fp), EventsOf(outbox, fp)) == Next(e, fp, VerdictOf(e, fp), RowOf(before, fp));
    forall id | id in before && before[id].fp == fp ensures id in after && after[id] == before[id] {
      assert At(after, id) == Becomes(e, before[id]);
    }
  }

  // ----- maintenance

  /** Every match of the fingerprint, and its active row, lie in maintenance. */
  ghost predicate AllHeld(e: Evaluation, row: Option<Alert>, fp: Fingerprint) {
    && (RuleOutcome(e, fp.rule).Matches? ==>
          forall m :: m in RuleOutcome(e, fp.rule).list && m.subject == fp.subject ==>
            Held(e.windows, e.now, m.device, m.check))
    && (row.Some? ==> Held(e.windows, e.now, row.value.device, row.value.check))
  }

  /** The verdicts that are possible under a given rule. */
  lemma VerdictUnderRule(e: Evaluation, rule: Rule, fp: Fingerprint, row: Option<Alert>)
    requires WellFormed(e) && rule in e.rules && rule.id == fp.rule && AllHeld(e, row, fp)
    ensures var v := VerdictOf(e, fp);
            if !rule.enabled then v == Off
            else v != Off && v != Gone && (v.Hit? ==> Held(e.windows, e.now, v.m.device, v.m.check))
  {
    hide VerdictOf, Held;
    var v := VerdictOf(e, fp);
    assert IsVerdict(e, fp, v);
    var k :| 0 <= k < |e.rules| && e.rules[k] == rule;
    if !rule.enabled {
      assert IsVerdict(e, fp, Off);
    }
  }

  /** An evaluation in maintenance leaves the row and the outbox of a fingerprint alone while its rule is enabled. */
  lemma MaintenanceHolds(e: Evaluation, before: Table, after: Table, outbox: seq<Event>, rule: Rule, fp: Fingerprint)
    requires WellFormed(e) && Evaluated(e, before, after, outbox)
    requires rule in e.rules && rule.id == fp.rule && rule.enabled && AllHeld(e, RowOf(before, fp), fp)
    ensures RowOf(after, fp) == RowOf(before, fp) && EventsOf(outbox, fp) == []
  {
    hide VerdictOf, RowOf, EventsOf, Held, Next, Becomes;
    VerdictUnderRule(e, rule, fp, RowOf(before, fp));
    MaintenanceFreezes(e, fp, VerdictOf(e, fp), RowOf(before, fp));
    assert (RowOf(after, fp), EventsOf(outbox, fp)) == Next(e, fp, VerdictOf(e, fp), RowOf(before, fp));
  }

  /**
    In maintenance an active alert stays iff its rule is enabled: a disabled rule ends it, and sends a
    resolved event iff it was firing.
   */
  lemma MaintenanceHoldsIffEnabled(e: Evaluation, before: Table, after: Table, outbox: seq<Event>,
                                   rule: Rule, fp: Fingerprint)
    requires WellFormed(e) && Evaluated(e, before, after, outbox)
    requires rule in e.rules && rule.id == fp.rule && RowOf(before, fp).Some? && AllHeld(e, RowOf(before, fp), fp)
    ensures RowOf(after, fp) == RowOf(before, fp) <==> rule.enabled
    ensures RowOf(after, fp) == None <==> !rule.enabled
    ensures EventsOf(outbox, fp) == if !rule.enabled && IsFiring(RowOf(before, fp)) then [ResolvedEvent] else []
  {
    hide VerdictOf, RowOf, EventsOf, Held, Next, Becomes;
    if rule.enabled {
      MaintenanceHolds(e, before, after, outbox, rule, fp);
    } else {
      VerdictUnderRule(e, rule, fp, RowOf(before, fp));
      DisabledEnds(e, fp, RowOf(before, fp));
      EventsFollowState(e, fp, Off, RowOf(before, fp)) by { RowBelongs(before, fp); }
      assert (RowOf(after, fp), EventsOf(outbox, fp)) == Next(e, fp, Off, RowOf(before, fp));
    }
  }

  lemma {:induction false} EventListed(events: seq<Event>, i: nat)
    requires i < |events|
    ensures events[i].kind in EventsOf(events, events[i].alert.fp)
  {
    if |events| - 1 <= i {
    } else {
      EventListed(events[..|events| - 1], i);
    }
  }

  lemma HeldHit(e: Evaluation, old': Table, alerts: Table, w: Work, w': Work,
                done: set<Fingerprint>, failed: set<nat>, id: int, fp: Fingerprint)
    requires WellFormed(e) && Working(e, old', alerts, w, done, failed) && old'.Keys <= alerts.Keys
    requires fp !in done && fp.rule !in failed
    requires var v := VerdictOf(e, fp); v.Hit? && Held(e.windows, e.now, v.m.device, v.m.check)
    requires id == if fp in w.active then w.active[fp] else FreshId(alerts)
    requires w' == w.(active := w.active - {fp})
    ensures Working(e, old', alerts, w', done + {fp}, failed)
  {
    hide Working, WellFormed, VerdictOf, Held, RowOf, UniqueActive, AfterHit, AfterMiss, FreshId;
    StillThere(e, old', alerts, w, done, failed, fp);
    assert w.outbox + [] == w.outbox;
    Account(e, old', alerts, alerts, w, w', done, failed, id, fp, []);
  }

  lemma OpenHit(e: Evaluation, old': Table, before: Table, after: Table, w: Work, w': Work,
                done: set<Fingerprint>, failed: set<nat>, id: int, fp: Fingerprint, rule: Rule, m: Match, b: Alert)
    requires WellFormed(e) && Working(e, old', before, w, done, failed) && old'.Keys <= before.Keys
    requires fp !in done && fp.rule !in failed
    requires VerdictOf(e, fp) == Hit(rule, m) && !Held(e.windows, e.now, m.device, m.check)
    requires id == if fp in w.active then w.active[fp] else FreshId(before)
    requires after == before[id := b]
    requires var a := Refreshed(fp, RowOf(old', fp), m, e.now);
             && b == Aged(a, rule.forSeconds, e.now)
             && w'.outbox == w.outbox + (if a.state != b.state then [Event(FiringEvent, b)] else [])
             && w'.active == w.active - {fp}
             && w'.stats.fired == w.stats.fired + (if a.state != b.state then 1 else 0)
             && w'.stats.resolved == w.stats.resolved
             && w'.stats.pending == w.stats.pending + (if b.state == Pending then 1 else 0)
             && w'.stats.firing == w.stats.firing + (if b.state == Pending then 0 else 1)
    ensures Working(e, old', after, w', done + {fp}, failed)
  {
    hide Working, WellFormed, VerdictOf, Held, RowOf, UniqueActive, AfterMiss, FreshId;
    StillThere(e, old', before, w, done, failed, fp);
    var a := Refreshed(fp, RowOf(old', fp), m, e.now);
    Account(e, old', before, after, w, w', done, failed, id, fp, if a.state != b.state then [Event(FiringEvent, b)] else []);
  }

  // ----- a disabled rule in maintenance

  /** A firing alert of rule 1, for check 7. */
  const FIRING := Alert(Fingerprint(1, Check(7)), None, Some(7), Firing, "", 10, Some(20), None, 20)
  /** A window for everything is open, and rule 1 has been disabled. */
  const DISABLED := Evaluation([Rule(1, false, 0)], map[], [Window(None, None, 0, 100)], 30)

  /** The evaluation that ends the alert and sends a resolved event in spite of the window. */
  lemma DisabledInMaintenance()
    ensures var resolved := FIRING.(state := Resolved, resolvedAt := Some(30), lastEval := 30);
            && WellFormed(DISABLED) && Held(DISABLED.windows, DISABLED.now, FIRING.device, FIRING.check)
            && RowOf(map[1 := FIRING], FIRING.fp) == Some(FIRING)
            && Evaluated(DISABLED, map[1 := FIRING], map[1 := resolved], [Event(ResolvedEvent, resolved)])
  {
    var resolved := FIRING.(state := Resolved, resolvedAt := Some(30), lastEval := 30);
    var before, after, ev := map[1 := FIRING], map[1 := resolved], Event(ResolvedEvent, resolved);
    assert DISABLED.windows[0].startsAt <= DISABLED.now < DISABLED.windows[0].endsAt;
    assert ActiveAt(before, 1, FIRING.fp);
    forall fp ensures (RowOf(after, fp), EventsOf([ev], fp)) ==
                      Next(DISABLED, fp, VerdictOf(DISABLED, fp), RowOf(before, fp)) {
      OneEvent(ev, fp);
      DisabledVerdict(fp);
      hide VerdictOf, EventsOf;
      assert forall id :: !ActiveAt(after, id, fp);
      if fp == FIRING.fp {
        RowIs(before, 1, fp);
      } else {
        assert forall id :: !ActiveAt(before, id, fp);
      }
    }
    assert CarriesRow(before, after, ev, 30, 1);
  }

  lemma OneEvent(ev: Event, fp: Fingerprint)
    ensures EventsOf([ev], fp) == if ev.alert.fp == fp then [ev.kind] else []
  {
    EventsAppend([], ev, fp);
    assert [] + [ev] == [ev] && EventsOf([], fp) == [];
  }

  lemma DisabledVerdict(fp: Fingerprint)
    ensures WellFormed(DISABLED) && VerdictOf(DISABLED, fp) == if fp.rule == 1 then Off else Gone
  {
    hide VerdictOf;
    assert DISABLED.rules[0].id == 1 && !DISABLED.rules[0].enabled;
    assert IsVerdict(DISABLED, fp, if fp.rule == 1 then Off else Gone);
  }
}
