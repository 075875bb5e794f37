/**
  The alert table during one evaluation: which fingerprints have been dealt with,
  what their rows and events must be, and how the counters follow.
 */
module AlertTable {
  import opened Aggregates
  import opened AlertLifecycle
  import opened Maintenance
  import opened Options

  type Table = map<int, Alert>

  datatype Event = Event(kind: Kind, alert: Alert)

  datatype Stats = Stats(fired: nat, resolved: nat, pending: nat, firing: nat)

  // ----- the table, one fingerprint at a time

  predicate ActiveAt(alerts: Table, id: int, fp: Fingerprint) {
    id in alerts && IsActive(alerts[id]) && alerts[id].fp == fp
  }

  /** At most one pending or firing alert per fingerprint. */
  ghost predicate UniqueActive(alerts: Table) {
    forall i, j, fp :: ActiveAt(alerts, i, fp) && ActiveAt(alerts, j, fp) ==> i == j
  }

  /** The active row of a fingerprint. */
  ghost function RowOf(alerts: Table, fp: Fingerprint): Option<Alert> {
    if exists id :: ActiveAt(alerts, id, fp) then
      var id :| ActiveAt(alerts, id, fp);
      Some(alerts[id])
    else None
  }

  lemma RowIs(alerts: Table, id: int, fp: Fingerprint)
    requires UniqueActive(alerts) && ActiveAt(alerts, id, fp)
    ensures RowOf(alerts, fp) == Some(alerts[id])
  {
  }

  /** Events sent for a fingerprint, oldest first. */
  ghost function EventsOf(events: seq<Event>, fp: Fingerprint): seq<Kind> {
    if events == [] then []
    else
      EventsOf(events[..|events| - 1], fp) +
      if events[|events| - 1].alert.fp == fp then [events[|events| - 1].kind] else []
  }

  lemma EventsAppend(events: seq<Event>, ev: Event, fp: Fingerprint)
    ensures EventsOf(events + [ev], fp) == EventsOf(events, fp) + if ev.alert.fp == fp then [ev.kind] else []
  {
    assert (events + [ev])[..|events|] == events;
  }

  lemma {:induction false} EventsConcat(a: seq<Event>, b: seq<Event>, fp: Fingerprint)
    ensures EventsOf(a + b, fp) == EventsOf(a, fp) + EventsOf(b, fp)
  {
    if b == [] {
      assert a + b == a;
    } else {
      EventsConcat(a, b[..|b| - 1], fp);
      assert a + b == (a + b[..|b| - 1]) + [b[|b| - 1]];
      EventsAppend(a + b[..|b| - 1], b[|b| - 1], fp);
    }
  }

  ghost function FiringIds(alerts: Table): set<int> {
    set id | id in alerts && alerts[id].state == Firing
  }

  /** Tables that agree except on one row, which belongs to `fp`. */
  ghost predicate DiffersAt(before: Table, after: Table, id: int, fp: Fingerprint) {
    && (forall j :: j != id ==> (j in before <==> j in after))
    && (forall j :: j != id && j in before ==> before[j] == after[j])
    && (id in before ==> ActiveAt(before, id, fp))
    && (id !in before ==> RowOf(before, fp) == None)
    && (id in after ==> after[id].fp == fp)
  }

  lemma ChangeRow(before: Table, after: Table, id: int, fp: Fingerprint)
    requires UniqueActive(before) && DiffersAt(before, after, id, fp)
    ensures UniqueActive(after)
    ensures RowOf(after, fp) == if ActiveAt(after, id, fp) then Some(after[id]) else None
    ensures forall f :: f != fp ==> RowOf(after, f) == RowOf(before, f)
  {
    forall j | j != id ensures !ActiveAt(after, j, fp) {
      if ActiveAt(after, j, fp) { assert ActiveAt(before, j, fp); }
    }
    forall f, j | f != fp ensures ActiveAt(after, j, f) <==> ActiveAt(before, j, f) {
    }
    forall i, j, f | ActiveAt(after, i, f) && ActiveAt(after, j, f) ensures i == j {
      if f != fp { assert ActiveAt(before, i, f) && ActiveAt(before, j, f); }
    }
    if ActiveAt(after, id, fp) { RowIs(after, id, fp); }
    forall f | f != fp ensures RowOf(after, f) == RowOf(before, f) {
      SameRow(before, after, f);
    }
  }

  lemma SameRow(before: Table, after: Table, fp: Fingerprint)
    requires UniqueActive(before) && UniqueActive(after)
    requires forall j :: ActiveAt(after, j, fp) <==> ActiveAt(before, j, fp)
    requires forall j :: ActiveAt(before, j, fp) ==> before[j] == after[j]
    ensures RowOf(after, fp) == RowOf(before, fp)
  {
    if j :| ActiveAt(before, j, fp) {
      RowIs(before, j, fp);
      RowIs(after, j, fp);
    }
  }

  // ----- the rows of one evaluation

  /** What becomes of a row: resolved rows stay, active ones follow their verdict or leave the active set. */
  ghost function Becomes(e: Evaluation, a: Alert): Option<Alert>
    requires WellFormed(e)
  {
    if !IsActive(a) then Some(a)
    else
      var next := Next(e, a.fp, VerdictOf(e, a.fp), Some(a));
      if next.0.Some? then next.0
      else if a.state == Pending then None
      else Some(a.(state := Resolved, resolvedAt := Some(e.now), lastEval := e.now))
  }

  /** Fingerprints in `done` have their next row and events, the others their old row and no event. */
  ghost predicate FingerprintsDone(e: Evaluation, old': Table, alerts: Table, outbox: seq<Event>, done: set<Fingerprint>)
    requires WellFormed(e)
  {
    forall fp :: (RowOf(alerts, fp), EventsOf(outbox, fp)) ==
                 if fp in done then Next(e, fp, VerdictOf(e, fp), RowOf(old', fp)) else (RowOf(old', fp), [])
  }

  function At(alerts: Table, id: int): Option<Alert> {
    if id in alerts then Some(alerts[id]) else None
  }

  /** The same, row by row; rows that were not there are active. */
  ghost predicate RowsDone(e: Evaluation, old': Table, alerts: Table, done: set<Fingerprint>)
    requires WellFormed(e)
  {
    && (forall id :: id in old' ==> At(alerts, id) == if old'[id].fp in done then Becomes(e, old'[id]) else Some(old'[id]))
    && (forall id :: id in alerts && id !in old' ==> IsActive(alerts[id]))
  }

  /** The fingerprints in `done` have been dealt with, all others are as they were. */
  ghost predicate Progress(e: Evaluation, old': Table, alerts: Table, outbox: seq<Event>, done: set<Fingerprint>)
    requires WellFormed(e)
  {
    UniqueActive(alerts) && FingerprintsDone(e, old', alerts, outbox, done) && RowsDone(e, old', alerts, done)
  }

  lemma CountChange(before: Table, after: Table, id: int)
    requires forall j :: j != id ==> (j in before <==> j in after)
    requires forall j :: j != id && j in before ==> before[j] == after[j]
    ensures var was := id in before && before[id].state == Firing;
            var now' := id in after && after[id].state == Firing;
            |FiringIds(after)| == |FiringIds(before)| + (if now' then 1 else 0) - (if was then 1 else 0)
  {
    forall j ensures j in FiringIds(before) - {id} <==> j in FiringIds(after) - {id} {
    }
    OneElement(FiringIds(before), FiringIds(after), id);
  }

  lemma OneElement(a: set<int>, b: set<int>, x: int)
    requires a - {x} == b - {x}
    ensures |b| == |a| + (if x in b then 1 else 0) - (if x in a then 1 else 0)
  {
    assert a == (a - {x}) + if x in a then {x} else {};
    assert b == (b - {x}) + if x in b then {x} else {};
  }

  /** The active part of what becomes of an active row is the next row of its fingerprint. */
  lemma BecomesNext(e: Evaluation, a: Alert)
    requires WellFormed(e) && IsActive(a)
    ensures var b := Becomes(e, a);
            && Next(e, a.fp, VerdictOf(e, a.fp), Some(a)).0 == (if b.Some? && IsActive(b.value) then b else None)
            && (b.Some? ==> b.value.fp == a.fp)
  {
    hide VerdictOf, Held;
    EventsFollowState(e, a.fp, VerdictOf(e, a.fp), Some(a));
    SurvivesIffSustained(e, a.fp, VerdictOf(e, a.fp), a);
  }

  /** What row `id` of fingerprint `fp` must be after the evaluation. */
  ghost predicate Settled(e: Evaluation, old': Table, after: Table, id: int, fp: Fingerprint)
    requires WellFormed(e)
  {
    if ActiveAt(old', id, fp) then At(after, id) == Becomes(e, old'[id])
    else
      && id !in old' && RowOf(old', fp) == None
      && At(after, id) == Next(e, fp, VerdictOf(e, fp), None).0
      && (id in after ==> after[id].fp == fp && IsActive(after[id]))
  }

  /** Dealing with one more fingerprint. */
  lemma OneMore(e: Evaluation, old': Table, before: Table, after: Table, outbox: seq<Event>, sent: seq<Event>,
                done: set<Fingerprint>, id: int, fp: Fingerprint)
    requires WellFormed(e) && UniqueActive(old') && Progress(e, old', before, outbox, done) && fp !in done
    requires DiffersAt(before, after, id, fp) && Settled(e, old', after, id, fp)
    requires |sent| <= 1 && (sent != [] ==> sent[0].alert.fp == fp)
    requires Next(e, fp, VerdictOf(e, fp), RowOf(old', fp)).1 == if sent == [] then [] else [sent[0].kind]
    ensures Progress(e, old', after, outbox + sent, done + {fp})
  {
    hide Next, VerdictOf, RowOf, EventsOf, Becomes, FingerprintsDone, RowsDone;
    ChangeRow(before, after, id, fp);
    if ActiveAt(old', id, fp) {
      RowIs(old', id, fp);
      BecomesNext(e, old'[id]);
    }
    OneMoreFingerprint(e, old', before, after, outbox, sent, done, fp);
    OneMoreRow(e, old', before, after, done, id, fp);
  }

  lemma OneMoreFingerprint(e: Evaluation, old': Table, before: Table, after: Table, outbox: seq<Event>, sent: seq<Event>,
                           done: set<Fingerprint>, fp: Fingerprint)
    requires WellFormed(e) && FingerprintsDone(e, old', before, outbox, done) && fp !in done
    requires |sent| <= 1 && (sent != [] ==> sent[0].alert.fp == fp)
    requires (RowOf(after, fp), if sent == [] then [] else [sent[0].kind])
             == Next(e, fp, VerdictOf(e, fp), RowOf(old', fp))
    requires forall f :: f != fp ==> RowOf(after, f) == RowOf(before, f)
    ensures FingerprintsDone(e, old', after, outbox + sent, done + {fp})
  {
    hide Next, VerdictOf, RowOf, EventsOf;
    SentFor(outbox, sent, fp);
    var kinds := if sent == [] then [] else [sent[0].kind];
    assert EventsOf(outbox, fp) == [] && [] + kinds == kinds;
    forall f ensures (RowOf(after, f), EventsOf(outbox + sent, f)) ==
                     if f in done + {fp} then Next(e, f, VerdictOf(e, f), RowOf(old', f)) else (RowOf(old', f), []) {
      assert f == fp || (RowOf(before, f), EventsOf(outbox, f)) ==
                        if f in done then Next(e, f, VerdictOf(e, f), RowOf(old', f)) else (RowOf(old', f), []);
    }
  }

  lemma OneMoreRow(e: Evaluation, old': Table, before: Table, after: Table,
                   done: set<Fingerprint>, id: int, fp: Fingerprint)
    requires WellFormed(e) && UniqueActive(old') && RowsDone(e, old', before, done)
    requires DiffersAt(before, after, id, fp) && Settled(e, old', after, id, fp)
    ensures RowsDone(e, old', after, done + {fp})
  {
    hide Next, VerdictOf, RowOf, Becomes;
    InactiveStays(e);
    forall j | j in old' && j != id && old'[j].fp == fp ensures !IsActive(old'[j]) {
      OnlyRow(old', j, id, fp);
    }
  }

  lemma InactiveStays(e: Evaluation)
    requires WellFormed(e)
    ensures forall a :: !IsActive(a) ==> Becomes(e, a) == Some(a)
  {
  }

  lemma OnlyRow(alerts: Table, j: int, id: int, fp: Fingerprint)
    requires UniqueActive(alerts) && j in alerts && j != id && alerts[j].fp == fp
    requires ActiveAt(alerts, id, fp) || RowOf(alerts, fp) == None
    ensures !IsActive(alerts[j])
  {
    if ActiveAt(alerts, j, fp) {
      RowIs(alerts, j, fp);
    }
  }

  lemma SentFor(outbox: seq<Event>, sent: seq<Event>, fp: Fingerprint)
    requires |sent| <= 1 && (sent != [] ==> sent[0].alert.fp == fp)
    ensures EventsOf(outbox + sent, fp) == EventsOf(outbox, fp) + if sent == [] then [] else [sent[0].kind]
    ensures forall f :: f != fp ==> EventsOf(outbox + sent, f) == EventsOf(outbox, f)
  {
    if sent == [] {
      assert outbox + sent == outbox;
      assert EventsOf(outbox, fp) + [] == EventsOf(outbox, fp);
    } else {
      assert sent == [sent[0]];
      forall f ensures EventsOf(outbox + sent, f) == EventsOf(outbox, f) + if f == fp then [sent[0].kind] else [] {
        EventsAppend(outbox, sent[0], f);
      }
      assert forall f :: EventsOf(outbox, f) + [] == EventsOf(outbox, f);
    }
  }

  /** SQLite's next row id. */
  function FreshId(alerts: Table): (id: int)
    ensures id !in alerts
  {
    if alerts.Keys == {} then 1 else MaxOf(alerts.Keys) + 1
  }

  // ----- the working state of one evaluation

  /** The dictionary of active alerts (row ids), the outbox and the counters. */
  datatype Work = Work(active: map<Fingerprint, int>, outbox: seq<Event>, stats: Stats)

  /** Events of one kind. */
  ghost function CountKind(events: seq<Event>, kind: Kind): nat {
    if events == [] then 0
    else CountKind(events[..|events| - 1], kind) + if events[|events| - 1].kind == kind then 1 else 0
  }

  lemma CountKindAppend(events: seq<Event>, ev: Event, kind: Kind)
    ensures CountKind(events + [ev], kind) == CountKind(events, kind) + if ev.kind == kind then 1 else 0
  {
    assert (events + [ev])[..|events|] == events;
  }

  /** Fingerprints matched outside maintenance whose row is now in state `st`. */
  ghost function Seen(e: Evaluation, old': Table, done: set<Fingerprint>, st: AlertState): set<Fingerprint>
    requires WellFormed(e)
  {
    set fp | fp in done && SeenAs(e, old', fp, st)
  }

  ghost predicate SeenAs(e: Evaluation, old': Table, fp: Fingerprint, st: AlertState)
    requires WellFormed(e)
  {
    var v := VerdictOf(e, fp);
    && v.Hit? && !Held(e.windows, e.now, v.m.device, v.m.check)
    && Next(e, fp, v, RowOf(old', fp)).0.Some?
    && Next(e, fp, v, RowOf(old', fp)).0.value.state == st
  }

  lemma SeenMore(e: Evaluation, old': Table, done: set<Fingerprint>, fp: Fingerprint, st: AlertState)
    requires WellFormed(e) && fp !in done
    ensures |Seen(e, old', done + {fp}, st)| == |Seen(e, old', done, st)| + if SeenAs(e, old', fp, st) then 1 else 0
  {
    hide SeenAs;
    var a, b := Seen(e, old', done, st), Seen(e, old', done + {fp}, st);
    forall f ensures f in b <==> f in a || (SeenAs(e, old', fp, st) && f == fp) {
    }
    OneMoreElement(a, b, fp, SeenAs(e, old', fp, st));
  }

  lemma OneMoreElement(a: set<Fingerprint>, b: set<Fingerprint>, x: Fingerprint, added: bool)
    requires x !in a && forall y :: y in b <==> y in a || (added && y == x)
    ensures |b| == |a| + if added then 1 else 0
  {
    assert b == if added then a + {x} else a;
  }

  ghost predicate CountsRight(e: Evaluation, old': Table, alerts: Table, w: Work, done: set<Fingerprint>)
    requires WellFormed(e)
  {
    && |FiringIds(alerts)| == |FiringIds(old')| + w.stats.fired - w.stats.resolved
    && w.stats.fired == CountKind(w.outbox, FiringEvent)
    && w.stats.pending == |Seen(e, old', done, Pending)|
    && w.stats.firing == |Seen(e, old', done, Firing)|
  }

  /** `active` holds the old active rows that are neither dealt with nor left alone because their rule failed. */
  ghost predicate ActiveIs(old': Table, active: map<Fingerprint, int>, done: set<Fingerprint>, failed: set<nat>) {
    && (forall fp :: fp in active <==> RowOf(old', fp).Some? && fp !in done && fp.rule !in failed)
    && (forall fp :: fp in active ==> ActiveAt(old', active[fp], fp))
  }

  /** Row `id` is what the event carries: it fired now, or it was active before and was resolved now. */
  ghost predicate CarriesRow(old': Table, alerts: Table, ev: Event, now: int, id: int) {
    && id in alerts && alerts[id] == ev.alert
    && match ev.kind
       case FiringEvent => ev.alert.state == Firing && ev.alert.firedAt == Some(now)
       case ResolvedEvent =>
         ev.alert.state == Resolved && ev.alert.resolvedAt == Some(now) && ActiveAt(old', id, ev.alert.fp)
  }

  ghost predicate Carries(old': Table, alerts: Table, ev: Event, now: int) {
    exists id :: CarriesRow(old', alerts, ev, now, id)
  }

  ghost predicate EventsCarryRows(old': Table, alerts: Table, outbox: seq<Event>, now: int, done: set<Fingerprint>) {
    forall i :: 0 <= i < |outbox| ==> Carries(old', alerts, outbox[i], now) && outbox[i].alert.fp in done
  }

  /** Events sent before carry rows of other fingerprints, which the change of row `id` leaves alone. */
  lemma StillCarried(old': Table, before: Table, after: Table, outbox: seq<Event>, sent: seq<Event>, now: int,
                     done: set<Fingerprint>, id: int, fp: Fingerprint)
    requires EventsCarryRows(old', before, outbox, now, done) && fp !in done && DiffersAt(before, after, id, fp)
    requires |sent| <= 1 && (sent != [] ==> sent[0].alert.fp == fp && CarriesRow(old', after, sent[0], now, id))
    ensures EventsCarryRows(old', after, outbox + sent, now, done + {fp})
  {
    forall i | 0 <= i < |outbox| ensures Carries(old', after, outbox[i], now) {
      assert Carries(old', before, outbox[i], now) && outbox[i].alert.fp in done;
      var j :| CarriesRow(old', before, outbox[i], now, j);
      assert CarriesRow(old', after, outbox[i], now, j);
    }
  }

  ghost predicate Working(e: Evaluation, old': Table, alerts: Table, w: Work, done: set<Fingerprint>, failed: set<nat>)
    requires WellFormed(e)
  {
    && UniqueActive(old')
    && Progress(e, old', alerts, w.outbox, done)
    && ActiveIs(old', w.active, done, failed)
    && CountsRight(e, old', alerts, w, done)
    && EventsCarryRows(old', alerts, w.outbox, e.now, done)
  }

  /** The row of a fingerprint that has not been dealt with is still the old one. */
  lemma StillThere(e: Evaluation, old': Table, alerts: Table, w: Work,
                   done: set<Fingerprint>, failed: set<nat>, fp: Fingerprint)
    requires WellFormed(e) && Working(e, old', alerts, w, done, failed) && fp !in done
    ensures RowOf(alerts, fp) == RowOf(old', fp)
    ensures fp in w.active ==>
              var id := w.active[fp];
              ActiveAt(old', id, fp) && ActiveAt(alerts, id, fp) &&
              alerts[id] == old'[id] && RowOf(old', fp) == Some(old'[id])
    ensures fp !in w.active && fp.rule !in failed ==> RowOf(old', fp) == None
    ensures forall id :: id !in alerts && RowOf(old', fp) == None ==> id !in old' || old'[id].fp != fp || !IsActive(old'[id])
  {
    hide RowOf, Next, VerdictOf, Becomes, EventsOf;
    if fp in w.active {
      RowIs(old', w.active[fp], fp);
    }
    forall id | ActiveAt(old', id, fp) ensures RowOf(old', fp) != None {
      RowIs(old', id, fp);
    }
  }

  /** Bookkeeping when `fp` has been dealt with by changing row `id`. */
  lemma Account(e: Evaluation, old': Table, before: Table, after: Table, w: Work, w': Work,
                done: set<Fingerprint>, failed: set<nat>, id: int, fp: Fingerprint, sent: seq<Event>)
    requires WellFormed(e) && Working(e, old', before, w, done, failed) && fp !in done && fp.rule !in failed
    requires DiffersAt(before, after, id, fp) && Settled(e, old', after, id, fp)
    requires |sent| <= 1 && (sent != [] ==> sent[0].alert.fp == fp && CarriesRow(old', after, sent[0], e.now, id))
    requires Next(e, fp, VerdictOf(e, fp), RowOf(old', fp)).1 == if sent == [] then [] else [sent[0].kind]
    requires w'.outbox == w.outbox + sent && w'.active == w.active - {fp}
    requires var was := id in before && before[id].state == Firing;
             var fires := id in after && after[id].state == Firing;
             && w'.stats.fired == w.stats.fired + (if !was && fires then 1 else 0)
             && w'.stats.resolved == w.stats.resolved + (if was && !fires then 1 else 0)
             && w'.stats.fired == w.stats.fired + (if sent != [] && sent[0].kind == FiringEvent then 1 else 0)
             && w'.stats.pending == w.stats.pending + (if SeenAs(e, old', fp, Pending) then 1 else 0)
             && w'.stats.firing == w.stats.firing + (if SeenAs(e, old', fp, Firing) then 1 else 0)
    ensures Working(e, old', after, w', done + {fp}, failed)
  {
    hide Next, VerdictOf, RowOf, EventsOf, Becomes, Progress, SeenAs, Seen, Settled, CarriesRow, EventsCarryRows;
    StillCarried(old', before, after, w.outbox, sent, e.now, done, id, fp);
    OneMore(e, old', before, after, w.outbox, sent, done, id, fp);
    CountChange(before, after, id);
    SeenMore(e, old', done, fp, Pending);
    SeenMore(e, old', done, fp, Firing);
    if sent != [] {
      assert sent == [sent[0]];
      CountKindAppend(w.outbox, sent[0], FiringEvent);
    } else {
      assert w.outbox + sent == w.outbox;
    }
  }
}
