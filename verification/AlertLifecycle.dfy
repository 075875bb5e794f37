/**
  The life of one alert: what one evaluation does to the alert of one fingerprint.

  Nothing here knows about the order of rules, the dictionary of active alerts or
  the alert table; module AlertEngine proves that a whole evaluation does this for
  every fingerprint at once.
 */
module AlertLifecycle {
  import opened Decimal
  import opened Maintenance
  import opened Options

  datatype Subject = Metric(id: nat) | Check(id: nat) | Device(id: nat) | Host(name: string)

  /** Identity of an alert. */
  datatype Fingerprint = Fingerprint(rule: nat, subject: Subject)

  function SubjectText(s: Subject): string {
    match s
    case Metric(id) => ['m'] + Numeral(id)
    case Check(id) => ['c'] + Numeral(id)
    case Device(id) => ['d'] + Numeral(id)
    case Host(name) => ['h'] + name
  }

  /** `r<rule>:m<metric>`, `r<rule>:c<check>`, `r<rule>:d<device>` or `r<rule>:h<host>`. */
  function Text(fp: Fingerprint): string {
    ['r'] + (Numeral(fp.rule) + ([':'] + SubjectText(fp.subject)))
  }

  /** The printed fingerprint identifies rule and subject, whatever a host is called. */
  lemma TextInjective(a: Fingerprint, b: Fingerprint)
    ensures Text(a) == Text(b) ==> a == b
  {
    hide Numeral, DigitsLength;
    if Text(a) == Text(b) {
      var x, y := Numeral(a.rule), Numeral(b.rule);
      ValueOfNumeral(a.rule);
      ValueOfNumeral(b.rule);
      var s, t := [':'] + SubjectText(a.subject), [':'] + SubjectText(b.subject);
      DigitsLengthOf(x, s);
      DigitsLengthOf(y, t);
      assert Text(a)[1..] == x + s && Text(b)[1..] == y + t;
      assert (x + s)[..|x|] == x && (y + t)[..|y|] == y;
      assert (x + s)[|x|..] == s && (y + t)[|y|..] == t;
      assert s[1..] == SubjectText(a.subject) && t[1..] == SubjectText(b.subject);
      SubjectTextInjective(a.subject, b.subject);
    }
  }

  lemma SubjectTextInjective(a: Subject, b: Subject)
    requires SubjectText(a) == SubjectText(b)
    ensures a == b
  {
    hide Numeral;
    var s, t := SubjectText(a), SubjectText(b);
    assert s[0] == t[0] && s[1..] == t[1..];
    if a.Host? {
      assert s[1..] == a.name && t[1..] == b.name;
    } else {
      ValueOfNumeral(a.id);
      ValueOfNumeral(b.id);
      assert s[1..] == Numeral(a.id) && t[1..] == Numeral(b.id);
    }
  }

  /** The kind of a subject is one letter. */
  lemma TextExamples()
    ensures Text(Fingerprint(3, Metric(12))) == "r3:m12" && Text(Fingerprint(3, Check(12))) == "r3:c12"
    ensures Text(Fingerprint(3, Device(12))) == "r3:d12" && Text(Fingerprint(3, Host("db"))) == "r3:hdb"
  {
    assert Numeral(1) == "1" && Numeral(3) == "3";
    assert Numeral(12) == "12";
  }

  datatype AlertState = Pending | Firing | Resolved

  /** A row of the alert table; `detail` stands for value, message and subject line. */
  datatype Alert = Alert(fp: Fingerprint, device: Option<int>, check: Option<int>, state: AlertState, detail: string,
                         startedAt: int, firedAt: Option<int>, resolvedAt: Option<int>, lastEval: int)

  predicate IsActive(a: Alert) { a.state != Resolved }

  /** One hit of a rule. */
  datatype Match = Match(subject: Subject, device: Option<int>, check: Option<int>, since: Option<int>, detail: string)

  /** What `evaluate_rule` gives: its matches, or an exception. */
  datatype Outcome = Raised | Matches(list: seq<Match>)

  datatype Rule = Rule(id: nat, enabled: bool, forSeconds: int)

  /** The input of one evaluation. */
  datatype Evaluation = Evaluation(rules: seq<Rule>, outcomes: map<nat, Outcome>, windows: seq<Window>, now: int)

  /** Rule ids and, within one rule, subjects are unique: they are keys of the queries that produce them. */
  ghost predicate WellFormed(e: Evaluation) {
    && (forall i, j :: 0 <= i < j < |e.rules| ==> e.rules[i].id != e.rules[j].id)
    && (forall i :: 0 <= i < |e.rules| && e.rules[i].enabled ==> e.rules[i].id in e.outcomes)
    && (forall r :: r in e.outcomes && e.outcomes[r].Matches? ==> DistinctSubjects(e.outcomes[r].list))
  }

  ghost predicate DistinctSubjects(list: seq<Match>) {
    forall i, j :: 0 <= i < j < |list| ==> list[i].subject != list[j].subject
  }

  /** What an evaluation says about a fingerprint. */
  datatype Verdict =
    | Gone                        // the rule does not exist
    | Off                         // the rule is disabled
    | Failed                      // the rule raised an exception
    | Quiet                       // the rule ran and did not match
    | Hit(rule: Rule, m: Match)

  ghost predicate IsVerdict(e: Evaluation, fp: Fingerprint, v: Verdict) {
    match v
    case Gone => forall i :: 0 <= i < |e.rules| ==> e.rules[i].id != fp.rule
    case Off => exists i :: 0 <= i < |e.rules| && e.rules[i].id == fp.rule && !e.rules[i].enabled
    case Failed =>
      exists i :: 0 <= i < |e.rules| && e.rules[i].id == fp.rule && e.rules[i].enabled && RuleOutcome(e, fp.rule) == Raised
    case Quiet =>
      && (exists i :: 0 <= i < |e.rules| && e.rules[i].id == fp.rule && e.rules[i].enabled)
      && RuleOutcome(e, fp.rule).Matches?
      && forall m :: m in RuleOutcome(e, fp.rule).list ==> m.subject != fp.subject
    case Hit(rule, m) =>
      && rule in e.rules && rule.id == fp.rule && rule.enabled
      && RuleOutcome(e, fp.rule).Matches?
      && m in RuleOutcome(e, fp.rule).list && m.subject == fp.subject
  }

  ghost function RuleOutcome(e: Evaluation, rule: nat): Outcome {
    if rule in e.outcomes then e.outcomes[rule] else Raised
  }

  /** Every fingerprint gets a verdict, and only one. */
  ghost function VerdictOf(e: Evaluation, fp: Fingerprint): (v: Verdict)
    requires WellFormed(e)
    ensures IsVerdict(e, fp, v)
    ensures forall w :: IsVerdict(e, fp, w) ==> w == v
  {
    VerdictExists(e, fp);
    var v :| IsVerdict(e, fp, v);
    forall w | IsVerdict(e, fp, w) ensures w == v { VerdictUnique(e, fp, v, w); }
    v
  }

  lemma VerdictExists(e: Evaluation, fp: Fingerprint)
    ensures exists v :: IsVerdict(e, fp, v)
  {
    if forall i :: 0 <= i < |e.rules| ==> e.rules[i].id != fp.rule {
      assert IsVerdict(e, fp, Gone);
    } else {
      var i :| 0 <= i < |e.rules| && e.rules[i].id == fp.rule;
      var o := RuleOutcome(e, fp.rule);
      if !e.rules[i].enabled {
        assert IsVerdict(e, fp, Off);
      } else if o == Raised {
        assert IsVerdict(e, fp, Failed);
      } else if m :| m in o.list && m.subject == fp.subject {
        assert IsVerdict(e, fp, Hit(e.rules[i], m));
      } else {
        assert IsVerdict(e, fp, Quiet);
      }
    }
  }

  lemma VerdictUnique(e: Evaluation, fp: Fingerprint, v: Verdict, w: Verdict)
    requires WellFormed(e) && IsVerdict(e, fp, v) && IsVerdict(e, fp, w)
    ensures v == w
  {
    if v.Hit? && w.Hit? {
      SameMatch(RuleOutcome(e, fp.rule).list, v.m, w.m);
    }
  }

  lemma SameMatch(list: seq<Match>, a: Match, b: Match)
    requires DistinctSubjects(list) && a in list && b in list && a.subject == b.subject
    ensures a == b
  {
  }

  datatype Kind = FiringEvent | ResolvedEvent

  /** When the condition began: not in the future, and not unknown. */
  function StartOf(m: Match, now: int): int {
    if m.since.Some? && m.since.value != 0 && m.since.value <= now then m.since.value else now
  }

  /** The row of a matched fingerprint before its age is looked at. */
  function Refreshed(fp: Fingerprint, row: Option<Alert>, m: Match, now: int): Alert {
    if row.None? then Alert(fp, m.device, m.check, Pending, m.detail, StartOf(m, now), None, None, now)
    else row.value.(detail := m.detail, lastEval := now)
  }

  /** Pending alerts fire once they are old enough. */
  function Aged(a: Alert, forSeconds: int, now: int): Alert {
    if a.state == Pending && now - a.startedAt >= forSeconds then a.(state := Firing, firedAt := Some(now)) else a
  }

  /** A match outside maintenance refreshes or opens the alert, and may make it fire. */
  function AfterHit(fp: Fingerprint, row: Option<Alert>, rule: Rule, m: Match, now: int): (Option<Alert>, seq<Kind>) {
    var a := Refreshed(fp, row, m, now);
    var b := Aged(a, rule.forSeconds, now);
    (Some(b), if a.state != b.state then [FiringEvent] else [])
  }

  /** Without a match a firing alert is resolved and a pending one forgotten, unless maintenance holds it. */
  function AfterMiss(a: Alert, ruleExists: bool, held: bool): (Option<Alert>, seq<Kind>) {
    if held then (Some(a), [])
    else if a.state == Pending then (None, [])
    else (None, if ruleExists then [ResolvedEvent] else [])
  }

  /** The active row of a fingerprint, if any, and the events sent for it, after an evaluation. */
  function Next(e: Evaluation, fp: Fingerprint, v: Verdict, row: Option<Alert>): (Option<Alert>, seq<Kind>) {
    if v.Failed? then (row, [])
    else if v.Hit? then
      if Held(e.windows, e.now, v.m.device, v.m.check) then (row, []) else AfterHit(fp, row, v.rule, v.m, e.now)
    else
      match row
      case None => (None, [])
      case Some(a) => AfterMiss(a, !v.Gone?, v.Quiet? && Held(e.windows, e.now, a.device, a.check))
  }

  // ----- what one evaluation can and cannot do

  /** The evaluation gives no reason to end the alert. */
  ghost predicate Sustains(e: Evaluation, v: Verdict, a: Alert) {
    v.Hit? || v.Failed? || (v.Quiet? && Held(e.windows, e.now, a.device, a.check))
  }

  /** An active alert survives an evaluation iff that sustains it; it keeps its identity and its start. */
  lemma SurvivesIffSustained(e: Evaluation, fp: Fingerprint, v: Verdict, a: Alert)
    ensures Next(e, fp, v, Some(a)).0.Some? <==> Sustains(e, v, a)
    ensures var b := Next(e, fp, v, Some(a)).0;
            b.Some? ==>
              && b.value.fp == a.fp && b.value.startedAt == a.startedAt
              && b.value.device == a.device && b.value.check == a.check
              && (a.state == Firing ==> b.value.state == Firing && b.value.firedAt == a.firedAt)
  {
  }

  /** An alert appears only for a match outside maintenance, and starts no later than now. */
  lemma AppearsOnlyWhenHit(e: Evaluation, fp: Fingerprint, v: Verdict)
    ensures Next(e, fp, v, None).0.Some? <==> v.Hit? && !Held(e.windows, e.now, v.m.device, v.m.check)
    ensures Next(e, fp, v, None).0.Some? ==> Next(e, fp, v, None).0.value.startedAt <= e.now
  {
  }

  /** Maintenance under an enabled rule changes neither the row nor the outbox. */
  lemma MaintenanceFreezes(e: Evaluation, fp: Fingerprint, v: Verdict, row: Option<Alert>)
    requires v.Hit? ==> Held(e.windows, e.now, v.m.device, v.m.check)
    requires v.Quiet? && row.Some? ==> Held(e.windows, e.now, row.value.device, row.value.check)
    requires v != Off && v != Gone
    ensures Next(e, fp, v, row) == (row, [])
  {
  }

  /** A disabled rule ends its alerts even in maintenance. */
  lemma DisabledEnds(e: Evaluation, fp: Fingerprint, row: Option<Alert>)
    ensures Next(e, fp, Off, row).0 == None
    ensures row.Some? && row.value.state == Firing ==> Next(e, fp, Off, row).1 == [ResolvedEvent]
  {
  }

  /** Events go out exactly when the row becomes firing, or stops being firing while its rule exists. */
  lemma EventsFollowState(e: Evaluation, fp: Fingerprint, v: Verdict, row: Option<Alert>)
    requires row.Some? ==> IsActive(row.value)
    ensures var was := row.Some? && row.value.state == Firing;
            var r := Next(e, fp, v, row);
            var fires := r.0.Some? && r.0.value.state == Firing;
            r.1 == if !was && fires then [FiringEvent] else if was && !fires && v != Gone then [ResolvedEvent] else []
    ensures Next(e, fp, v, row).0.Some? ==> IsActive(Next(e, fp, v, row).0.value)
  {
  }

  /** A firing event means that the condition has been on for the rule's delay and holds now. */
  lemma FiresWhenOldEnough(e: Evaluation, fp: Fingerprint, v: Verdict, row: Option<Alert>)
    requires Next(e, fp, v, row).1 == [FiringEvent]
    ensures v.Hit? && !Held(e.windows, e.now, v.m.device, v.m.check)
    ensures var b := Next(e, fp, v, row).0.value;
            e.now - b.startedAt >= v.rule.forSeconds && b.firedAt == Some(e.now)
  {
  }
}
