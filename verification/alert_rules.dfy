/** The alert table and rule evaluation: dwell time, deduplication by fingerprint, resolution. Times are microseconds. */
module AlertRules {
  import opened Numbers
  import opened Wrappers

  type AlertId = nat

  /** An alert row; `incident` is written by ingestion, everything else by rule evaluation. */
  datatype Alert = Alert(ref: int, environment: int, service: int, fingerprint: int, firing: bool, firedAt: int,
                         resolvedAt: Option<int>, observed: Option<real>, incident: Option<nat>)

  datatype Comparison = Gt | Gte | Lt | Lte | Eq

  function Abs(x: real): real { if x < 0.0 then -x else x }

  predicate Compare(c: Comparison, a: real, b: real) {
    match c
    case Gt => a > b
    case Gte => a >= b
    case Lt => a < b
    case Lte => a <= b
    case Eq => Abs(a - b) < 0.000000001
  }

  /** What the five comparisons mean, by how they relate and where they hold. */
  lemma ComparisonLaws(a: real, b: real)
    ensures a > b ==> Compare(Gt, a, b) && !Compare(Lt, a, b)
    ensures !Compare(Gt, a, a) && (Compare(Gt, a, b) <==> Compare(Lt, b, a))
    ensures (Compare(Gte, a, b) <==> !Compare(Lt, a, b)) && (Compare(Lte, a, b) <==> !Compare(Gt, a, b))
    ensures Compare(Eq, a, b) <==> -0.000000001 < a - b < 0.000000001
  {
  }

  /** `series`: the signal kind is a metric, resource or latency series. */
  datatype Config = Config(enabled: bool, environment: int, series: bool, comparison: Comparison, threshold: real,
                           forSeconds: int, windowSeconds: int)

  /** The runtime columns of a rule row. */
  datatype RuleState = RuleState(breachingSince: Option<int>, active: Option<AlertId>, lastEvaluated: Option<int>)

  const FRESH := RuleState(None, None, None)

  datatype Sample = Sample(ts: int, value: real)

  /**
   What one pass reads for one service of the rule: the service's fingerprint under this rule, the evaluated
   signal, and the metric rows of the look-back range, latest first. `ref` is the random reference a new alert
   would get.
   */
  datatype Reading = Reading(service: int, ref: int, fingerprint: int, breaching: bool, observed: Option<real>,
                             rows: seq<Sample>)

  // ----- when the breach began -------------------------------------------------------------

  predicate Breaches(cfg: Config, s: Sample) { Compare(cfg.comparison, s.value, cfg.threshold) }

  /** The rows before the first non-breaching one, counted from the latest. */
  function BreachRun(cfg: Config, rows: seq<Sample>): (n: nat)
    ensures n <= |rows| && (forall i :: 0 <= i < n ==> Breaches(cfg, rows[i]))
    ensures n < |rows| ==> !Breaches(cfg, rows[n])
  {
    if rows == [] || !Breaches(cfg, rows[0]) then 0 else 1 + BreachRun(cfg, rows[1..])
  }

  function Started(cfg: Config, r: Reading, now: int): int {
    if !cfg.series then now - cfg.windowSeconds * SECOND
    else if BreachRun(cfg, r.rows) == 0 then now
    else r.rows[BreachRun(cfg, r.rows) - 1].ts
  }

  lemma {:induction false} BreachRunIs(cfg: Config, rows: seq<Sample>, n: nat)
    requires n <= |rows| && forall i :: 0 <= i < n ==> Breaches(cfg, rows[i])
    requires n < |rows| ==> !Breaches(cfg, rows[n])
    ensures BreachRun(cfg, rows) == n
    decreases |rows|
  {
    if n > 0 {
      BreachRunIs(cfg, rows[1..], n - 1);
    }
  }

  /** The first `n` rows are the unbroken run of breaching rows, counted from the latest. */
  ghost predicate LatestRun(cfg: Config, rows: seq<Sample>, n: nat) {
    && n <= |rows| && (forall i :: 0 <= i < n ==> Compare(cfg.comparison, rows[i].value, cfg.threshold))
    && (n < |rows| ==> !Compare(cfg.comparison, rows[n].value, cfg.threshold))
  }

  predicate LatestFirst(rows: seq<Sample>) { forall i, j :: 0 <= i < j < |rows| ==> rows[i].ts >= rows[j].ts }

  /** `_breach_since`: the time of the oldest row of the latest unbroken run, and no later than any row of it. */
  method BreachSince(cfg: Config, r: Reading, now: int) returns (started: int)
    ensures !cfg.series ==> started == now - cfg.windowSeconds * 1_000_000
    ensures cfg.series ==> exists n: nat ::
              LatestRun(cfg, r.rows, n) && started == if n == 0 then now else r.rows[n - 1].ts
    ensures cfg.series && LatestFirst(r.rows) ==>
              forall n: nat :: LatestRun(cfg, r.rows, n) ==> forall i :: 0 <= i < n ==> started <= r.rows[i].ts
    ensures started == Started(cfg, r, now)
  {
    if !cfg.series {
      return now - cfg.windowSeconds * SECOND;
    }
    StartedIs(cfg, r, now);
    started := now;
    for i := 0 to |r.rows|
      invariant forall j :: 0 <= j < i ==> Breaches(cfg, r.rows[j])
      invariant started == if i == 0 then now else r.rows[i - 1].ts
    {
      if Compare(cfg.comparison, r.rows[i].value, cfg.threshold) {
        started := r.rows[i].ts;
      } else {
        BreachRunIs(cfg, r.rows, i);
        return;
      }
    }
    BreachRunIs(cfg, r.rows, |r.rows|);
  }

  lemma StartedIs(cfg: Config, r: Reading, now: int)
    requires cfg.series
    ensures exists n: nat :: LatestRun(cfg, r.rows, n) && Started(cfg, r, now) == if n == 0 then now else r.rows[n - 1].ts
    ensures LatestFirst(r.rows) ==>
              forall n: nat :: LatestRun(cfg, r.rows, n) ==> forall i :: 0 <= i < n ==> Started(cfg, r, now) <= r.rows[i].ts
  {
    assert LatestRun(cfg, r.rows, BreachRun(cfg, r.rows));
    forall n: nat | LatestRun(cfg, r.rows, n)
      ensures n == BreachRun(cfg, r.rows)
    {
      BreachRunIs(cfg, r.rows, n);
    }
  }

  // ----- one pass --------------------------------------------------------------------------

  predicate FiringWith(alerts: seq<Alert>, a: int, fp: int) {
    0 <= a < |alerts| && alerts[a].firing && alerts[a].fingerprint == fp
  }

  predicate Firing(alerts: seq<Alert>, a: int) { 0 <= a < |alerts| && alerts[a].firing }

  function FindFiring(alerts: seq<Alert>, fp: int): (found: Option<AlertId>)
    ensures found.Some? ==> FiringWith(alerts, found.value, fp)
    ensures found.None? ==> forall a :: !FiringWith(alerts, a, fp)
  {
    if alerts == [] then None
    else if alerts[|alerts| - 1].firing && alerts[|alerts| - 1].fingerprint == fp then Some(|alerts| - 1)
    else
      var found := FindFiring(alerts[..|alerts| - 1], fp);
      assert forall a :: FiringWith(alerts, a, fp) ==> FiringWith(alerts[..|alerts| - 1], a, fp);
      found
  }

  /** Where a firing of the fingerprint is recorded: the alert already firing, or the next new row. */
  function Target(alerts: seq<Alert>, fp: int): AlertId {
    if FindFiring(alerts, fp).Some? then FindFiring(alerts, fp).value else |alerts|
  }

  datatype Progress = Progress(rule: RuleState, alerts: seq<Alert>, anyBreach: bool)

  function Created(cfg: Config, r: Reading, now: int): Alert {
    Alert(r.ref, cfg.environment, r.service, r.fingerprint, true, now, None, r.observed, None)
  }

  function FireOrRefresh(cfg: Config, rule: RuleState, alerts: seq<Alert>, r: Reading, now: int)
    : (RuleState, seq<Alert>)
  {
    match FindFiring(alerts, r.fingerprint)
    case Some(a) => (rule, alerts[a := alerts[a].(observed := r.observed)])
    case None => (rule.(active := Some(|alerts|)), alerts + [Created(cfg, r, now)])
  }

  function Earlier(since: Option<int>, started: int): int {
    if since.None? || started < since.value then started else since.value
  }

  /** One service's part of a pass. */
  function Consider(cfg: Config, p: Progress, r: Reading, now: int): Progress {
    if !r.breaching then p
    else
      var since := Earlier(p.rule.breachingSince, Started(cfg, r, now));
      var rule := p.rule.(breachingSince := Some(since));
      if now - since >= cfg.forSeconds * SECOND then
        var (rule', alerts') := FireOrRefresh(cfg, rule, p.alerts, r, now);
        Progress(rule', alerts', true)
      else Progress(rule, p.alerts, true)
  }

  function ConsiderAll(cfg: Config, p: Progress, rs: seq<Reading>, now: int): Progress {
    if rs == [] then p else Consider(cfg, ConsiderAll(cfg, p, rs[..|rs| - 1], now), rs[|rs| - 1], now)
  }

  /** The alert that considering one reading fires or refreshes, if its dwell time is over. */
  function FiredBy(cfg: Config, p: Progress, r: Reading, now: int): Option<AlertId> {
    if !r.breaching || now - Earlier(p.rule.breachingSince, Started(cfg, r, now)) < cfg.forSeconds * SECOND then None
    else Some(Target(p.alerts, r.fingerprint))
  }

  /** The last one of a pass. */
  function LastFired(cfg: Config, p: Progress, rs: seq<Reading>, now: int): Option<AlertId> {
    if rs == [] then None
    else
      var front := rs[..|rs| - 1];
      var f := FiredBy(cfg, ConsiderAll(cfg, p, front, now), rs[|rs| - 1], now);
      if f.Some? then f else LastFired(cfg, p, front, now)
  }

  function ResolveActive(active: Option<AlertId>, alerts: seq<Alert>, now: int): seq<Alert> {
    if active.Some? && active.value < |alerts| && alerts[active.value].firing
    then alerts[active.value := alerts[active.value].(firing := false, resolvedAt := Some(now))]
    else alerts
  }

  /** `evaluate_rule`, given the readings of the services in the rule's scope. */
  function Pass(cfg: Config, rule: RuleState, alerts: seq<Alert>, rs: seq<Reading>, now: int): (RuleState, seq<Alert>) {
    if !cfg.enabled then (rule, alerts)
    else
      var p := ConsiderAll(cfg, Progress(rule, alerts, false), rs, now);
      if p.anyBreach then (p.rule.(lastEvaluated := Some(now)), p.alerts)
      else (p.rule.(breachingSince := None, active := None, lastEvaluated := Some(now)),
            ResolveActive(p.rule.active, p.alerts, now))
  }

  class AlertRule {
    const cfg: Config
    var breachingSince: Option<int>
    var active: Option<AlertId>
    var lastEvaluated: Option<int>

    function ToState(): RuleState
      reads this
    {
      RuleState(breachingSince, active, lastEvaluated)
    }

    constructor (cfg: Config)
      ensures this.cfg == cfg && ToState() == FRESH
    {
      this.cfg := cfg;
      breachingSince, active, lastEvaluated := None, None, None;
    }
  }

  class AlertTable {
    var alerts: seq<Alert>

    constructor ()
      ensures alerts == []
    {
      alerts := [];
    }

    /**
     Afterwards exactly one alert more than before carries the reading if none of its fingerprint was firing,
     and otherwise the firing one does; no other alert is touched.
     */
    method FireOrRefreshAlert(rule: AlertRule, r: Reading, now: int) returns (a: AlertId)
      modifies this, rule`active
      ensures FiringWith(alerts, a, r.fingerprint) && alerts[a].observed == r.observed
      ensures a == Target(old(alerts), r.fingerprint)
      ensures |old(alerts)| <= |alerts| <= |old(alerts)| + 1
      ensures forall b :: 0 <= b < |old(alerts)| && b != a ==> alerts[b] == old(alerts)[b]
      ensures |alerts| > |old(alerts)| <==> forall b :: !FiringWith(old(alerts), b, r.fingerprint)
      ensures |alerts| > |old(alerts)| ==> a == |old(alerts)| && rule.active == Some(a) && alerts[a].firedAt == now
      ensures |alerts| > |old(alerts)| ==>
                && alerts[a].ref == r.ref && alerts[a].environment == rule.cfg.environment && alerts[a].service == r.service
                && alerts[a].resolvedAt.None? && alerts[a].incident.None?
      ensures |alerts| == |old(alerts)| ==>
                rule.active == old(rule.active) && alerts[a] == old(alerts)[a].(observed := r.observed)
      ensures (rule.ToState(), alerts) == FireOrRefresh(rule.cfg, old(rule.ToState()), old(alerts), r, now)
    {
      var existing := FindFiring(alerts, r.fingerprint);
      if existing.Some? {
        a := existing.value;
        alerts := alerts[a := alerts[a].(observed := r.observed)];
        return;
      }
      a := |alerts|;
      alerts := alerts + [Created(rule.cfg, r, now)];
      rule.active := Some(a);
    }

    /** `_resolve`: the alert remembered, if it is firing, is settled now; no other is touched, and it is forgotten. */
    method Resolve(rule: AlertRule, now: int)
      modifies this, rule`active
      ensures |alerts| == |old(alerts)|
      ensures forall a :: 0 <= a < |alerts| ==>
                alerts[a] == if old(rule.active) == Some(a) && old(alerts)[a].firing
                             then old(alerts)[a].(firing := false, resolvedAt := Some(now)) else old(alerts)[a]
      ensures rule.active.None? && alerts == ResolveActive(old(rule.active), old(alerts), now)
    {
      if rule.active.None? {
        return;
      }
      var a := rule.active.value;
      if a < |alerts| && alerts[a].firing {
        alerts := alerts[a := alerts[a].(firing := false, resolvedAt := Some(now))];
      }
      rule.active := None;
    }

    /** `evaluate_rule`: the pass, and the alert it fired or refreshed last, if any. */
    method EvaluateRule(rule: AlertRule, readings: seq<Reading>, now: int) returns (fired: Option<AlertId>)
      modifies this, rule
      ensures (rule.ToState(), alerts) == Pass(rule.cfg, old(rule.ToState()), old(alerts), readings, now)
      ensures
        var p := Progress(old(rule.ToState()), old(alerts), false);
        fired == if rule.cfg.enabled then LastFired(rule.cfg, p, readings, now) else None
      ensures fired.Some? ==> Firing(alerts, fired.value)
      ensures rule.lastEvaluated == if rule.cfg.enabled then Some(now) else old(rule.lastEvaluated)
      ensures !rule.cfg.enabled ==> fired.None? && alerts == old(alerts) && rule.ToState() == old(rule.ToState())
    {
      fired := None;
      if !rule.cfg.enabled {
        return;
      }
      var anyBreach := false;
      ghost var p := Progress(rule.ToState(), alerts, false);
      for k := 0 to |readings|
        invariant Progress(rule.ToState(), alerts, anyBreach) == ConsiderAll(rule.cfg, p, readings[..k], now)
        invariant fired == LastFired(rule.cfg, p, readings[..k], now)
        invariant fired.Some? ==> anyBreach && Firing(alerts, fired.value)
      {
        assert readings[..k + 1][..k] == readings[..k];
        var r := readings[k];
        if r.breaching {
          anyBreach := true;
          var started := BreachSince(rule.cfg, r, now);
          if rule.breachingSince.None? || started < rule.breachingSince.value {
            rule.breachingSince := Some(started);
          }
          if now - rule.breachingSince.value >= rule.cfg.forSeconds * SECOND {
            var a := FireOrRefreshAlert(rule, r, now);
            fired := Some(a);
          }
        }
      }
      assert readings[..|readings|] == readings;
      if !anyBreach {
        rule.breachingSince := None;
        Resolve(rule, now);
      }
      rule.lastEvaluated := Some(now);
    }
  }

  // ----- what a pass does to the rows of the table -------------------------------------------

  /** The columns a pass may change in an existing row are the state, its time, and the observed value. */
  predicate SameRow(x: Alert, y: Alert) {
    y == x.(firing := y.firing, resolvedAt := y.resolvedAt, observed := y.observed)
  }

  ghost predicate NewRow(cfg: Config, rs: seq<Reading>, now: int, x: Alert) {
    x.firing && exists k :: 0 <= k < |rs| && SameRow(Created(cfg, rs[k], now), x)
  }

  /** Old rows keep their identity, and firing ones keep firing; new rows come from a reading of the pass. */
  ghost predicate Grown(cfg: Config, rs: seq<Reading>, now: int, before: seq<Alert>, after: seq<Alert>) {
    && |before| <= |after|
    && (forall a :: 0 <= a < |before| ==> SameRow(before[a], after[a]) && after[a].firing == before[a].firing)
    && forall a :: |before| <= a < |after| ==> NewRow(cfg, rs, now, after[a])
  }

  lemma {:induction false} ConsiderAllRows(cfg: Config, p: Progress, rs: seq<Reading>, now: int)
    ensures Grown(cfg, rs, now, p.alerts, ConsiderAll(cfg, p, rs, now).alerts)
    decreases |rs|
  {
    if rs != [] {
      var front, r := rs[..|rs| - 1], rs[|rs| - 1];
      ConsiderAllRows(cfg, p, front, now);
      var mid := ConsiderAll(cfg, p, front, now);
      var after := Consider(cfg, mid, r, now);
      assert |mid.alerts| < |after.alerts| ==> SameRow(Created(cfg, r, now), after.alerts[|mid.alerts|]);
      forall a | |p.alerts| <= a < |after.alerts|
        ensures NewRow(cfg, rs, now, after.alerts[a])
      {
        if a < |mid.alerts| {
          var k :| 0 <= k < |front| && SameRow(Created(cfg, front[k], now), mid.alerts[a]);
          assert SameRow(Created(cfg, rs[k], now), after.alerts[a]);
        } else {
          assert SameRow(Created(cfg, rs[|rs| - 1], now), after.alerts[a]);
        }
      }
    }
  }

  predicate RefsUnique(alerts: seq<Alert>) {
    forall a, b :: 0 <= a < b < |alerts| ==> alerts[a].ref != alerts[b].ref
  }

  /** The references a pass would give to new alerts are new, and differ from each other. */
  predicate FreshRefs(alerts: seq<Alert>, rs: seq<Reading>) {
    && (forall a, k :: 0 <= a < |alerts| && 0 <= k < |rs| ==> alerts[a].ref != rs[k].ref)
    && forall j, k :: 0 <= j < k < |rs| ==> rs[j].ref != rs[k].ref
  }

  lemma {:induction false} ConsiderAllRefs(cfg: Config, p: Progress, rs: seq<Reading>, now: int)
    requires RefsUnique(p.alerts) && FreshRefs(p.alerts, rs)
    ensures RefsUnique(ConsiderAll(cfg, p, rs, now).alerts)
    decreases |rs|
  {
    if rs != [] {
      var front, r := rs[..|rs| - 1], rs[|rs| - 1];
      ConsiderAllRefs(cfg, p, front, now);
      ConsiderAllRows(cfg, p, front, now);
      var mid := ConsiderAll(cfg, p, front, now);
      forall a | 0 <= a < |mid.alerts|
        ensures mid.alerts[a].ref != r.ref
      {
        if a >= |p.alerts| {
          var k :| 0 <= k < |front| && SameRow(Created(cfg, front[k], now), mid.alerts[a]);
          assert rs[k] == front[k];
        }
      }
    }
  }

  predicate Quiet(rs: seq<Reading>) { forall k :: 0 <= k < |rs| ==> !rs[k].breaching }

  lemma {:induction false} BreachFlag(cfg: Config, p: Progress, rs: seq<Reading>, now: int)
    ensures ConsiderAll(cfg, p, rs, now).anyBreach <==> p.anyBreach || !Quiet(rs)
    ensures Quiet(rs) ==> ConsiderAll(cfg, p, rs, now) == p
    decreases |rs|
  {
    if rs != [] {
      BreachFlag(cfg, p, rs[..|rs| - 1], now);
      assert Quiet(rs) <==> Quiet(rs[..|rs| - 1]) && !rs[|rs| - 1].breaching;
    }
  }

  /** After a pass: old rows keep identity and incident, new rows are unlinked and dated now, references differ. */
  lemma PassRows(cfg: Config, rule: RuleState, alerts: seq<Alert>, rs: seq<Reading>, now: int)
    requires RefsUnique(alerts) && FreshRefs(alerts, rs)
    ensures
      var after := Pass(cfg, rule, alerts, rs, now).1;
      && |alerts| <= |after| && RefsUnique(after)
      && (forall a :: 0 <= a < |alerts| ==> SameRow(alerts[a], after[a]) && (after[a].firing ==> alerts[a].firing))
      && forall a :: |alerts| <= a < |after| ==> NewRow(cfg, rs, now, after[a])
  {
    var p := Progress(rule, alerts, false);
    ConsiderAllRows(cfg, p, rs, now);
    ConsiderAllRefs(cfg, p, rs, now);
    BreachFlag(cfg, p, rs, now);
  }

  predicate PointsInto(rule: RuleState, alerts: seq<Alert>) { rule.active.Some? ==> rule.active.value < |alerts| }

  lemma {:induction false} ConsiderAllPoints(cfg: Config, p: Progress, rs: seq<Reading>, now: int)
    requires PointsInto(p.rule, p.alerts)
    ensures PointsInto(ConsiderAll(cfg, p, rs, now).rule, ConsiderAll(cfg, p, rs, now).alerts)
    decreases |rs|
  {
    if rs != [] {
      ConsiderAllPoints(cfg, p, rs[..|rs| - 1], now);
    }
  }

  /** A pass settles at most the alert the rule remembers, and remembers an alert of the table afterwards. */
  lemma PassPoints(cfg: Config, rule: RuleState, alerts: seq<Alert>, rs: seq<Reading>, now: int)
    requires PointsInto(rule, alerts)
    ensures
      var (rule', after) := Pass(cfg, rule, alerts, rs, now);
      && PointsInto(rule', after) && |alerts| <= |after|
      && forall a :: Firing(alerts, a) && !Firing(after, a) ==> rule.active == Some(a)
  {
    var p := Progress(rule, alerts, false);
    ConsiderAllRows(cfg, p, rs, now);
    ConsiderAllPoints(cfg, p, rs, now);
    BreachFlag(cfg, p, rs, now);
  }

  // ----- at most one firing alert per fingerprint ------------------------------------------

  predicate OneFiring(alerts: seq<Alert>) {
    forall a, b :: 0 <= a < b < |alerts| && alerts[a].firing && alerts[b].firing
      ==> alerts[a].fingerprint != alerts[b].fingerprint
  }

  /** The alerts of `before` are still there with their fingerprints, and none started firing again. */
  predicate OnlySettles(before: seq<Alert>, after: seq<Alert>) {
    && |before| <= |after|
    && forall a :: 0 <= a < |before| ==>
         after[a].fingerprint == before[a].fingerprint && (after[a].firing ==> before[a].firing)
  }

  lemma ConsiderKeepsOne(cfg: Config, p: Progress, r: Reading, now: int)
    requires OneFiring(p.alerts)
    ensures OneFiring(Consider(cfg, p, r, now).alerts) && OnlySettles(p.alerts, Consider(cfg, p, r, now).alerts)
  {
    assert forall a :: FiringWith(p.alerts, a, r.fingerprint) <==>
                         0 <= a < |p.alerts| && p.alerts[a].firing && p.alerts[a].fingerprint == r.fingerprint;
    FiredIsOnly(cfg, p.rule, p.alerts, r, now);
  }

  lemma FiredIsOnly(cfg: Config, rule: RuleState, alerts: seq<Alert>, r: Reading, now: int)
    requires OneFiring(alerts)
    ensures OneFiring(FireOrRefresh(cfg, rule, alerts, r, now).1)
  {
    if FindFiring(alerts, r.fingerprint).None? {
      forall a | 0 <= a < |alerts| && alerts[a].firing
        ensures alerts[a].fingerprint != r.fingerprint
      {
        assert !FiringWith(alerts, a, r.fingerprint);
      }
    }
  }

  lemma {:induction false} ConsiderAllKeepsOne(cfg: Config, p: Progress, rs: seq<Reading>, now: int)
    requires OneFiring(p.alerts)
    ensures OneFiring(ConsiderAll(cfg, p, rs, now).alerts) && OnlySettles(p.alerts, ConsiderAll(cfg, p, rs, now).alerts)
  {
    if rs != [] {
      ConsiderAllKeepsOne(cfg, p, rs[..|rs| - 1], now);
      ConsiderKeepsOne(cfg, ConsiderAll(cfg, p, rs[..|rs| - 1], now), rs[|rs| - 1], now);
    }
  }

  lemma PassKeepsOne(cfg: Config, rule: RuleState, alerts: seq<Alert>, rs: seq<Reading>, now: int)
    requires OneFiring(alerts)
    ensures OneFiring(Pass(cfg, rule, alerts, rs, now).1) && OnlySettles(alerts, Pass(cfg, rule, alerts, rs, now).1)
  {
    ConsiderAllKeepsOne(cfg, Progress(rule, alerts, false), rs, now);
  }

  /** A sequence of passes of any number of rules over the shared alert table. */
  datatype Evaluation = Evaluation(rule: nat, cfg: Config, readings: seq<Reading>, now: int)

  datatype World = World(rules: map<nat, RuleState>, alerts: seq<Alert>)

  function StateOf(w: World, rule: nat): RuleState { if rule in w.rules then w.rules[rule] else FRESH }

  function AfterEvaluations(w: World, es: seq<Evaluation>): World {
    if es == [] then w
    else
      var prior, e := AfterEvaluations(w, es[..|es| - 1]), es[|es| - 1];
      var (rule, alerts) := Pass(e.cfg, StateOf(prior, e.rule), prior.alerts, e.readings, e.now);
      World(prior.rules[e.rule := rule], alerts)
  }

  /** In every run of rule passes, shared fingerprints included, at most one alert per fingerprint fires. */
  lemma {:induction false} NeverTwoFiring(w: World, es: seq<Evaluation>)
    requires OneFiring(w.alerts)
    ensures OneFiring(AfterEvaluations(w, es).alerts)
  {
    if es != [] {
      NeverTwoFiring(w, es[..|es| - 1]);
      var prior, e := AfterEvaluations(w, es[..|es| - 1]), es[|es| - 1];
      PassKeepsOne(e.cfg, StateOf(prior, e.rule), prior.alerts, e.readings, e.now);
    }
  }

  // ----- passes spelled out -----------------------------------------------------------------

  /** A service that breaches for the first time under a rule without dwell time gets an alert at once. */
  lemma FiresAtOnce(cfg: Config, p: Progress, r: Reading, now: int)
    requires r.breaching && !cfg.series && cfg.forSeconds <= cfg.windowSeconds
    requires forall a :: !FiringWith(p.alerts, a, r.fingerprint)
    ensures
      var p' := Consider(cfg, p, r, now);
      && p'.alerts == p.alerts + [Created(cfg, r, now)] && p'.rule.active == Some(|p.alerts|) && p'.anyBreach
  {
  }

  lemma PassFires(cfg: Config, rule: RuleState, alerts: seq<Alert>, r: Reading, now: int)
    requires cfg.enabled && r.breaching && !cfg.series && cfg.forSeconds <= cfg.windowSeconds
    requires forall a :: !FiringWith(alerts, a, r.fingerprint)
    ensures
      var (rule', alerts') := Pass(cfg, rule, alerts, [r], now);
      alerts' == alerts + [Created(cfg, r, now)] && rule'.active == Some(|alerts|)
  {
    var p := Progress(rule, alerts, false);
    FiresAtOnce(cfg, p, r, now);
    assert [r][..0] == [] && ConsiderAll(cfg, p, [], now) == p;
    assert ConsiderAll(cfg, p, [r], now) == Consider(cfg, p, r, now);
  }

  /** When its fingerprint is firing already, whichever rule or environment that alert is from, it gets none. */
  lemma PassRefreshes(cfg: Config, rule: RuleState, alerts: seq<Alert>, r: Reading, now: int)
    requires cfg.enabled && r.breaching && exists a :: FiringWith(alerts, a, r.fingerprint)
    ensures |Pass(cfg, rule, alerts, [r], now).1| == |alerts|
    ensures forall a :: 0 <= a < |alerts| ==> SameRow(alerts[a], Pass(cfg, rule, alerts, [r], now).1[a])
  {
    var p := Progress(rule, alerts, false);
    assert [r][..0] == [] && ConsiderAll(cfg, p, [], now) == p;
    assert ConsiderAll(cfg, p, [r], now) == Consider(cfg, p, r, now);
    assert FindFiring(alerts, r.fingerprint).Some?;
  }

  lemma PassSettles(cfg: Config, rule: RuleState, alerts: seq<Alert>, rs: seq<Reading>, now: int)
    requires cfg.enabled && Quiet(rs)
    ensures
      var (rule', alerts') := Pass(cfg, rule, alerts, rs, now);
      && alerts' == ResolveActive(rule.active, alerts, now)
      && rule' == rule.(breachingSince := None, active := None, lastEvaluated := Some(now))
  {
    BreachFlag(cfg, Progress(rule, alerts, false), rs, now);
  }

  lemma PassFiresTwice(cfg: Config, r1: Reading, r2: Reading, now: int)
    requires cfg.enabled && r1.breaching && r2.breaching && !cfg.series && cfg.forSeconds <= cfg.windowSeconds
    requires r1.fingerprint != r2.fingerprint
    ensures
      var (rule, alerts) := Pass(cfg, FRESH, [], [r1, r2], now);
      alerts == [Created(cfg, r1, now), Created(cfg, r2, now)] && rule.active == Some(1)
  {
    var p0 := Progress(FRESH, [], false);
    var p1 := Consider(cfg, p0, r1, now);
    FiresAtOnce(cfg, p0, r1, now);
    FiresAtOnce(cfg, p1, r2, now);
    assert [r1, r2][..1] == [r1] && [r1][..0] == [] && ConsiderAll(cfg, p0, [], now) == p0;
    assert ConsiderAll(cfg, p0, [r1], now) == p1;
    assert ConsiderAll(cfg, p0, [r1, r2], now) == Consider(cfg, p1, r2, now);
  }
}
