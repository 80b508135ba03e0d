/**
 The handlers' pipeline over the tables: every rule is evaluated, alerts are ingested, incidents are operated on.
 Each method is a run of steps of the ingestion model, so what holds over every run holds of the objects.
 */
module Handlers {
  import opened Wrappers
  import opened Correlation
  import opened Ingestion
  import A = AlertRules
  import L = Lifecycle

  ghost predicate AllLinked(st: Store) { forall a :: 0 <= a < |st.alerts| ==> st.alerts[a].incident.Some? }

  /** The references of the readings of all rules are new, and differ from each other. */
  predicate NewRefs(alerts: seq<A.Alert>, readings: seq<seq<A.Reading>>) {
    && (forall k :: 0 <= k < |readings| ==> A.FreshRefs(alerts, readings[k]))
    && forall j, k :: 0 <= j < k < |readings| ==> Disjoint(readings[j], readings[k])
  }

  predicate Disjoint(xs: seq<A.Reading>, ys: seq<A.Reading>) {
    forall i, j :: 0 <= i < |xs| && 0 <= j < |ys| ==> xs[i].ref != ys[j].ref
  }

  lemma RefsStayNew(cfg: A.Config, rule: A.RuleState, alerts: seq<A.Alert>, rs: seq<A.Reading>,
                    later: seq<A.Reading>, now: int)
    requires A.RefsUnique(alerts) && A.FreshRefs(alerts, rs) && A.FreshRefs(alerts, later) && Disjoint(rs, later)
    ensures A.FreshRefs(A.Pass(cfg, rule, alerts, rs, now).1, later)
  {
    A.PassRows(cfg, rule, alerts, rs, now);
    var after := A.Pass(cfg, rule, alerts, rs, now).1;
    forall a, j | 0 <= a < |after| && 0 <= j < |later|
      ensures after[a].ref != later[j].ref
    {
      if a >= |alerts| {
        var k :| 0 <= k < |rs| && A.SameRow(A.Created(cfg, rs[k], now), after[a]);
        assert rs[k].ref != later[j].ref;
      } else {
        assert A.SameRow(alerts[a], after[a]);
      }
    }
  }

  // ----- what a tick does to the tables -------------------------------------------------------

  function ConfigsOf(rules: seq<A.AlertRule>): seq<A.Config> {
    seq(|rules|, k requires 0 <= k < |rules| => rules[k].cfg)
  }

  /** The tables after the first `k` rules have been evaluated, disabled ones skipped. */
  function Evaluated(st: Store, cfgs: seq<A.Config>, readings: seq<seq<A.Reading>>, now: int, k: nat): (st': Store)
    requires k <= |cfgs| && |cfgs| == |readings| == |st.rules|
    ensures |st'.rules| == |st.rules|
  {
    if k == 0 then st
    else
      var prev := Evaluated(st, cfgs, readings, now, k - 1);
      if cfgs[k - 1].enabled then Next(prev, Evaluate(k - 1, cfgs[k - 1], readings[k - 1]), now) else prev
  }

  /** Every enabled rule before the `k`-th has been evaluated now, and no other rule. */
  lemma {:induction false} EvaluatedNow(st: Store, cfgs: seq<A.Config>, readings: seq<seq<A.Reading>>, now: int,
                                      k: nat, j: nat)
    requires k <= |cfgs| && |cfgs| == |readings| == |st.rules| && j < |cfgs|
    ensures j >= k ==> Evaluated(st, cfgs, readings, now, k).rules[j] == st.rules[j]
    ensures j < k ==> Evaluated(st, cfgs, readings, now, k).rules[j].lastEvaluated
                      == if cfgs[j].enabled then Some(now) else st.rules[j].lastEvaluated
    decreases k
  {
    if k > 0 {
      EvaluatedNow(st, cfgs, readings, now, k - 1, j);
    }
  }

  /** The alerts those passes fired or refreshed last, one per rule that fired. */
  function FiredIn(st: Store, cfgs: seq<A.Config>, readings: seq<seq<A.Reading>>, now: int, k: nat): seq<AlertId>
    requires k <= |cfgs| && |cfgs| == |readings| == |st.rules|
  {
    if k == 0 then []
    else
      var prev, cfg := Evaluated(st, cfgs, readings, now, k - 1), cfgs[k - 1];
      var f := A.LastFired(cfg, A.Progress(prev.rules[k - 1], prev.alerts, false), readings[k - 1], now);
      FiredIn(st, cfgs, readings, now, k - 1) + if cfg.enabled && f.Some? then [f.value] else []
  }

  /** Nothing about rules and alerts changed but that alerts of `these` were linked. */
  ghost predicate OnlyLinks(st: Store, st': Store, these: iset<int>) {
    && st'.rules == st.rules && |st'.alerts| == |st.alerts|
    && forall a :: 0 <= a < |st.alerts| ==>
         && st'.alerts[a] == st.alerts[a].(incident := st'.alerts[a].incident)
         && (st'.alerts[a].incident != st.alerts[a].incident ==> st.alerts[a].incident.None? && a in these)
  }

  ghost function Among(fired: seq<AlertId>): iset<int> { iset a: nat | a in fired :: a as int }

  ghost function StillFiring(st: Store): iset<int> { iset a | A.Firing(st.alerts, a) }

  /** Both loops of a tick together. */
  lemma LinksAdd(st: Store, ingested: Store, after: Store, fired: seq<AlertId>)
    requires OnlyLinks(st, ingested, Among(fired))
    requires after == ingested || OnlyLinks(ingested, after, StillFiring(ingested))
    ensures OnlyLinks(st, after, Among(fired) + StillFiring(st))
  {
  }

  lemma LinksCompose(x: Store, y: Store, z: Store, these: iset<int>)
    requires OnlyLinks(x, y, these) && OnlyLinks(y, z, these)
    ensures OnlyLinks(x, z, these) && AlertsFollow(x, z)
  {
  }

  // ----- inside one tick -------------------------------------------------------------------

  /**
   During a tick at `now`: the first `n` alerts are linked and older, the others fired in the tick and are still
   firing.
   */
  ghost predicate Ticking(st: Store, n: nat, now: int) {
    && n <= |st.alerts| && A.OneFiring(st.alerts)
    && (forall a :: 0 <= a < n ==> st.alerts[a].incident.Some? && st.alerts[a].firedAt < now)
    && forall a :: n <= a < |st.alerts| ==> st.alerts[a].firing && st.alerts[a].firedAt == now
  }

  lemma TickBegins(cat: Catalog, ts: seq<Timed>, now: int)
    requires CanRun(cat, EMPTY, ts) && PromptRun(cat, EMPTY, ts, 0) && AllLinked(Run(cat, EMPTY, ts))
    requires Run(cat, EMPTY, ts).clock < now
    ensures Ticking(Run(cat, EMPTY, ts), |Run(cat, EMPTY, ts).alerts|, now)
  {
    RunKeepsSeparation(cat, ts, 0);
    RunKeepsOneFiring(cat, ts);
  }

  lemma TickEnds(st: Store, n: nat, now: int)
    requires Ticking(st, n, now) && forall a :: A.Firing(st.alerts, a) ==> st.alerts[a].incident.Some?
    ensures AllLinked(st)
  {
    forall a | 0 <= a < |st.alerts|
      ensures st.alerts[a].incident.Some?
    {
      assert a >= n ==> A.Firing(st.alerts, a);
    }
  }

  /** A rule that remembered nothing of this tick settles nothing of it. */
  lemma TickEvaluates(cat: Catalog, st: Store, step: Step, n: nat, now: int)
    requires Books(st) && Ticking(st, n, now) && step.Evaluate? && Enabled(cat, st, step, now)
    requires st.rules[step.rule].active.Some? ==> st.rules[step.rule].active.value < n
    ensures Ticking(Next(st, step, now), n, now)
  {
    OtherStepKeepsLinks(cat, st, step, now);
    StepKeepsOneFiring(cat, st, step, now);
    A.PassPoints(step.cfg, st.rules[step.rule], st.alerts, step.readings, now);
    var st' := Next(st, step, now);
    forall a | n <= a < |st'.alerts|
      ensures st'.alerts[a].firing && st'.alerts[a].firedAt == now
    {
      if a < |st.alerts| {
        assert A.Firing(st.alerts, a) && Follows(st.alerts[a], st'.alerts[a]);
        assert A.Firing(st'.alerts, a);
      }
    }
  }

  /** An ingest during a tick is prompt and in firing order. */
  lemma TickIngests(cat: Catalog, st: Store, step: Step, n: nat, now: int)
    requires Books(st) && Ticking(st, n, now) && step.Ingest? && Enabled(cat, st, step, now)
    ensures Promptly(st, step, now, 0) && InOrder(st, step) && Ticking(Next(st, step, now), n, now)
  {
    StepKeepsOneFiring(cat, st, step, now);
    forall b | 0 <= b < |st.alerts| && IsPrior(st, step.a, b)
      ensures st.alerts[b].firedAt < st.alerts[step.a].firedAt
    {
      assert b < n;
    }
  }

  /** What one guarded ingest leaves behind. */
  lemma IngestEffect(cat: Catalog, st: Store, step: Step, n: nat, now: int)
    requires Books(st) && step.Ingest? && Enabled(cat, st, step, now)
    ensures
      var st' := Next(st, step, now);
      && AlertsFollow(st, st') && |st'.alerts| == |st.alerts| && st'.rules == st.rules
      && st'.alerts == st.alerts[step.a := st.alerts[step.a].(incident := st'.alerts[step.a].incident)]
      && st'.alerts[step.a].incident.Some? && OnlyLinks(st, st', iset{step.a})
      && (Ticking(st, n, now) ==> Promptly(st, step, now, 0) && InOrder(st, step) && Ticking(st', n, now))
  {
    StepPersists(cat, st, step, now);
    if Ticking(st, n, now) {
      TickIngests(cat, st, step, n, now);
    }
  }

  /** A tick that began in `st` has reached `cur` with the rules from `k` on still to be evaluated. */
  ghost predicate Underway(st: Store, cur: Store, cfgs: seq<A.Config>, readings: seq<seq<A.Reading>>, k: nat, now: int) {
    && k <= |cfgs| && |cfgs| == |readings| == |st.rules| == |cur.rules| && cur == Evaluated(st, cfgs, readings, now, k)
    && AlertsFollow(st, cur) && cur.clock <= now
    && (forall j :: k <= j < |readings| ==> A.FreshRefs(cur.alerts, readings[j]))
    && (forall j :: k <= j < |st.rules| ==> cur.rules[j] == st.rules[j])
    && (Ticking(st, |st.alerts|, now) ==> Ticking(cur, |st.alerts|, now))
  }

  lemma PassCarries(cat: Catalog, st: Store, before: Store, cfgs: seq<A.Config>, readings: seq<seq<A.Reading>>, step: Step,
                    now: int)
    requires Books(before) && step.Evaluate? && Enabled(cat, before, step, now)
    requires Underway(st, before, cfgs, readings, step.rule, now) && step.rule < |cfgs|
    requires step.readings == readings[step.rule] && step.cfg == cfgs[step.rule] && step.cfg.enabled
    requires forall j, k :: 0 <= j < k < |readings| ==> Disjoint(readings[j], readings[k])
    requires A.PointsInto(st.rules[step.rule], st.alerts)
    ensures Underway(st, Next(before, step, now), cfgs, readings, step.rule + 1, now)
    ensures
      var f := A.LastFired(step.cfg, A.Progress(before.rules[step.rule], before.alerts, false), step.readings, now);
      FiredIn(st, cfgs, readings, now, step.rule + 1)
        == FiredIn(st, cfgs, readings, now, step.rule) + if f.Some? then [f.value] else []
  {
    var after := Next(before, step, now);
    StepPersists(cat, before, step, now);
    FollowsTransitive(st, before, after);
    forall j | step.rule < j < |readings|
      ensures A.FreshRefs(after.alerts, readings[j])
    {
      assert Disjoint(readings[step.rule], readings[j]);
      RefsStayNew(step.cfg, before.rules[step.rule], before.alerts, step.readings, readings[j], now);
    }
    if Ticking(before, |st.alerts|, now) {
      TickEvaluates(cat, before, step, |st.alerts|, now);
    }
  }

  lemma UnderwayBegins(st: Store, cfgs: seq<A.Config>, readings: seq<seq<A.Reading>>, now: int)
    requires |cfgs| == |readings| == |st.rules| && st.clock <= now && NewRefs(st.alerts, readings)
    ensures Underway(st, st, cfgs, readings, 0, now) && FiredIn(st, cfgs, readings, now, 0) == []
  {
  }

  /** A disabled rule is passed over. */
  lemma SkipCarries(st: Store, cur: Store, cfgs: seq<A.Config>, readings: seq<seq<A.Reading>>, k: nat, now: int)
    requires Underway(st, cur, cfgs, readings, k, now) && k < |cfgs| && !cfgs[k].enabled
    ensures Underway(st, cur, cfgs, readings, k + 1, now)
    ensures FiredIn(st, cfgs, readings, now, k + 1) == FiredIn(st, cfgs, readings, now, k)
  {
  }

  /** The decision reads the alert and incident tables only. */
  lemma DecisionReadsTables(cat: Catalog, st: Store, st': Store, a: AlertId, prior: Option<AlertId>, now: int,
                            d: Option<IncidentId>)
    requires st.alerts == st'.alerts && st.incidents == st'.incidents && a < |st.alerts|
    requires st.alerts[a].service in cat.services && PriorAnswer(st, a, prior) && Decided(cat, st, a, prior, now, d)
    ensures PriorAnswer(st', a, prior) && Decided(cat, st', a, prior, now, d)
  {
    assert forall p: AlertId :: IsPrior(st, a, p) <==> IsPrior(st', a, p);
    assert forall j: nat :: RelatedCandidate(cat, st, a, now, j) <==> RelatedCandidate(cat, st', a, now, j);
    assert forall j: nat :: DedupedTo(st, prior, j) <==> DedupedTo(st', prior, j);
  }

  class Pipeline {
    const cat: Catalog
    const table: A.AlertTable
    var rules: seq<A.AlertRule>
    var incidents: seq<Incident>

    /** The tables as one value, and the steps taken so far. */
    ghost var store: Store
    ghost var trace: seq<Timed>

    ghost predicate Shape()
      reads this, table, rules
    {
      && store.alerts == table.alerts && store.incidents == incidents && |store.rules| == |rules|
      && (forall k :: 0 <= k < |rules| ==> rules[k].ToState() == store.rules[k])
      && forall j, k :: 0 <= j < k < |rules| ==> rules[j] != rules[k]
    }

    ghost predicate Tracked()
      reads this
    {
      && CanRun(cat, EMPTY, trace) && Run(cat, EMPTY, trace) == store
      && forall k :: 0 <= k < |store.rules| ==> A.PointsInto(store.rules[k], store.alerts)
    }

    ghost predicate Valid()
      reads this, table, rules
    {
      Shape() && Tracked()
    }

    /** So far every alert was ingested in the tick that fired it. */
    ghost predicate InStep()
      reads this
    {
      && Tracked() && PromptRun(cat, EMPTY, trace, 0) && OrderedRun(cat, EMPTY, trace)
    }

    constructor (cat: Catalog)
      ensures Valid() && InStep() && fresh(table) && rules == [] && store == EMPTY && this.cat == cat
    {
      table := new A.AlertTable();
      this.cat, rules, incidents := cat, [], [];
      store, trace := EMPTY, [];
    }

    ghost method Record(step: Step, now: int, before: Store)
      requires CanRun(cat, EMPTY, trace) && Run(cat, EMPTY, trace) == before && Enabled(cat, before, step, now)
      requires store == Next(before, step, now)
      requires forall k :: 0 <= k < |store.rules| ==> A.PointsInto(store.rules[k], store.alerts)
      modifies this`trace
      ensures Tracked() && trace == old(trace) + [Timed(step, now)]
      ensures
        (&& old(PromptRun(cat, EMPTY, trace, 0) && OrderedRun(cat, EMPTY, trace))
         && Promptly(before, step, now, 0) && InOrder(before, step)) ==> InStep()
    {
      RunExtends(cat, EMPTY, trace, Timed(step, now));
      trace := trace + [Timed(step, now)];
    }

    method AddRule(cfg: A.Config, now: int) returns (rule: A.AlertRule)
      requires Valid() && store.clock <= now
      modifies this
      ensures Valid() && fresh(rule) && rule.cfg == cfg && rules == old(rules) + [rule]
      ensures store == Next(old(store), Step.AddRule, now)
      ensures old(InStep()) ==> InStep()
    {
      rule := new A.AlertRule(cfg);
      rules := rules + [rule];
      ghost var before := store;
      store := Next(store, Step.AddRule, now);
      Record(Step.AddRule, now, before);
    }

    // ----- evaluation ----------------------------------------------------------------------

    method EvaluateRule(k: nat, readings: seq<A.Reading>, now: int) returns (fired: Option<AlertId>)
      requires Valid() && k < |rules| && store.clock <= now && A.FreshRefs(store.alerts, readings)
      modifies this`store, this`trace, table, rules[k]
      ensures Valid() && |old(store.alerts)| <= |store.alerts| && (fired.Some? ==> A.Firing(store.alerts, fired.value))
      ensures store == Next(old(store), Evaluate(k, rules[k].cfg, readings), now) && old(trace) <= trace
      ensures rules[k].cfg.enabled ==>
                fired == A.LastFired(rules[k].cfg, A.Progress(old(store).rules[k], old(store).alerts, false), readings, now)
      ensures old(InStep()) ==> InStep()
    {
      var rule := rules[k];
      ghost var before, step := store, Evaluate(k, rule.cfg, readings);
      fired := table.EvaluateRule(rule, readings, now);
      store := Next(store, step, now);
      A.PassPoints(rule.cfg, before.rules[k], before.alerts, readings, now);
      Record(step, now, before);
    }

    /**
     The loop over the rules, in a tick that began with the tables `st` and the steps `ts`, has come to rule `k`:
     the tables are those after the passes of the rules before it, which fired `fired`.
     */
    ghost predicate Midway(st: Store, ts: seq<Timed>, readings: seq<seq<A.Reading>>, k: nat, now: int,
                           fired: seq<AlertId>, inStep: bool)
      reads this, table, rules
    {
      && Valid() && Underway(st, store, ConfigsOf(rules), readings, k, now) && ts <= trace && (inStep ==> InStep())
      && fired == FiredIn(st, ConfigsOf(rules), readings, now, k) && (forall a :: a in fired ==> a < |store.alerts|)
      && (forall i, j :: 0 <= i < j < |readings| ==> Disjoint(readings[i], readings[j]))
      && forall i :: 0 <= i < |st.rules| ==> A.PointsInto(st.rules[i], st.alerts)
    }

    lemma TickOpens(readings: seq<seq<A.Reading>>, now: int)
      requires Valid() && store.clock <= now && |readings| == |rules| && NewRefs(store.alerts, readings)
      ensures Midway(store, trace, readings, 0, now, [], InStep())
    {
      UnderwayBegins(store, ConfigsOf(rules), readings, now);
    }

    lemma TickEvaluated(st: Store, ts: seq<Timed>, readings: seq<seq<A.Reading>>, now: int, fired: seq<AlertId>,
                        inStep: bool)
      requires Midway(st, ts, readings, |rules|, now, fired, inStep)
      ensures |st.rules| == |store.rules| == |rules|
      ensures forall k :: 0 <= k < |rules| ==>
                store.rules[k].lastEvaluated == if rules[k].cfg.enabled then Some(now) else st.rules[k].lastEvaluated
    {
      forall k | 0 <= k < |rules|
        ensures store.rules[k].lastEvaluated == if rules[k].cfg.enabled then Some(now) else st.rules[k].lastEvaluated
      {
        EvaluatedNow(st, ConfigsOf(rules), readings, now, |rules|, k);
      }
    }

    method EvaluateNext(k: nat, readings: seq<seq<A.Reading>>, now: int, fired: seq<AlertId>, ghost st: Store,
                        ghost ts: seq<Timed>, ghost inStep: bool) returns (more: seq<AlertId>)
      requires k < |rules| && Midway(st, ts, readings, k, now, fired, inStep)
      modifies this`store, this`trace, table, rules[k]
      ensures rules == old(rules) && Midway(st, ts, readings, k + 1, now, more, inStep)
    {
      more := fired;
      if rules[k].cfg.enabled {
        more := EvaluateEnabled(k, readings, now, fired, st, ts, inStep);
      } else {
        SkipCarries(st, store, ConfigsOf(rules), readings, k, now);
      }
    }

    method EvaluateEnabled(k: nat, readings: seq<seq<A.Reading>>, now: int, fired: seq<AlertId>, ghost st: Store,
                           ghost ts: seq<Timed>, ghost inStep: bool) returns (more: seq<AlertId>)
      requires k < |rules| && Midway(st, ts, readings, k, now, fired, inStep) && rules[k].cfg.enabled
      modifies this`store, this`trace, table, rules[k]
      ensures rules == old(rules) && Midway(st, ts, readings, k + 1, now, more, inStep)
    {
      PassCarries(cat, st, store, ConfigsOf(rules), readings, Evaluate(k, rules[k].cfg, readings[k]), now);
      var a := EvaluateRule(k, readings[k], now);
      more := if a.Some? then fired + [a.value] else fired;
    }

    /** The loop over the rules. */
    method EvaluateEach(readings: seq<seq<A.Reading>>, now: int, ghost st: Store, ghost ts: seq<Timed>,
                        ghost inStep: bool) returns (fired: seq<AlertId>)
      requires Midway(st, ts, readings, 0, now, [], inStep)
      modifies this`store, this`trace, table, rules
      ensures Midway(st, ts, readings, |rules|, now, fired, inStep)
    {
      fired := [];
      for k := 0 to |rules|
        invariant rules == old(rules)
        invariant Midway(st, ts, readings, k, now, fired, inStep)
      {
        fired := EvaluateNext(k, readings, now, fired, st, ts, inStep);
      }
    }

    /**
     `evaluate_all_rules`: a pass of every enabled rule; the alerts fired or refreshed last, one per rule. Within
     a tick none of the alerts just created is settled by the passes that follow.
     */
    method EvaluateAllRules(readings: seq<seq<A.Reading>>, now: int) returns (fired: seq<AlertId>)
      requires Valid() && store.clock <= now && |readings| == |rules| && NewRefs(store.alerts, readings)
      modifies this`store, this`trace, table, rules
      ensures Midway(old(store), old(trace), readings, |rules|, now, fired, old(InStep()))
      ensures forall k :: 0 <= k < |rules| ==>
                store.rules[k].lastEvaluated == if rules[k].cfg.enabled then Some(now) else old(store).rules[k].lastEvaluated
    {
      ghost var st, ts, inStep := store, trace, InStep();
      TickOpens(readings, now);
      fired := EvaluateEach(readings, now, st, ts, inStep);
      TickEvaluated(st, ts, readings, now, fired, inStep);
    }

    // ----- ingestion -----------------------------------------------------------------------

    /**
     `_attach_alert`: the alert is linked, and the first time its reference is seen it is listed and counted and
     the severity may worsen; nothing else changes.
     */
    method AttachAlert(i: IncidentId, a: AlertId, severity: Severity)
      requires Shape() && a < |table.alerts| && i < |incidents|
      modifies this`incidents, this`store, table
      ensures Shape() && store == Attached(old(store), a, i, severity)
      ensures table.alerts == old(table.alerts)[a := old(table.alerts)[a].(incident := Some(i))]
      ensures incidents == old(incidents)[i := incidents[i]]
      ensures
        var was, inc, ref := old(incidents)[i], incidents[i], old(table.alerts)[a].ref;
        && inc == was.(alertCount := inc.alertCount, refs := inc.refs, severity := inc.severity)
        && (forall r :: r in inc.refs <==> r in was.refs || r == ref)
        && (Ascends(was.refs) ==> Ascends(inc.refs))
        && inc.alertCount == was.alertCount + (if ref in was.refs then 0 else 1)
        && inc.severity <= was.severity && (ref !in was.refs ==> inc.severity <= severity)
        && (inc.severity != was.severity ==> ref !in was.refs && inc.severity == severity)
    {
      var inc, ref := incidents[i], table.alerts[a].ref;
      store := Attached(store, a, i, severity);
      table.alerts := table.alerts[a := table.alerts[a].(incident := Some(i))];
      InsertMembers(inc.refs, ref);
      if ref in inc.refs {
        return;
      }
      if Ascends(inc.refs) {
        InsertSpec(inc.refs, ref);
      }
      inc := inc.(alertCount := inc.alertCount + 1, refs := InsertRef(inc.refs, ref));
      if severity < inc.severity {
        inc := inc.(severity := severity);
      }
      incidents := incidents[i := inc];
    }

    /** `ingest_alert`: the incident and whether it is new; None stands for the failed assertion. */
    method IngestAlert(a: AlertId, severity: Severity, now: int) returns (r: Option<(IncidentId, bool)>)
      requires Shape() && a < |table.alerts|
      modifies this`incidents, this`store, table
      ensures Shape()
      ensures old(table.alerts[a].service) !in cat.services ==> r.None? && store == old(store)
      ensures old(table.alerts[a].service) in cat.services ==> r.Some? && exists prior, d ::
                PriorAnswer(old(store), a, prior) && Decided(cat, old(store), a, prior, now, d)
                && store == Ingested(old(store), a, d, severity, now).(clock := now)
                && r.value == (if d.Some? then (d.value, false) else (|old(incidents)|, true))
      ensures r.Some? ==> table.alerts == old(table.alerts)[a := old(table.alerts)[a].(incident := Some(r.value.0))]
      ensures r.Some? && r.value.1 ==>
                var al := old(table.alerts)[a];
                incidents == old(incidents) +
                  [Incident(al.environment, al.service, al.firedAt, now, severity, 1, [al.ref],
                            L.Life(L.Detected, None, None, None, None, None, None, []))]
      ensures r.Some? && !r.value.1 ==> r.value.0 < |old(incidents)| == |incidents|
    {
      var d;
      ghost var prior;
      var tables := Store([], table.alerts, incidents, 0);
      d, prior := FindIncidentForAlert(cat, tables, a, now);
      if table.alerts[a].service !in cat.services {
        return None;
      }
      DecisionReadsTables(cat, tables, store, a, prior, now, d);
      if d.Some? {
        AttachAlert(d.value, a, severity);
        store := store.(clock := now);
        return Some((d.value, false));
      }
      var al, n := table.alerts[a], |incidents|;
      incidents := incidents + [Incident(al.environment, al.service, al.firedAt, now, severity, 1, [al.ref], L.BORN)];
      table.alerts := table.alerts[a := al.(incident := Some(n))];
      store := Opened(store, a, severity, now).(clock := now);
      return Some((n, true));
    }

    ghost method RecordIngest(step: Step, now: int, before: Store, n: nat)
      requires CanRun(cat, EMPTY, trace) && Run(cat, EMPTY, trace) == before
      requires step.Ingest? && Enabled(cat, before, step, now) && store == Next(before, step, now)
      requires forall k :: 0 <= k < |before.rules| ==> A.PointsInto(before.rules[k], before.alerts)
      modifies this`trace
      ensures Tracked() && trace == old(trace) + [Timed(step, now)] && store.clock == now
      ensures OnlyLinks(before, store, iset{step.a}) && store.alerts[step.a].incident.Some?
      ensures
        (&& old(PromptRun(cat, EMPTY, trace, 0) && OrderedRun(cat, EMPTY, trace))
         && Ticking(before, n, now)) ==> InStep() && Ticking(store, n, now)
    {
      IngestEffect(cat, before, step, n, now);
      Record(step, now, before);
    }

    /** One guarded ingest, as every handler does it; inside a tick it is prompt and in order. */
    method IngestUnlinked(a: AlertId, severity: Severity, now: int, ghost n: nat) returns (ok: bool)
      requires Valid() && a < |table.alerts| && store.clock <= now && table.alerts[a].incident.None?
      modifies this`incidents, this`store, this`trace, table
      ensures Valid() && store.clock <= now && old(trace) <= trace
      ensures ok <==> old(table.alerts[a].service) in cat.services
      ensures !ok ==> store == old(store) && trace == old(trace)
      ensures OnlyLinks(old(store), store, iset{a}) && (ok ==> store.alerts[a].incident.Some?)
      ensures ok ==> exists step: Step ::
                step.Ingest? && step.a == a && step.severity == severity && Enabled(cat, old(store), step, now)
                && store == Next(old(store), step, now)
      ensures old(InStep()) && Ticking(old(store), n, now) ==> InStep() && Ticking(store, n, now)
    {
      ghost var before := store;
      var r := IngestAlert(a, severity, now);
      ok := r.Some?;
      if ok {
        ghost var prior, d :| PriorAnswer(before, a, prior) && Decided(cat, before, a, prior, now, d)
                && store == Ingested(before, a, d, severity, now).(clock := now);
        ghost var step := Ingest(a, prior, d, severity);
        RecordIngest(step, now, before, n);
      }
    }

    /** Since the tables were `st` and the steps `ts` only alerts of `these` were linked, in step if it was so then. */
    ghost predicate Linking(st: Store, ts: seq<Timed>, these: iset<int>, n: nat, now: int, inStep: bool)
      reads this, table, rules
    {
      && Valid() && store.clock <= now && ts <= trace && OnlyLinks(st, store, these)
      && (inStep ==> InStep() && Ticking(store, n, now))
    }

    method IngestAmong(a: AlertId, severity: Severity, now: int, ghost st: Store, ghost ts: seq<Timed>,
                       ghost these: iset<int>, ghost n: nat, ghost inStep: bool) returns (ok: bool)
      requires Linking(st, ts, these, n, now, inStep)
      requires a < |table.alerts| && a in these && table.alerts[a].incident.None?
      modifies this`incidents, this`store, this`trace, table
      ensures Linking(st, ts, these, n, now, inStep) && OnlyLinks(old(store), store, iset{a})
      ensures ok ==> store.alerts[a].incident.Some?
      ensures !ok ==> store.alerts[a].service !in cat.services
    {
      ghost var before := store;
      ok := IngestUnlinked(a, severity, now, n);
      LinksCompose(st, before, store, these);
    }

    /** The first loop of the handler: the alerts its rule passes returned. */
    method IngestFired(fired: seq<AlertId>, assess: AlertId -> Severity, now: int, ghost n: nat) returns (ok: bool)
      requires Valid() && store.clock <= now && forall a :: a in fired ==> a < |store.alerts|
      modifies this`incidents, this`store, this`trace, table
      ensures Valid() && store.clock <= now && old(trace) <= trace && OnlyLinks(old(store), store, Among(fired))
      ensures !ok ==> exists a :: 0 <= a < |table.alerts| && table.alerts[a].service !in cat.services
      ensures old(InStep()) && Ticking(old(store), n, now) ==> InStep() && Ticking(store, n, now)
    {
      ghost var st, ts, these, inStep := store, trace, Among(fired), InStep() && Ticking(store, n, now);
      for k := 0 to |fired|
        invariant Linking(st, ts, these, n, now, inStep)
      {
        assert fired[k] in fired;
        if table.alerts[fired[k]].incident.None? {
          ok := IngestAmong(fired[k], assess(fired[k]), now, st, ts, these, n, inStep);
          if !ok {
            return;
          }
        }
      }
      ok := true;
    }

    /** The second loop: whatever is firing and still unlinked. */
    method IngestFiring(assess: AlertId -> Severity, now: int, ghost n: nat) returns (ok: bool)
      requires Valid() && store.clock <= now
      modifies this`incidents, this`store, this`trace, table
      ensures Valid() && old(trace) <= trace && OnlyLinks(old(store), store, StillFiring(old(store)))
      ensures ok ==> forall a :: A.Firing(table.alerts, a) ==> table.alerts[a].incident.Some?
      ensures !ok ==> exists a :: 0 <= a < |table.alerts| && table.alerts[a].service !in cat.services
      ensures old(InStep()) && Ticking(old(store), n, now) ==> InStep() && Ticking(store, n, now)
    {
      ghost var st, ts, these, inStep := store, trace, StillFiring(store), InStep() && Ticking(store, n, now);
      for a := 0 to |table.alerts|
        invariant Linking(st, ts, these, n, now, inStep)
        invariant forall b :: 0 <= b < a && A.Firing(store.alerts, b) ==> store.alerts[b].incident.Some?
      {
        if table.alerts[a].firing && table.alerts[a].incident.None? {
          ok := IngestAmong(a, assess(a), now, st, ts, these, n, inStep);
          if !ok {
            return;
          }
        }
      }
      ok := true;
    }

    /** Both loops: inside a tick nothing is left unlinked. */
    method IngestAll(fired: seq<AlertId>, assess: AlertId -> Severity, now: int, ghost n: nat) returns (ok: bool)
      requires Valid() && store.clock <= now && forall a :: a in fired ==> a < |store.alerts|
      modifies this`incidents, this`store, this`trace, table
      ensures Valid() && old(trace) <= trace && OnlyLinks(old(store), store, Among(fired) + StillFiring(old(store)))
      ensures ok ==> forall a :: A.Firing(table.alerts, a) ==> table.alerts[a].incident.Some?
      ensures !ok ==> exists a :: 0 <= a < |table.alerts| && table.alerts[a].service !in cat.services
      ensures ok && old(InStep()) && Ticking(old(store), n, now) ==> InStep() && AllLinked(store)
    {
      ok := IngestFired(fired, assess, now, n);
      ghost var ingested := store;
      if ok {
        ok := IngestFiring(assess, now, n);
        if ok && Ticking(store, n, now) {
          TickEnds(store, n, now);
        }
      }
      LinksAdd(old(store), ingested, store, fired);
    }

    /**
     `on_telemetry_received`: every rule is evaluated, then the alerts just fired are ingested, then every firing
     alert still unlinked. Unless an alert's service is unknown no firing alert is left without an incident, and
     a pipeline that only ever ingested so, at strictly later times, stays in step.
     */
    method OnTelemetryReceived(readings: seq<seq<A.Reading>>, assess: AlertId -> Severity, now: int) returns (ok: bool)
      requires Valid() && store.clock <= now && |readings| == |rules| && NewRefs(store.alerts, readings)
      modifies this`incidents, this`store, this`trace, table, rules
      ensures Valid() && old(trace) <= trace
      ensures
        var evaluated := Evaluated(old(store), ConfigsOf(rules), readings, now, |rules|);
        var fired := FiredIn(old(store), ConfigsOf(rules), readings, now, |rules|);
        && AlertsFollow(old(store), evaluated)
        && OnlyLinks(evaluated, store, Among(fired) + StillFiring(evaluated))
      ensures ok ==> forall a :: A.Firing(table.alerts, a) ==> table.alerts[a].incident.Some?
      ensures !ok ==> exists a :: 0 <= a < |table.alerts| && table.alerts[a].service !in cat.services
      ensures ok && old(InStep() && AllLinked(store) && store.clock < now) ==> InStep() && AllLinked(store)
    {
      ghost var n := |table.alerts|;
      if InStep() && AllLinked(store) && store.clock < now {
        TickBegins(cat, trace, now);
      }
      var fired := EvaluateAllRules(readings, now);
      ok := IngestAll(fired, assess, now, n);
    }

    // ----- the incident engine -------------------------------------------------------------

    /** `resolve` settles the alerts of its incident that are still firing. */
    method SettleAlerts(i: IncidentId, now: int)
      modifies table
      ensures table.alerts == SettledAll(old(table.alerts), i, now)
    {
      for k := 0 to |table.alerts|
        invariant |table.alerts| == |old(table.alerts)|
        invariant forall j :: 0 <= j < k ==> table.alerts[j] == Settled(old(table.alerts)[j], i, now)
        invariant forall j :: k <= j < |table.alerts| ==> table.alerts[j] == old(table.alerts)[j]
      {
        var al := table.alerts[k];
        if al.incident == Some(i) && al.firing {
          table.alerts := table.alerts[k := al.(firing := false, resolvedAt := Some(now))];
        }
      }
    }

    /** An operation of the engine on an incident: it neither loses a link nor puts the pipeline out of step. */
    method Operate(i: IncidentId, op: L.Op, now: int, at: int)
      requires Valid() && store.clock <= now && i < |incidents|
      modifies this`incidents, this`store, this`trace, table
      ensures Valid() && AlertsFollow(old(store), store)
      ensures store == Next(old(store), Step.Operate(i, op, at), now)
      ensures incidents == old(incidents)[i := old(incidents)[i].(life := L.Perform(old(incidents)[i].life, op, now, at))]
      ensures |table.alerts| == |old(table.alerts)|
      ensures forall a :: 0 <= a < |table.alerts| ==>
                var was := old(table.alerts)[a];
                table.alerts[a] ==
                  if op.Resolve? && old(incidents)[i].life.status != L.Closed && was.incident == Some(i) && was.firing
                  then was.(firing := false, resolvedAt := Some(now)) else was
      ensures old(InStep()) ==> InStep()
      ensures old(AllLinked(store)) ==> AllLinked(store)
    {
      ghost var before, step := store, Step.Operate(i, op, at);
      var settles := op.Resolve? && incidents[i].life.status != L.Closed;
      incidents := incidents[i := incidents[i].(life := L.Perform(incidents[i].life, op, now, at))];
      if settles {
        SettleAlerts(i, now);
      }
      store := Next(before, step, now);
      StepPersists(cat, before, step, now);
      Record(step, now, before);
    }
  }

  /**
   A pipeline that stayed in step, whatever its rules saw and whatever was done to its incidents: alerts were
   ingested without lag and in firing order, so related open incidents are more than the whole window apart
   and no fingerprint is on two open incidents.
   */
  lemma InStepKeepsApart(p: Pipeline)
    requires p.Valid() && p.InStep()
    ensures OnePerFingerprint(p.store) && A.OneFiring(p.table.alerts)
    ensures forall i: nat, j: nat ::
              (&& i < j < |p.incidents| && IsOpen(p.store, i) && IsOpen(p.store, j)
               && (|| LinkedIncidents(p.cat, p.incidents[i], p.incidents[j])
                   || LinkedIncidents(p.cat, p.incidents[j], p.incidents[i]))) ==>
                p.incidents[j].detectedAt - p.incidents[i].detectedAt > 15 * 60 * 1_000_000
  {
    RepeatsNeverSplit(p.cat, p.trace);
    RunKeepsOneFiring(p.cat, p.trace);
    forall i: nat, j: nat |
      && i < j < |p.incidents| && IsOpen(p.store, i) && IsOpen(p.store, j)
      && (|| LinkedIncidents(p.cat, p.incidents[i], p.incidents[j])
          || LinkedIncidents(p.cat, p.incidents[j], p.incidents[i]))
      ensures p.incidents[j].detectedAt - p.incidents[i].detectedAt > 15 * 60 * 1_000_000
    {
      OpenIncidentsApart(p.cat, p.trace, 0, i, j);
    }
  }
}
