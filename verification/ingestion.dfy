/** Rule passes, ingestion and incident operations over the shared tables, and what every run of them keeps. */
module Ingestion {
  import opened Wrappers
  import opened Correlation
  import A = AlertRules
  import L = Lifecycle

  // ----- what one ingest does --------------------------------------------------------------

  /** The place of one more reference in a list kept sorted and free of duplicates. */
  function InsertRef(refs: seq<int>, ref: int): seq<int> {
    if refs == [] || ref < refs[0] then [ref] + refs
    else if ref == refs[0] then refs
    else [refs[0]] + InsertRef(refs[1..], ref)
  }

  predicate Ascends(refs: seq<int>) { forall j, k :: 0 <= j < k < |refs| ==> refs[j] < refs[k] }

  function Link(st: Store, a: AlertId, i: IncidentId): Store
    requires a < |st.alerts|
  {
    st.(alerts := st.alerts[a := st.alerts[a].(incident := Some(i))])
  }

  function Opened(st: Store, a: AlertId, severity: Severity, now: int): Store
    requires a < |st.alerts|
  {
    var al := st.alerts[a];
    var inc := Incident(al.environment, al.service, al.firedAt, now, severity, 1, [al.ref], L.BORN);
    var linked := Link(st, a, |st.incidents|);
    linked.(incidents := st.incidents + [inc])
  }

  function Worse(a: Severity, b: Severity): Severity { if a < b then a else b }

  /** `_attach_alert`: severity only ever moves to a worse rank. */
  function Attached(st: Store, a: AlertId, i: IncidentId, severity: Severity): Store
    requires a < |st.alerts| && i < |st.incidents|
  {
    var inc, ref := st.incidents[i], st.alerts[a].ref;
    var linked := Link(st, a, i);
    if ref in inc.refs then linked
    else
      linked.(incidents := st.incidents[i := inc.(alertCount := inc.alertCount + 1, refs := InsertRef(inc.refs, ref),
                                                  severity := Worse(severity, inc.severity))])
  }

  function Ingested(st: Store, a: AlertId, d: Option<IncidentId>, severity: Severity, now: int): Store
    requires a < |st.alerts| && (d.Some? ==> d.value < |st.incidents|)
  {
    match d
    case None => Opened(st, a, severity, now)
    case Some(i) => Attached(st, a, i, severity)
  }

  // ----- steps -----------------------------------------------------------------------------

  /**
   `AddRule`: a rule is created. `Evaluate`: a pass of a rule under its present configuration. `Ingest`: a handler
   ingests an alert it found unlinked. `Operate`: an engine operation on an incident; a resolve that is not
   refused settles the alerts of the incident.
   */
  datatype Step =
    | AddRule
    | Evaluate(rule: nat, cfg: A.Config, readings: seq<A.Reading>)
    | Ingest(a: AlertId, prior: Option<AlertId>, d: Option<IncidentId>, severity: Severity)
    | Operate(i: IncidentId, op: L.Op, at: int)

  function Settled(alert: A.Alert, i: IncidentId, now: int): A.Alert {
    if alert.incident == Some(i) && alert.firing then alert.(firing := false, resolvedAt := Some(now)) else alert
  }

  function SettledAll(alerts: seq<A.Alert>, i: IncidentId, now: int): seq<A.Alert> {
    seq(|alerts|, k requires 0 <= k < |alerts| => Settled(alerts[k], i, now))
  }

  predicate InRange(st: Store, step: Step) {
    match step
    case AddRule => true
    case Evaluate(rule, _, _) => rule < |st.rules|
    case Ingest(a, _, d, _) => a < |st.alerts| && (d.Some? ==> d.value < |st.incidents|)
    case Operate(i, _, _) => i < |st.incidents|
  }

  ghost predicate Enabled(cat: Catalog, st: Store, step: Step, now: int): (b: bool)
    ensures b ==> InRange(st, step)
  {
    && st.clock <= now
    && match step
       case AddRule => true
       case Evaluate(rule, _, readings) => rule < |st.rules| && A.FreshRefs(st.alerts, readings)
       case Ingest(a, prior, d, _) =>
         && a < |st.alerts| && st.alerts[a].incident.None? && st.alerts[a].service in cat.services
         && PriorAnswer(st, a, prior) && Decided(cat, st, a, prior, now, d)
       case Operate(i, _, _) => i < |st.incidents|
  }

  function Next(st: Store, step: Step, now: int): Store
    requires InRange(st, step)
  {
    match step
    case AddRule => st.(rules := st.rules + [A.FRESH], clock := now)
    case Evaluate(rule, cfg, readings) =>
      var (state, alerts) := A.Pass(cfg, st.rules[rule], st.alerts, readings, now);
      st.(rules := st.rules[rule := state], alerts := alerts, clock := now)
    case Ingest(a, _, d, severity) => Ingested(st, a, d, severity, now).(clock := now)
    case Operate(i, op, at) =>
      var inc := st.incidents[i];
      var settles := op.Resolve? && inc.life.status != L.Closed;
      st.(incidents := st.incidents[i := inc.(life := L.Perform(inc.life, op, now, at))],
          alerts := if settles then SettledAll(st.alerts, i, now) else st.alerts, clock := now)
  }

  // ----- what a step does to the rows of the alert table -----------------------------------

  /** An alert keeps its identity and its incident, and does not start firing again. */
  predicate Follows(x: A.Alert, y: A.Alert) {
    && y == x.(firing := y.firing, resolvedAt := y.resolvedAt, observed := y.observed, incident := y.incident)
    && (x.incident.Some? ==> y.incident == x.incident)
    && (y.firing ==> x.firing)
  }

  predicate AlertsFollow(st: Store, st': Store) {
    |st.alerts| <= |st'.alerts| && forall a :: 0 <= a < |st.alerts| ==> Follows(st.alerts[a], st'.alerts[a])
  }

  lemma FollowsTransitive(x: Store, y: Store, z: Store)
    requires AlertsFollow(x, y) && AlertsFollow(y, z)
    ensures AlertsFollow(x, z)
  {
    forall a | 0 <= a < |x.alerts|
      ensures Follows(x.alerts[a], z.alerts[a])
    {
      assert Follows(x.alerts[a], y.alerts[a]) && Follows(y.alerts[a], z.alerts[a]);
    }
  }

  /** No link of `st` was changed or added; alerts that are new are firing, unlinked and dated `now`. */
  predicate SameLinks(st: Store, st': Store, now: int) {
    && AlertsFollow(st, st')
    && (forall a :: 0 <= a < |st.alerts| ==> st'.alerts[a].incident == st.alerts[a].incident)
    && forall a :: |st.alerts| <= a < |st'.alerts| ==>
         st'.alerts[a].incident.None? && st'.alerts[a].firing && st'.alerts[a].firedAt == now
  }

  lemma OtherStepKeepsLinks(cat: Catalog, st: Store, step: Step, now: int)
    requires A.RefsUnique(st.alerts) && Enabled(cat, st, step, now) && !step.Ingest?
    ensures SameLinks(st, Next(st, step, now), now) && A.RefsUnique(Next(st, step, now).alerts)
  {
    if step.Evaluate? {
      A.PassRows(step.cfg, st.rules[step.rule], st.alerts, step.readings, now);
    }
  }

  // ----- the books: alerts against incidents -----------------------------------------------

  ghost function LinkedTo(st: Store, i: IncidentId): set<int> {
    set a | 0 <= a < |st.alerts| && st.alerts[a].incident == Some(i)
  }

  ghost predicate LinksExist(st: Store) {
    forall a :: 0 <= a < |st.alerts| && st.alerts[a].incident.Some? ==> st.alerts[a].incident.value < |st.incidents|
  }

  /** One incident's list is exactly the references of the alerts linked to it, sorted, and its count agrees. */
  ghost predicate BooksOf(st: Store, i: IncidentId)
    requires i < |st.incidents|
  {
    var inc := st.incidents[i];
    && inc.alertCount == |inc.refs| == |LinkedTo(st, i)|
    && Ascends(inc.refs)
    && (forall a :: a in LinkedTo(st, i) ==> st.alerts[a].ref in inc.refs)
    && (forall r :: r in inc.refs ==> exists a :: a in LinkedTo(st, i) && st.alerts[a].ref == r)
  }

  ghost predicate Books(st: Store) {
    A.RefsUnique(st.alerts) && LinksExist(st) && forall i :: 0 <= i < |st.incidents| ==> BooksOf(st, i)
  }

  lemma {:induction false} InsertMembers(refs: seq<int>, ref: int)
    ensures forall r :: r in InsertRef(refs, ref) <==> r in refs || r == ref
  {
    if refs != [] && refs[0] < ref {
      InsertMembers(refs[1..], ref);
      assert refs == [refs[0]] + refs[1..];
    }
  }

  lemma {:induction false} InsertSpec(refs: seq<int>, ref: int)
    requires Ascends(refs) && ref !in refs
    ensures Ascends(InsertRef(refs, ref)) && |InsertRef(refs, ref)| == |refs| + 1
  {
    if refs != [] && refs[0] < ref {
      InsertSpec(refs[1..], ref);
      InsertMembers(refs[1..], ref);
      var tail := InsertRef(refs[1..], ref);
      forall k | 0 <= k < |tail|
        ensures refs[0] < tail[k]
      {
        assert tail[k] in tail;
        assert tail[k] == ref || tail[k] in refs[1..];
      }
    }
  }

  /** Nothing about incident `i` changed, and the same alerts are linked to it under the same references. */
  lemma BooksCarry(st: Store, st': Store, i: IncidentId)
    requires i < |st.incidents| && i < |st'.incidents| && BooksOf(st, i)
    requires st'.incidents[i].(life := L.BORN) == st.incidents[i].(life := L.BORN)
    requires LinkedTo(st', i) == LinkedTo(st, i)
    requires forall a :: a in LinkedTo(st, i) ==> st'.alerts[a].ref == st.alerts[a].ref
    ensures BooksOf(st', i)
  {
    assert st'.incidents[i].refs == st.incidents[i].refs && st'.incidents[i].alertCount == st.incidents[i].alertCount;
    forall r | r in st'.incidents[i].refs
      ensures exists a :: a in LinkedTo(st', i) && st'.alerts[a].ref == r
    {
      var a :| a in LinkedTo(st, i) && st.alerts[a].ref == r;
      assert a in LinkedTo(st', i);
    }
  }

  lemma OtherStepKeepsBooks(cat: Catalog, st: Store, step: Step, now: int)
    requires Books(st) && Enabled(cat, st, step, now) && !step.Ingest?
    ensures Books(Next(st, step, now))
  {
    var st' := Next(st, step, now);
    OtherStepKeepsLinks(cat, st, step, now);
    assert |st'.incidents| == |st.incidents|;
    forall i | 0 <= i < |st'.incidents|
      ensures BooksOf(st', i)
    {
      assert LinkedTo(st', i) == LinkedTo(st, i);
      BooksCarry(st, st', i);
    }
  }

  lemma LinkSets(st: Store, a: AlertId, i: IncidentId, k: IncidentId)
    requires a < |st.alerts| && st.alerts[a].incident.None?
    ensures LinkedTo(Link(st, a, i), k) == if k == i then LinkedTo(st, k) + {a} else LinkedTo(st, k)
    ensures a !in LinkedTo(st, k)
  {
  }

  lemma OpenedKeepsBooks(st: Store, a: AlertId, severity: Severity, now: int)
    requires Books(st) && a < |st.alerts| && st.alerts[a].incident.None?
    ensures Books(Opened(st, a, severity, now))
  {
    var st', n := Opened(st, a, severity, now), |st.incidents|;
    forall i | 0 <= i < |st'.incidents|
      ensures BooksOf(st', i)
    {
      LinkSets(st, a, n, i);
      assert LinkedTo(st', i) == LinkedTo(Link(st, a, n), i);
      if i < n {
        BooksCarry(st, st', i);
      } else {
        assert LinkedTo(st, n) == {};
        assert LinkedTo(st', n) == {a};
        assert a in LinkedTo(st', n);
      }
    }
  }

  /** An unlinked alert's reference is on no incident yet, so attaching it always takes the counting branch. */
  lemma RefIsNew(st: Store, a: AlertId, i: IncidentId)
    requires Books(st) && a < |st.alerts| && st.alerts[a].incident.None? && i < |st.incidents|
    ensures st.alerts[a].ref !in st.incidents[i].refs
  {
    assert BooksOf(st, i);
    forall b | b in LinkedTo(st, i)
      ensures st.alerts[b].ref != st.alerts[a].ref
    {
      assert b != a;
    }
  }

  lemma GrownBooks(st: Store, st': Store, a: AlertId, i: IncidentId)
    requires a < |st.alerts| && i < |st.incidents| && i < |st'.incidents| && BooksOf(st, i) && a !in LinkedTo(st, i)
    requires st.alerts[a].ref !in st.incidents[i].refs
    requires LinkedTo(st', i) == LinkedTo(st, i) + {a}
    requires |st'.alerts| == |st.alerts| && forall b :: 0 <= b < |st.alerts| ==> st'.alerts[b].ref == st.alerts[b].ref
    requires st'.incidents[i].refs == InsertRef(st.incidents[i].refs, st.alerts[a].ref)
    requires st'.incidents[i].alertCount == st.incidents[i].alertCount + 1
    ensures BooksOf(st', i)
  {
    InsertMembers(st.incidents[i].refs, st.alerts[a].ref);
    InsertSpec(st.incidents[i].refs, st.alerts[a].ref);
    forall r | r in st'.incidents[i].refs
      ensures exists b :: b in LinkedTo(st', i) && st'.alerts[b].ref == r
    {
      if r == st.alerts[a].ref {
        assert a in LinkedTo(st', i);
      } else {
        var b :| b in LinkedTo(st, i) && st.alerts[b].ref == r;
        assert b in LinkedTo(st', i);
      }
    }
  }

  lemma AttachedKeepsBooks(st: Store, a: AlertId, i: IncidentId, severity: Severity)
    requires Books(st) && a < |st.alerts| && st.alerts[a].incident.None? && i < |st.incidents|
    ensures Books(Attached(st, a, i, severity))
  {
    var st' := Attached(st, a, i, severity);
    RefIsNew(st, a, i);
    forall k | 0 <= k < |st'.incidents|
      ensures BooksOf(st', k)
    {
      LinkSets(st, a, i, k);
      assert LinkedTo(st', k) == LinkedTo(Link(st, a, i), k);
      if k == i {
        GrownBooks(st, st', a, i);
      } else {
        BooksCarry(st, st', k);
      }
    }
  }

  lemma StepKeepsBooks(cat: Catalog, st: Store, step: Step, now: int)
    requires Books(st) && Enabled(cat, st, step, now)
    ensures Books(Next(st, step, now))
  {
    if !step.Ingest? {
      OtherStepKeepsBooks(cat, st, step, now);
    } else {
      var st' := Ingested(st, step.a, step.d, step.severity, now);
      match step.d {
        case None => OpenedKeepsBooks(st, step.a, step.severity, now);
        case Some(i) => AttachedKeepsBooks(st, step.a, i, step.severity);
      }
      forall i | 0 <= i < |st'.incidents|
        ensures BooksOf(st'.(clock := now), i)
      {
        assert LinkedTo(st'.(clock := now), i) == LinkedTo(st', i);
        BooksCarry(st', st'.(clock := now), i);
      }
    }
  }

  // ----- separation of open incidents ------------------------------------------------------

  /** Services are catalogued and no time lies in the future. */
  ghost predicate Dated(cat: Catalog, st: Store) {
    && (forall i :: 0 <= i < |st.incidents| ==>
          st.incidents[i].service in cat.services && st.incidents[i].detectedAt <= st.incidents[i].createdAt <= st.clock)
    && forall a :: 0 <= a < |st.alerts| ==> st.alerts[a].firedAt <= st.clock
  }

  ghost predicate LinkedIncidents(cat: Catalog, x: Incident, y: Incident) {
    x.environment == y.environment && x.service in cat.services && RelatedTo(cat, x.service, y.service)
  }

  /** When a later incident was opened, every related one that is still open had been detected before the window. */
  ghost predicate Separated(cat: Catalog, st: Store) {
    forall i, j :: 0 <= i < j < |st.incidents| && IsOpen(st, i) && LinkedIncidents(cat, st.incidents[j], st.incidents[i])
      ==> st.incidents[i].detectedAt + WINDOW < st.incidents[j].createdAt
  }

  ghost predicate Prompt(st: Store, lag: nat) {
    forall i :: 0 <= i < |st.incidents| ==> st.incidents[i].createdAt - st.incidents[i].detectedAt <= lag
  }

  predicate Promptly(st: Store, step: Step, now: int, lag: nat) {
    step.Ingest? && step.a < |st.alerts| ==> now - st.alerts[step.a].firedAt <= lag
  }

  /** What the engine never changes about an incident, and it is not reopened. */
  predicate Persists(x: Incident, y: Incident) {
    && y.environment == x.environment && y.service == x.service
    && y.detectedAt == x.detectedAt && y.createdAt == x.createdAt && y.severity <= x.severity
    && (L.Open(y.life.status) ==> L.Open(x.life.status))
  }

  lemma StepPersists(cat: Catalog, st: Store, step: Step, now: int)
    requires A.RefsUnique(st.alerts) && Enabled(cat, st, step, now)
    ensures AlertsFollow(st, Next(st, step, now))
    ensures |st.incidents| <= |Next(st, step, now).incidents|
    ensures forall i :: 0 <= i < |st.incidents| ==> Persists(st.incidents[i], Next(st, step, now).incidents[i])
    ensures |Next(st, step, now).incidents| > |st.incidents| ==> step.Ingest? && step.d.None?
  {
    if step.Operate? {
      L.NeverReopened(st.incidents[step.i].life, step.op, now, step.at);
    }
    if !step.Ingest? {
      OtherStepKeepsLinks(cat, st, step, now);
    }
  }

  lemma StepKeepsSeparation(cat: Catalog, st: Store, step: Step, now: int)
    requires Books(st) && Dated(cat, st) && Separated(cat, st) && Enabled(cat, st, step, now)
    ensures Separated(cat, Next(st, step, now))
  {
    var st', n := Next(st, step, now), |st.incidents|;
    StepPersists(cat, st, step, now);
    forall i, j | 0 <= i < j < |st'.incidents| && IsOpen(st', i) && LinkedIncidents(cat, st'.incidents[j], st'.incidents[i])
      ensures st'.incidents[i].detectedAt + WINDOW < st'.incidents[j].createdAt
    {
      assert Persists(st.incidents[i], st'.incidents[i]);
      if j < n {
        assert Persists(st.incidents[j], st'.incidents[j]);
      } else {
        assert !RelatedCandidate(cat, st, step.a, now, i);
      }
    }
  }

  lemma StepKeepsDates(cat: Catalog, st: Store, step: Step, now: int, lag: nat)
    requires Books(st) && Dated(cat, st) && Prompt(st, lag) && Enabled(cat, st, step, now) && Promptly(st, step, now, lag)
    ensures Dated(cat, Next(st, step, now)) && Prompt(Next(st, step, now), lag)
  {
    var st' := Next(st, step, now);
    StepPersists(cat, st, step, now);
    forall i | 0 <= i < |st'.incidents|
      ensures st'.incidents[i].service in cat.services
      ensures st'.incidents[i].createdAt - lag <= st'.incidents[i].detectedAt <= st'.incidents[i].createdAt <= now
    {
      if i < |st.incidents| {
        assert Persists(st.incidents[i], st'.incidents[i]);
      }
    }
    if !step.Ingest? {
      OtherStepKeepsLinks(cat, st, step, now);
    }
  }

  // ----- one open incident per fingerprint -------------------------------------------------

  predicate OnOpen(st: Store, a: int) {
    0 <= a < |st.alerts| && st.alerts[a].incident.Some? && IsOpen(st, st.alerts[a].incident.value)
  }

  /** Linked alerts that share a fingerprint and are on open incidents are on the same one. */
  ghost predicate OnePerFingerprint(st: Store) {
    forall a, b :: OnOpen(st, a) && OnOpen(st, b) && st.alerts[a].fingerprint == st.alerts[b].fingerprint
      ==> st.alerts[a].incident == st.alerts[b].incident
  }

  /** Only the latest alert of a fingerprint can be on an open incident other alerts are not on. */
  ghost predicate LatestLeads(st: Store) {
    forall a, b :: OnOpen(st, a) && 0 <= b < |st.alerts| && st.alerts[b].incident.Some?
      && st.alerts[a].fingerprint == st.alerts[b].fingerprint && st.alerts[a].firedAt <= st.alerts[b].firedAt
      ==> st.alerts[a].incident == st.alerts[b].incident
  }

  /** Alerts of one fingerprint are ingested in the order they fired. */
  predicate InOrder(st: Store, step: Step) {
    step.Ingest? && step.a < |st.alerts| ==>
      forall b :: 0 <= b < |st.alerts| && IsPrior(st, step.a, b) ==> st.alerts[b].firedAt < st.alerts[step.a].firedAt
  }

  lemma LeadersAgree(st: Store)
    requires LatestLeads(st)
    ensures OnePerFingerprint(st)
  {
  }

  lemma IngestKeepsLeader(cat: Catalog, st: Store, step: Step, now: int)
    requires LatestLeads(st) && LinksExist(st) && Enabled(cat, st, step, now) && InOrder(st, step) && step.Ingest?
    ensures LatestLeads(Ingested(st, step.a, step.d, step.severity, now))
  {
    var st', x := Ingested(st, step.a, step.d, step.severity, now), step.a;
    forall a, b | OnOpen(st', a) && 0 <= b < |st'.alerts| && st'.alerts[b].incident.Some?
      && st'.alerts[a].fingerprint == st'.alerts[b].fingerprint && st'.alerts[a].firedAt <= st'.alerts[b].firedAt
      ensures st'.alerts[a].incident == st'.alerts[b].incident
    {
      if a == x && b != x {
        assert IsPrior(st, x, b);
      } else if a != x && b != x {
        assert OnOpen(st, a);
      } else if a != x {
        PriorCarriesOpen(cat, st, step, now, a);
      }
    }
  }

  /** If some linked alert of the fingerprint is on an open incident, the new alert joins that incident. */
  lemma PriorCarriesOpen(cat: Catalog, st: Store, step: Step, now: int, a: AlertId)
    requires LatestLeads(st) && Enabled(cat, st, step, now) && step.Ingest?
    requires OnOpen(st, a) && IsPrior(st, step.a, a)
    ensures step.d == st.alerts[a].incident
  {
    var p := step.prior.value;
    assert IsPrior(st, step.a, p) && st.alerts[a].firedAt <= st.alerts[p].firedAt;
    assert st.alerts[a].incident == st.alerts[p].incident;
    assert DedupedTo(st, step.prior, st.alerts[a].incident.value);
  }

  lemma StepKeepsLeader(cat: Catalog, st: Store, step: Step, now: int)
    requires Books(st) && LatestLeads(st) && Enabled(cat, st, step, now) && InOrder(st, step)
    ensures LatestLeads(Next(st, step, now))
  {
    var st' := Next(st, step, now);
    StepPersists(cat, st, step, now);
    if step.Ingest? {
      IngestKeepsLeader(cat, st, step, now);
      var mid := Ingested(st, step.a, step.d, step.severity, now);
      assert forall a :: OnOpen(st', a) <==> OnOpen(mid, a);
    } else {
      OtherStepKeepsLinks(cat, st, step, now);
      assert forall a :: OnOpen(st', a) ==> OnOpen(st, a);
    }
  }

  // ----- exactly when an ingest splits a fingerprint ----------------------------------------

  /** `b` is another alert with the fingerprint of `a`, on an open incident. */
  predicate Carries(st: Store, a: AlertId, b: int)
    requires a < |st.alerts|
  {
    OnOpen(st, b) && st.alerts[b].fingerprint == st.alerts[a].fingerprint
  }

  /** Ingesting an alert keeps its fingerprint on one open incident exactly when all its carriers are on the one decided. */
  lemma IngestKeepsOneIff(cat: Catalog, st: Store, a: AlertId, prior: Option<AlertId>, d: Option<IncidentId>,
                          severity: Severity, now: int)
    requires Books(st) && OnePerFingerprint(st) && Enabled(cat, st, Ingest(a, prior, d, severity), now)
    ensures OnePerFingerprint(Ingested(st, a, d, severity, now))
       <==> forall b :: Carries(st, a, b) ==> st.alerts[b].incident == d
  {
    var st' := Ingested(st, a, d, severity, now);
    assert OnOpen(st', a);
    assert forall b :: b != a ==> (OnOpen(st', b) <==> OnOpen(st, b));
    assert !OnOpen(st, a);
    if b :| Carries(st, a, b) && st.alerts[b].incident != d {
      assert OnOpen(st', b) && st'.alerts[b].incident != st'.alerts[a].incident;
    }
  }

  /**
   What a caller can read off the tables before ingesting, given the answer to the fingerprint query: that
   alert's incident is open, or every open incident that carries the fingerprint is a related one in the
   window, detected later than any other such.
   */
  ghost predicate Safe(cat: Catalog, st: Store, a: AlertId, prior: Option<AlertId>, now: int)
    requires a < |st.alerts| && st.alerts[a].service in cat.services
  {
    || (exists i: nat :: DedupedTo(st, prior, i))
    || forall b :: Carries(st, a, b) ==>
         && RelatedCandidate(cat, st, a, now, st.alerts[b].incident.value)
         && forall j: nat :: RelatedCandidate(cat, st, a, now, j) && Some(j) != st.alerts[b].incident ==>
              DetectedAt(st, j) < DetectedAt(st, st.alerts[b].incident.value)
  }

  /** Whichever of the admissible decisions is taken, no repeat is split: exactly in the safe situations. */
  lemma NeverSplitsIff(cat: Catalog, st: Store, a: AlertId, prior: Option<AlertId>, severity: Severity, now: int)
    requires Books(st) && OnePerFingerprint(st) && st.clock <= now && a < |st.alerts| && PriorAnswer(st, a, prior)
    requires st.alerts[a].incident.None? && st.alerts[a].service in cat.services
    ensures (forall d :: Enabled(cat, st, Ingest(a, prior, d, severity), now) ==>
               OnePerFingerprint(Ingested(st, a, d, severity, now)))
       <==> Safe(cat, st, a, prior, now)
  {
    if Safe(cat, st, a, prior, now) {
      forall d | Enabled(cat, st, Ingest(a, prior, d, severity), now)
        ensures OnePerFingerprint(Ingested(st, a, d, severity, now))
      {
        SafeKeepsOne(cat, st, a, prior, d, severity, now);
      }
    } else {
      var b :| Carries(st, a, b) &&
        !(&& RelatedCandidate(cat, st, a, now, st.alerts[b].incident.value)
          && forall j: nat :: RelatedCandidate(cat, st, a, now, j) && Some(j) != st.alerts[b].incident ==>
               DetectedAt(st, j) < DetectedAt(st, st.alerts[b].incident.value));
      var d := OtherDecision(cat, st, a, prior, now, st.alerts[b].incident.value);
      assert Enabled(cat, st, Ingest(a, prior, d, severity), now);
      IngestKeepsOneIff(cat, st, a, prior, d, severity, now);
      assert !OnePerFingerprint(Ingested(st, a, d, severity, now));
    }
  }

  lemma SafeKeepsOne(cat: Catalog, st: Store, a: AlertId, prior: Option<AlertId>, d: Option<IncidentId>,
                     severity: Severity, now: int)
    requires Books(st) && OnePerFingerprint(st) && Enabled(cat, st, Ingest(a, prior, d, severity), now)
    requires Safe(cat, st, a, prior, now)
    ensures OnePerFingerprint(Ingested(st, a, d, severity, now))
  {
    forall b | Carries(st, a, b)
      ensures st.alerts[b].incident == d
    {
      if i: nat :| DedupedTo(st, prior, i) {
        assert d == Some(i) && OnOpen(st, prior.value);
      } else {
        assert RelatedCandidate(cat, st, a, now, st.alerts[b].incident.value);
      }
    }
    IngestKeepsOneIff(cat, st, a, prior, d, severity, now);
  }

  /** When `i` is not the only latest related candidate, some admissible decision is another one. */
  lemma OtherDecision(cat: Catalog, st: Store, a: AlertId, prior: Option<AlertId>, now: int, i: IncidentId)
    returns (d: Option<IncidentId>)
    requires a < |st.alerts| && st.alerts[a].service in cat.services
    requires forall j: nat :: !DedupedTo(st, prior, j)
    requires
      !(&& RelatedCandidate(cat, st, a, now, i)
        && forall j: nat :: RelatedCandidate(cat, st, a, now, j) && j != i ==> DetectedAt(st, j) < DetectedAt(st, i))
    ensures Decided(cat, st, a, prior, now, d) && d != Some(i)
  {
    d := None;
    for k := 0 to |st.incidents|
      invariant d.Some? ==> RelatedCandidate(cat, st, a, now, d.value) && d.value != i
      invariant forall j: nat :: j < k && j != i && RelatedCandidate(cat, st, a, now, j) ==>
                  d.Some? && DetectedAt(st, j) <= DetectedAt(st, d.value)
    {
      if k != i && RelatedCandidate(cat, st, a, now, k) && (d.None? || DetectedAt(st, k) > DetectedAt(st, d.value)) {
        d := Some(k);
      }
    }
    assert forall j: nat :: RelatedCandidate(cat, st, a, now, j) ==> j < |st.incidents|;
  }

  // ----- environments ----------------------------------------------------------------------

  /** Every linked alert is on an incident of its own environment. */
  ghost predicate SameEnvironment(st: Store) {
    forall a :: 0 <= a < |st.alerts| && st.alerts[a].incident.Some? ==>
      && st.alerts[a].incident.value < |st.incidents|
      && st.incidents[st.alerts[a].incident.value].environment == st.alerts[a].environment
  }

  /** The fingerprint query does not look at the environment; this is what it costs, one ingest at a time. */
  lemma IngestKeepsEnvironmentIff(cat: Catalog, st: Store, a: AlertId, prior: Option<AlertId>, d: Option<IncidentId>,
                                  severity: Severity, now: int)
    requires SameEnvironment(st) && Enabled(cat, st, Ingest(a, prior, d, severity), now)
    ensures SameEnvironment(Ingested(st, a, d, severity, now))
       <==> forall i: nat :: DedupedTo(st, prior, i) ==> st.incidents[i].environment == st.alerts[a].environment
  {
    var st' := Ingested(st, a, d, severity, now);
    assert st'.alerts[a].incident.Some?;
    assert forall b :: 0 <= b < |st.alerts| && b != a ==> st'.alerts[b] == st.alerts[b];
    assert forall i :: 0 <= i < |st.incidents| ==> st'.incidents[i].environment == st.incidents[i].environment;
    if i: nat :| DedupedTo(st, prior, i) {
      assert d == Some(i);
    }
  }

  /** No two alerts of different environments have the same fingerprint. */
  ghost predicate EnvironmentsApart(st: Store) {
    forall a, b :: 0 <= a < |st.alerts| && 0 <= b < |st.alerts| && st.alerts[a].fingerprint == st.alerts[b].fingerprint
      ==> st.alerts[a].environment == st.alerts[b].environment
  }

  lemma StepKeepsEnvironment(cat: Catalog, st: Store, step: Step, now: int)
    requires Books(st) && SameEnvironment(st) && EnvironmentsApart(st) && Enabled(cat, st, step, now)
    ensures SameEnvironment(Next(st, step, now))
  {
    var st' := Next(st, step, now);
    if step.Ingest? {
      forall i: nat | DedupedTo(st, step.prior, i)
        ensures st.incidents[i].environment == st.alerts[step.a].environment
      {
        assert IsPrior(st, step.a, step.prior.value);
      }
      IngestKeepsEnvironmentIff(cat, st, step.a, step.prior, step.d, step.severity, now);
    } else {
      OtherStepKeepsLinks(cat, st, step, now);
      StepPersists(cat, st, step, now);
      forall a | 0 <= a < |st'.alerts| && st'.alerts[a].incident.Some?
        ensures st'.alerts[a].incident.value < |st'.incidents|
        ensures st'.incidents[st'.alerts[a].incident.value].environment == st'.alerts[a].environment
      {
        assert a < |st.alerts|;
        var i := st.alerts[a].incident.value;
        assert Persists(st.incidents[i], st'.incidents[i]);
      }
    }
  }

  // ----- runs ------------------------------------------------------------------------------

  datatype Timed = Timed(step: Step, now: int)

  const EMPTY := Store([], [], [], 0)

  ghost predicate CanRun(cat: Catalog, st: Store, ts: seq<Timed>)
    requires Books(st)
    decreases |ts|, 0
  {
    ts == [] ||
    (&& CanRun(cat, st, ts[..|ts| - 1])
     && Enabled(cat, Run(cat, st, ts[..|ts| - 1]), ts[|ts| - 1].step, ts[|ts| - 1].now))
  }

  ghost function Run(cat: Catalog, st: Store, ts: seq<Timed>): (st': Store)
    requires Books(st) && CanRun(cat, st, ts)
    ensures Books(st')
    decreases |ts|, 1
  {
    if ts == [] then st else After(cat, Run(cat, st, ts[..|ts| - 1]), ts[|ts| - 1])
  }

  ghost function After(cat: Catalog, st: Store, t: Timed): (st': Store)
    requires Books(st) && Enabled(cat, st, t.step, t.now)
    ensures Books(st')
  {
    StepKeepsBooks(cat, st, t.step, t.now);
    Next(st, t.step, t.now)
  }

  /** Every ingest of the run happens at most `lag` after its alert fired. */
  ghost predicate PromptRun(cat: Catalog, st: Store, ts: seq<Timed>, lag: nat)
    requires Books(st) && CanRun(cat, st, ts)
    decreases |ts|
  {
    ts == [] ||
    (&& PromptRun(cat, st, ts[..|ts| - 1], lag)
     && Promptly(Run(cat, st, ts[..|ts| - 1]), ts[|ts| - 1].step, ts[|ts| - 1].now, lag))
  }

  ghost predicate OrderedRun(cat: Catalog, st: Store, ts: seq<Timed>)
    requires Books(st) && CanRun(cat, st, ts)
    decreases |ts|
  {
    ts == [] ||
    (OrderedRun(cat, st, ts[..|ts| - 1]) && InOrder(Run(cat, st, ts[..|ts| - 1]), ts[|ts| - 1].step))
  }

  /** One more step at the end of a run. */
  lemma RunExtends(cat: Catalog, st: Store, ts: seq<Timed>, t: Timed)
    requires Books(st) && CanRun(cat, st, ts) && Enabled(cat, Run(cat, st, ts), t.step, t.now)
    ensures CanRun(cat, st, ts + [t]) && Run(cat, st, ts + [t]) == Next(Run(cat, st, ts), t.step, t.now)
    ensures forall lag :: PromptRun(cat, st, ts, lag) && Promptly(Run(cat, st, ts), t.step, t.now, lag)
              ==> PromptRun(cat, st, ts + [t], lag)
    ensures OrderedRun(cat, st, ts) && InOrder(Run(cat, st, ts), t.step) ==> OrderedRun(cat, st, ts + [t])
  {
    assert (ts + [t])[..|ts|] == ts;
  }

  /**
   Over any run no alert is relinked or starts firing again, no incident is dropped or reopened, and severity
   never de-escalates.
   */
  lemma {:induction false} RunsOnlyWorsen(cat: Catalog, st: Store, ts: seq<Timed>)
    requires Books(st) && CanRun(cat, st, ts)
    ensures AlertsFollow(st, Run(cat, st, ts))
    ensures
      var st' := Run(cat, st, ts);
      && |st.incidents| <= |st'.incidents|
      && forall i :: 0 <= i < |st.incidents| ==> Persists(st.incidents[i], st'.incidents[i])
    decreases |ts|
  {
    if ts != [] {
      var front, t := ts[..|ts| - 1], ts[|ts| - 1];
      RunsOnlyWorsen(cat, st, front);
      var mid := Run(cat, st, front);
      StepPersists(cat, mid, t.step, t.now);
      var st' := Next(mid, t.step, t.now);
      forall i | 0 <= i < |st.incidents|
        ensures Persists(st.incidents[i], st'.incidents[i])
      {
        assert Persists(st.incidents[i], mid.incidents[i]) && Persists(mid.incidents[i], st'.incidents[i]);
      }
      FollowsTransitive(st, mid, st');
    }
  }

  lemma {:induction false} RunKeepsSeparation(cat: Catalog, ts: seq<Timed>, lag: nat)
    requires CanRun(cat, EMPTY, ts) && PromptRun(cat, EMPTY, ts, lag)
    ensures
      var st := Run(cat, EMPTY, ts);
      Separated(cat, st) && Prompt(st, lag) && Dated(cat, st)
    decreases |ts|
  {
    if ts != [] {
      var front, t := ts[..|ts| - 1], ts[|ts| - 1];
      RunKeepsSeparation(cat, front, lag);
      StepKeepsSeparation(cat, Run(cat, EMPTY, front), t.step, t.now);
      StepKeepsDates(cat, Run(cat, EMPTY, front), t.step, t.now, lag);
    }
  }

  /**
   If alerts are ingested at most `lag` after they fired, two open incidents of one environment on the same
   or directly linked services were detected more than the window less `lag` apart; with ingestion in the
   step that fires (`lag` 0), more than 15 minutes.
   */
  lemma OpenIncidentsApart(cat: Catalog, ts: seq<Timed>, lag: nat, i: nat, j: nat)
    requires CanRun(cat, EMPTY, ts) && PromptRun(cat, EMPTY, ts, lag)
    requires
      var st := Run(cat, EMPTY, ts);
      && i < j < |st.incidents| && IsOpen(st, i) && IsOpen(st, j)
      && (|| LinkedIncidents(cat, st.incidents[i], st.incidents[j])
          || LinkedIncidents(cat, st.incidents[j], st.incidents[i]))
    ensures
      var st := Run(cat, EMPTY, ts);
      st.incidents[j].detectedAt - st.incidents[i].detectedAt > 15 * 60 * 1_000_000 - lag
  {
    RunKeepsSeparation(cat, ts, lag);
    var st := Run(cat, EMPTY, ts);
    RelatedSymmetric(cat, st.incidents[i].service, st.incidents[j].service);
  }

  lemma {:induction false} RunKeepsLeader(cat: Catalog, ts: seq<Timed>)
    requires CanRun(cat, EMPTY, ts) && OrderedRun(cat, EMPTY, ts)
    ensures LatestLeads(Run(cat, EMPTY, ts))
    decreases |ts|
  {
    if ts != [] {
      RunKeepsLeader(cat, ts[..|ts| - 1]);
      StepKeepsLeader(cat, Run(cat, EMPTY, ts[..|ts| - 1]), ts[|ts| - 1].step, ts[|ts| - 1].now);
    }
  }

  /** Ingested in firing order, a fingerprint is never on two open incidents. */
  lemma RepeatsNeverSplit(cat: Catalog, ts: seq<Timed>)
    requires CanRun(cat, EMPTY, ts) && OrderedRun(cat, EMPTY, ts)
    ensures OnePerFingerprint(Run(cat, EMPTY, ts))
  {
    RunKeepsLeader(cat, ts);
    LeadersAgree(Run(cat, EMPTY, ts));
  }

  /** As long as no two environments share a fingerprint, every alert is on an incident of its environment. */
  lemma {:induction false} EnvironmentsNeverMix(cat: Catalog, ts: seq<Timed>)
    requires CanRun(cat, EMPTY, ts) && EnvironmentsApart(Run(cat, EMPTY, ts))
    ensures SameEnvironment(Run(cat, EMPTY, ts))
    decreases |ts|
  {
    if ts != [] {
      var front, t := ts[..|ts| - 1], ts[|ts| - 1];
      var mid, st := Run(cat, EMPTY, front), Run(cat, EMPTY, ts);
      StepPersists(cat, mid, t.step, t.now);
      forall a, b | 0 <= a < |mid.alerts| && 0 <= b < |mid.alerts| && mid.alerts[a].fingerprint == mid.alerts[b].fingerprint
        ensures mid.alerts[a].environment == mid.alerts[b].environment
      {
        assert Follows(mid.alerts[a], st.alerts[a]) && Follows(mid.alerts[b], st.alerts[b]);
      }
      EnvironmentsNeverMix(cat, front);
      StepKeepsEnvironment(cat, mid, t.step, t.now);
    }
  }

  lemma StepKeepsOneFiring(cat: Catalog, st: Store, step: Step, now: int)
    requires Books(st) && A.OneFiring(st.alerts) && Enabled(cat, st, step, now)
    ensures A.OneFiring(Next(st, step, now).alerts)
  {
    if step.Evaluate? {
      A.PassKeepsOne(step.cfg, st.rules[step.rule], st.alerts, step.readings, now);
    } else {
      StepPersists(cat, st, step, now);
      var st' := Next(st, step, now);
      assert |st'.alerts| == |st.alerts|;
      forall a, b | 0 <= a < b < |st'.alerts| && st'.alerts[a].firing && st'.alerts[b].firing
        ensures st'.alerts[a].fingerprint != st'.alerts[b].fingerprint
      {
        assert Follows(st.alerts[a], st'.alerts[a]) && Follows(st.alerts[b], st'.alerts[b]);
      }
    }
  }

  lemma {:induction false} RunKeepsOneFiring(cat: Catalog, ts: seq<Timed>)
    requires CanRun(cat, EMPTY, ts)
    ensures A.OneFiring(Run(cat, EMPTY, ts).alerts)
    decreases |ts|
  {
    if ts != [] {
      RunKeepsOneFiring(cat, ts[..|ts| - 1]);
      StepKeepsOneFiring(cat, Run(cat, EMPTY, ts[..|ts| - 1]), ts[|ts| - 1].step, ts[|ts| - 1].now);
    }
  }

  // ----- where the guards matter -----------------------------------------------------------

  /**
   The `incident_id is None` guard: ingesting an alert that is already linked keeps the books exactly when
   it is attached to the incident it is on.
   */
  lemma ReattachKeepsBooksIff(st: Store, a: AlertId, i: IncidentId, severity: Severity)
    requires Books(st) && a < |st.alerts| && st.alerts[a].incident.Some? && i < |st.incidents|
    ensures Books(Attached(st, a, i, severity)) <==> st.alerts[a].incident == Some(i)
  {
    var st', c := Attached(st, a, i, severity), st.alerts[a].incident.value;
    assert BooksOf(st, c) && a in LinkedTo(st, c);
    if c == i {
      assert st'.alerts == st.alerts;
      assert st' == st;
    } else {
      RelinkLosesOne(st, st', a, c, i);
    }
  }

  lemma RelinkLosesOne(st: Store, st': Store, a: AlertId, c: IncidentId, i: IncidentId)
    requires a < |st.alerts| && c < |st.incidents| && c < |st'.incidents| && c != i
    requires st.alerts[a].incident == Some(c) && st'.alerts == Link(st, a, i).alerts
    requires BooksOf(st, c) && st'.incidents[c] == st.incidents[c]
    ensures !BooksOf(st', c)
  {
    assert LinkedTo(st', c) == LinkedTo(st, c) - {a};
    assert a in LinkedTo(st, c);
  }

  // ----- two runs that go wrong ------------------------------------------------------------

  /** A rule of environment `env` on a signal without a series and without dwell time. */
  function QuickRule(env: Env): A.Config { A.Config(true, env, false, A.Gt, 1.0, 0, 60) }

  function Breach(service: int, ref: int, fingerprint: int): A.Reading {
    A.Reading(service, ref, fingerprint, true, Some(2.0), [])
  }

  lemma Takes(cat: Catalog, ts: seq<Timed>, step: Step, now: int) returns (ts': seq<Timed>)
    requires CanRun(cat, EMPTY, ts) && Enabled(cat, Run(cat, EMPTY, ts), step, now)
    ensures CanRun(cat, EMPTY, ts') && Run(cat, EMPTY, ts') == Next(Run(cat, EMPTY, ts), step, now)
    ensures ts' == ts + [Timed(step, now)]
  {
    RunExtends(cat, EMPTY, ts, Timed(step, now));
    ts' := ts + [Timed(step, now)];
  }

  /** A pass that breaches for a fingerprint that is not firing. */
  lemma Fires(cat: Catalog, ts: seq<Timed>, k: nat, env: Env, r: A.Reading, now: int) returns (ts': seq<Timed>)
    requires CanRun(cat, EMPTY, ts) && r == Breach(r.service, r.ref, r.fingerprint)
    requires
      var st := Run(cat, EMPTY, ts);
      && k < |st.rules| && st.clock <= now
      && forall a :: 0 <= a < |st.alerts| ==> st.alerts[a].ref != r.ref && !st.alerts[a].firing
    ensures CanRun(cat, EMPTY, ts')
    ensures
      var st, st' := Run(cat, EMPTY, ts), Run(cat, EMPTY, ts');
      && st' == Store(st'.rules, st.alerts + [A.Created(QuickRule(env), r, now)], st.incidents, now)
      && |st'.rules| == |st.rules| && st'.rules[k].active == Some(|st.alerts|)
  {
    var st := Run(cat, EMPTY, ts);
    A.PassFires(QuickRule(env), st.rules[k], st.alerts, r, now);
    ts' := Takes(cat, ts, Evaluate(k, QuickRule(env), [r]), now);
  }

  /** A pass without a breach, which settles the alert the rule remembers. */
  lemma Quiets(cat: Catalog, ts: seq<Timed>, k: nat, env: Env, now: int) returns (ts': seq<Timed>)
    requires CanRun(cat, EMPTY, ts)
    requires
      var st := Run(cat, EMPTY, ts);
      && k < |st.rules| && st.clock <= now
      && st.rules[k].active.Some? && A.Firing(st.alerts, st.rules[k].active.value)
    ensures CanRun(cat, EMPTY, ts')
    ensures
      var st, st' := Run(cat, EMPTY, ts), Run(cat, EMPTY, ts');
      var a := st.rules[k].active.value;
      && st' == Store(st'.rules, st.alerts[a := st.alerts[a].(firing := false, resolvedAt := Some(now))], st.incidents, now)
      && |st'.rules| == |st.rules|
  {
    var st := Run(cat, EMPTY, ts);
    A.PassSettles(QuickRule(env), st.rules[k], st.alerts, [], now);
    ts' := Takes(cat, ts, Evaluate(k, QuickRule(env), []), now);
  }

  /** An ingest that finds neither its fingerprint on an open incident nor any open incident in the window. */
  lemma OpensNew(cat: Catalog, ts: seq<Timed>, a: AlertId, prior: Option<AlertId>, severity: Severity, now: int)
    returns (ts': seq<Timed>)
    requires CanRun(cat, EMPTY, ts)
    requires
      var st := Run(cat, EMPTY, ts);
      && a < |st.alerts| && st.alerts[a].incident.None? && st.alerts[a].service in cat.services && st.clock <= now
      && PriorAnswer(st, a, prior) && (prior.Some? ==> !IsOpen(st, st.alerts[prior.value].incident.value))
      && forall i: nat :: !IsCandidate(st, st.alerts[a].environment, now, i)
    ensures CanRun(cat, EMPTY, ts') && Run(cat, EMPTY, ts') == Opened(Run(cat, EMPTY, ts), a, severity, now).(clock := now)
  {
    ts' := Takes(cat, ts, Ingest(a, prior, None, severity), now);
  }

  lemma Closes(cat: Catalog, ts: seq<Timed>, i: IncidentId, now: int) returns (ts': seq<Timed>)
    requires CanRun(cat, EMPTY, ts) && i < |Run(cat, EMPTY, ts).incidents| && Run(cat, EMPTY, ts).clock <= now
    ensures CanRun(cat, EMPTY, ts')
    ensures
      var st, st' := Run(cat, EMPTY, ts), Run(cat, EMPTY, ts');
      && |st'.incidents| == |st.incidents| && st' == Store(st.rules, st.alerts, st.incidents[i := st'.incidents[i]], now)
      && st'.incidents[i].life.status == L.Closed
  {
    ts' := Takes(cat, ts, Operate(i, L.Op.Close("user"), now), now);
  }

  /** An alert of fingerprint 7 fires at 0 and settles at 1; a second one fires at 2. */
  lemma FiredTwice(cat: Catalog) returns (ts: seq<Timed>)
    ensures CanRun(cat, EMPTY, ts)
    ensures
      var st := Run(cat, EMPTY, ts);
      && |st.rules| == 1 && st.rules[0].active == Some(1) && st.incidents == [] && st.clock == 2
      && st.alerts == [A.Created(QuickRule(0), Breach(1, 10, 7), 0).(firing := false, resolvedAt := Some(1)),
                       A.Created(QuickRule(0), Breach(1, 11, 7), 2)]
  {
    ts := Takes(cat, [], AddRule, 0);
    ts := Fires(cat, ts, 0, 0, Breach(1, 10, 7), 0);
    ts := Quiets(cat, ts, 0, 0, 1);
    ts := Fires(cat, ts, 0, 0, Breach(1, 11, 7), 2);
  }

  /** The second one is ingested, its incident closed, and it settles. */
  lemma SecondIngestedFirst(cat: Catalog, severity: Severity) returns (ts: seq<Timed>)
    requires 1 in cat.services
    ensures CanRun(cat, EMPTY, ts)
    ensures
      var st := Run(cat, EMPTY, ts);
      && |st.rules| == 1 && st.clock == 4
      && st.alerts == [A.Created(QuickRule(0), Breach(1, 10, 7), 0).(firing := false, resolvedAt := Some(1)),
                       A.Created(QuickRule(0), Breach(1, 11, 7), 2).(firing := false, resolvedAt := Some(4),
                                                                     incident := Some(0))]
      && |st.incidents| == 1 && st.incidents[0].life.status == L.Closed
  {
    ts := FiredTwice(cat);
    ts := OpensNew(cat, ts, 1, None, severity, 2);
    ts := Closes(cat, ts, 0, 3);
    ts := Quiets(cat, ts, 0, 0, 4);
  }

  /** The first one, ingested late, opens an incident. */
  lemma FirstIngestedLate(cat: Catalog, severity: Severity) returns (ts: seq<Timed>)
    requires 1 in cat.services
    ensures CanRun(cat, EMPTY, ts)
    ensures
      var st := Run(cat, EMPTY, ts);
      && |st.rules| == 1 && st.clock == 5 && |st.alerts| == 2 && |st.incidents| == 2
      && (forall a :: 0 <= a < 2 ==> !st.alerts[a].firing && st.alerts[a].ref < 12 && st.alerts[a].fingerprint == 7)
      && st.alerts[0].incident == Some(1) && st.alerts[1].incident == Some(0)
      && st.alerts[0].firedAt == 0 && st.alerts[1].firedAt == 2
      && st.incidents[0].life.status == L.Closed && st.incidents[1].life == L.BORN && st.incidents[1].detectedAt == 0
  {
    ts := SecondIngestedFirst(cat, severity);
    assert IsPrior(Run(cat, EMPTY, ts), 0, 1);
    ts := OpensNew(cat, ts, 0, Some(1), severity, 5);
  }

  /** Past the window a third one fires. */
  lemma ThirdFires(cat: Catalog, severity: Severity) returns (ts: seq<Timed>)
    requires 1 in cat.services
    ensures CanRun(cat, EMPTY, ts)
    ensures
      var st := Run(cat, EMPTY, ts);
      && st.clock == WINDOW + 6 && |st.alerts| == 3 && |st.incidents| == 2
      && (forall a :: 0 <= a < 3 ==> st.alerts[a].fingerprint == 7)
      && st.alerts[0].incident == Some(1) && st.alerts[1].incident == Some(0) && st.alerts[2].incident == None
      && st.alerts[0].firedAt == 0 && st.alerts[1].firedAt == 2 && st.alerts[2].service == 1
      && st.incidents[0].life.status == L.Closed && st.incidents[1].life == L.BORN && st.incidents[1].detectedAt == 0
  {
    ts := FirstIngestedLate(cat, severity);
    ts := Fires(cat, ts, 0, 0, Breach(1, 12, 7), WINDOW + 6);
  }

  /**
   Ingested out of order a repeat can split. The later of two alerts is ingested first and its incident closed;
   the earlier one then opens a second incident, and, past the window, a third alert opens a third.
   */
  lemma LateIngestCanSplit(cat: Catalog, severity: Severity) returns (ts: seq<Timed>)
    requires 1 in cat.services
    ensures CanRun(cat, EMPTY, ts) && !OnePerFingerprint(Run(cat, EMPTY, ts))
  {
    ts := ThirdFires(cat, severity);
    var st := Run(cat, EMPTY, ts);
    assert IsPrior(st, 2, 1) && IsPrior(st, 2, 0);
    ts := OpensNew(cat, ts, 2, Some(1), severity, WINDOW + 6);
    assert OnOpen(Run(cat, EMPTY, ts), 0) && OnOpen(Run(cat, EMPTY, ts), 2);
  }

  /** An alert of environment 0 is on an open incident and settled, and one of environment 1 has the same fingerprint. */
  lemma SharedFingerprint(cat: Catalog, severity: Severity) returns (ts: seq<Timed>)
    requires 1 in cat.services
    ensures CanRun(cat, EMPTY, ts)
    ensures
      var st := Run(cat, EMPTY, ts);
      && |st.alerts| == 2 && |st.incidents| == 1 && st.clock == 2
      && st.alerts[0].incident == Some(0) && st.alerts[1] == A.Created(QuickRule(1), Breach(2, 11, 7), 2)
      && st.alerts[0].fingerprint == 7 && st.incidents[0].environment == 0 && st.incidents[0].life == L.BORN
  {
    ts := Takes(cat, [], AddRule, 0);
    ts := Takes(cat, ts, AddRule, 0);
    ts := Fires(cat, ts, 0, 0, Breach(1, 10, 7), 0);
    ts := OpensNew(cat, ts, 0, None, severity, 0);
    ts := Quiets(cat, ts, 0, 0, 1);
    ts := Fires(cat, ts, 1, 1, Breach(2, 11, 7), 2);
  }

  /** Two environments whose services share a name share fingerprints: an alert of one joins an incident of the other. */
  lemma EnvironmentsCanMix(cat: Catalog, severity: Severity) returns (ts: seq<Timed>)
    requires 1 in cat.services && cat.services[1].0 == 0 && 2 in cat.services && cat.services[2].0 == 1
    ensures CanRun(cat, EMPTY, ts) && !SameEnvironment(Run(cat, EMPTY, ts))
  {
    ts := SharedFingerprint(cat, severity);
    assert IsPrior(Run(cat, EMPTY, ts), 1, 0);
    ts := Takes(cat, ts, Ingest(1, Some(0), Some(0), severity), 2);
    assert Run(cat, EMPTY, ts).alerts[1].incident == Some(0);
  }

  /** The run ends with a pass over this one reading by a rule of `env`, which has no alert of its own then. */
  ghost predicate LeavesUnalerted(cat: Catalog, ts: seq<Timed>, k: nat, env: Env, r: A.Reading) {
    && ts != [] && CanRun(cat, EMPTY, ts) && ts[|ts| - 1].step == Evaluate(k, QuickRule(env), [r])
    && forall a :: 0 <= a < |Run(cat, EMPTY, ts).alerts| ==> Run(cat, EMPTY, ts).alerts[a].environment != env
  }

  /** An alert of environment 0 is firing; the breach of the service of that name in environment 1 gets none. */
  lemma EnvironmentHidesBreach(cat: Catalog)
    ensures exists ts :: LeavesUnalerted(cat, ts, 1, 1, Breach(2, 11, 7))
  {
    var ts := Takes(cat, [], AddRule, 0);
    ts := Takes(cat, ts, AddRule, 0);
    ts := Fires(cat, ts, 0, 0, Breach(1, 10, 7), 0);
    var st, r := Run(cat, EMPTY, ts), Breach(2, 11, 7);
    assert A.FiringWith(st.alerts, 0, 7);
    A.PassRefreshes(QuickRule(1), st.rules[1], st.alerts, r, 1);
    ts := Takes(cat, ts, Evaluate(1, QuickRule(1), [r]), 1);
    assert LeavesUnalerted(cat, ts, 1, 1, r);
  }
}
