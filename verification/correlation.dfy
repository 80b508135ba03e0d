/**
 Alert-to-incident correlation and ingestion, with the alert and incident tables as sequences in
 insertion order. Times are microseconds.
 */
module Correlation {
  import opened Numbers
  import opened Wrappers
  import opened Collections
  import opened Walks
  import opened DependencyGraph
  import A = AlertRules
  import L = Lifecycle

  const WINDOW := 15 * 60 * SECOND

  type Env = int
  type AlertId = A.AlertId
  type IncidentId = nat

  /** Severity.rank: 1 is SEV-1, the worst. */
  type Severity = x: int | 1 <= x <= 4 witness 4

  datatype Incident = Incident(environment: Env, service: Id, detectedAt: int, createdAt: int, severity: Severity,
                               alertCount: nat, refs: seq<int>, life: L.Life)

  /** The rule, alert and incident tables, and the latest clock reading. */
  datatype Store = Store(rules: seq<A.RuleState>, alerts: seq<A.Alert>, incidents: seq<Incident>, clock: int)

  // ----- topology --------------------------------------------------------------------------

  /** The fixed catalogue: each service with its environment, and the dependency rows. */
  datatype Catalog = Catalog(services: map<Id, (Env, Service)>, rows: seq<Dependency>)

  function InEnvironment(cat: Catalog, env: Env): map<Id, Service> {
    map s | s in cat.services && cat.services[s].0 == env :: cat.services[s].1
  }

  /** The service itself and its neighbours, up and down, inside its own environment. */
  ghost predicate RelatedTo(cat: Catalog, s: Id, v: Id)
    requires s in cat.services
  {
    var K := Kept(InEnvironment(cat, cat.services[s].0), cat.rows);
    v == s || (s, v) in K || (v, s) in K
  }

  lemma RelatedSymmetric(cat: Catalog, a: Id, b: Id)
    requires a in cat.services && b in cat.services
    ensures RelatedTo(cat, a, b) <==> RelatedTo(cat, b, a)
  {
  }

  method RelatedServices(cat: Catalog, s: Id) returns (ids: set<Id>)
    requires s in cat.services
    ensures forall v :: v in ids <==> RelatedTo(cat, s, v)
    ensures forall v :: v in ids <==>
              || v == s
              || (&& v in cat.services && cat.services[v].0 == cat.services[s].0
                  && exists r :: r in cat.rows &&
                       ((r.upstream == s && r.downstream == v) || (r.upstream == v && r.downstream == s)))
  {
    var g := LoadGraph(InEnvironment(cat, cat.services[s].0), cat.rows);
    ids := {s};
    ids := ids + Neighbours(g.dependsOn, s);
    ids := ids + Neighbours(g.dependents, s);
    forall v
      ensures v in ids <==> RelatedTo(cat, s, v)
    {
      assert v in Neighbours(g.dependsOn, s) <==> (s, v) in EdgesOf(g.dependsOn);
      assert v in Neighbours(g.dependents, s) <==> (s, v) in EdgesOf(g.dependents);
    }
    forall v
      ensures v in ids <==>
        || v == s
        || (&& v in cat.services && cat.services[v].0 == cat.services[s].0
            && exists r :: r in cat.rows &&
                 ((r.upstream == s && r.downstream == v) || (r.upstream == v && r.downstream == s)))
    {
      RelatedByRow(cat, s, v);
    }
  }

  /** Two services of one environment are related when they are the same or a dependency row joins them. */
  lemma RelatedByRow(cat: Catalog, s: Id, v: Id)
    requires s in cat.services
    ensures RelatedTo(cat, s, v) <==>
              || v == s
              || (&& v in cat.services && cat.services[v].0 == cat.services[s].0
                  && exists r :: r in cat.rows &&
                       ((r.upstream == s && r.downstream == v) || (r.upstream == v && r.downstream == s)))
  {
    var inside := InEnvironment(cat, cat.services[s].0);
    var K := Kept(inside, cat.rows);
    if (s, v) in K {
      var r :| r in cat.rows && r.upstream in inside && r.downstream in inside && (r.upstream, r.downstream) == (s, v);
      assert r.upstream == s && r.downstream == v;
    }
    if (v, s) in K {
      var r :| r in cat.rows && r.upstream in inside && r.downstream in inside && (r.upstream, r.downstream) == (v, s);
      assert r.upstream == v && r.downstream == s;
    }
    if v in cat.services && cat.services[v].0 == cat.services[s].0 {
      forall r | r in cat.rows && ((r.upstream == s && r.downstream == v) || (r.upstream == v && r.downstream == s))
        ensures (s, v) in K || (v, s) in K
      {
        assert (r.upstream, r.downstream) in K;
      }
    }
  }

  // ----- the two queries -------------------------------------------------------------------

  predicate IsPrior(st: Store, a: AlertId, p: AlertId)
    requires a < |st.alerts|
  {
    && p < |st.alerts| && p != a && st.alerts[p].incident.Some?
    && st.alerts[p].fingerprint == st.alerts[a].fingerprint
  }

  /** An answer to the fingerprint query: a latest linked alert with the same fingerprint, if there is one. */
  ghost predicate PriorAnswer(st: Store, a: AlertId, prior: Option<AlertId>)
    requires a < |st.alerts|
  {
    match prior
    case None => forall p: AlertId :: !IsPrior(st, a, p)
    case Some(p) =>
      && IsPrior(st, a, p)
      && forall q: AlertId :: IsPrior(st, a, q) ==> st.alerts[q].firedAt <= st.alerts[p].firedAt
  }

  method LatestPrior(st: Store, a: AlertId) returns (prior: Option<AlertId>)
    requires a < |st.alerts|
    ensures PriorAnswer(st, a, prior)
    ensures prior.Some? ==>
              && prior.value < |st.alerts| && prior.value != a && st.alerts[prior.value].incident.Some?
              && st.alerts[prior.value].fingerprint == st.alerts[a].fingerprint
    ensures forall q ::
              (&& 0 <= q < |st.alerts| && q != a && st.alerts[q].incident.Some?
               && st.alerts[q].fingerprint == st.alerts[a].fingerprint) ==>
                prior.Some? && st.alerts[q].firedAt <= st.alerts[prior.value].firedAt
  {
    prior := None;
    for p := 0 to |st.alerts|
      invariant prior.Some? ==> IsPrior(st, a, prior.value)
      invariant forall q: AlertId :: (q < p && IsPrior(st, a, q)) ==>
                  prior.Some? && st.alerts[q].firedAt <= st.alerts[prior.value].firedAt
    {
      if IsPrior(st, a, p) && (prior.None? || st.alerts[p].firedAt > st.alerts[prior.value].firedAt) {
        prior := Some(p);
      }
    }
    forall q | 0 <= q < |st.alerts| && q != a && st.alerts[q].incident.Some?
        && st.alerts[q].fingerprint == st.alerts[a].fingerprint
      ensures prior.Some? && st.alerts[q].firedAt <= st.alerts[prior.value].firedAt
    {
      assert IsPrior(st, a, q);
    }
  }

  predicate IsOpen(st: Store, i: IncidentId) { i < |st.incidents| && L.Open(st.incidents[i].life.status) }

  predicate IsCandidate(st: Store, env: Env, now: int, i: IncidentId) {
    IsOpen(st, i) && st.incidents[i].environment == env && st.incidents[i].detectedAt >= now - WINDOW
  }

  function DetectedAt(st: Store, i: int): int { if 0 <= i < |st.incidents| then st.incidents[i].detectedAt else 0 }

  /** Open incidents of the environment detected inside the window, latest first. */
  method RecentOpen(st: Store, env: Env, now: int) returns (ids: seq<int>)
    ensures forall i: nat :: IsCandidate(st, env, now, i) ==> i in ids
    ensures forall k :: 0 <= k < |ids| ==> ids[k] >= 0 && IsCandidate(st, env, now, ids[k])
    ensures forall j, k :: 0 <= j < k < |ids| ==> DetectedAt(st, ids[j]) >= DetectedAt(st, ids[k])
    ensures forall i :: i in ids <==>
              && 0 <= i < |st.incidents| && st.incidents[i].environment == env
              && st.incidents[i].life.status in {L.Detected, L.Investigating, L.Acknowledged, L.Mitigating}
              && st.incidents[i].detectedAt >= now - 15 * 60 * 1_000_000
  {
    var found: seq<int> := [];
    for i := 0 to |st.incidents|
      invariant forall k :: k in found <==> 0 <= k < i && IsCandidate(st, env, now, k)
    {
      if IsCandidate(st, env, now, i) {
        found := found + [i];
      }
    }
    var key := i => -DetectedAt(st, i);
    ids := SortBy(found, key);
    forall i ensures i in ids <==> i in found {
      assert i in ids <==> i in multiset(ids);
      assert i in found <==> i in multiset(found);
    }
    assert forall k :: 0 <= k < |ids| ==> ids[k] in ids;
    forall j, k | 0 <= j < k < |ids|
      ensures DetectedAt(st, ids[j]) >= DetectedAt(st, ids[k])
    {
      assert key(ids[j]) <= key(ids[k]);
    }
  }

  // ----- the decision ----------------------------------------------------------------------

  ghost predicate RelatedCandidate(cat: Catalog, st: Store, a: AlertId, now: int, i: IncidentId)
    requires a < |st.alerts| && st.alerts[a].service in cat.services
  {
    && IsCandidate(st, st.alerts[a].environment, now, i)
    && RelatedTo(cat, st.alerts[a].service, st.incidents[i].service)
  }

  /** The incident of the latest alert with this fingerprint, if that incident is open. */
  ghost predicate DedupedTo(st: Store, prior: Option<AlertId>, i: IncidentId) {
    prior.Some? && prior.value < |st.alerts| && st.alerts[prior.value].incident == Some(i) && IsOpen(st, i)
  }

  /** What `find_incident_for_alert` decides, given its answer to the fingerprint query. */
  ghost predicate Decided(cat: Catalog, st: Store, a: AlertId, prior: Option<AlertId>, now: int, d: Option<IncidentId>)
    requires a < |st.alerts| && st.alerts[a].service in cat.services
  {
    match d
    case Some(i) =>
      || DedupedTo(st, prior, i)
      || (&& (forall j: nat :: !DedupedTo(st, prior, j))
          && RelatedCandidate(cat, st, a, now, i)
          && forall j: nat :: RelatedCandidate(cat, st, a, now, j) ==> DetectedAt(st, j) <= DetectedAt(st, i))
    case None =>
      && (forall j: nat :: !DedupedTo(st, prior, j))
      && forall j: nat :: !RelatedCandidate(cat, st, a, now, j)
  }

  method FindIncidentForAlert(cat: Catalog, st: Store, a: AlertId, now: int)
    returns (d: Option<IncidentId>, ghost prior: Option<AlertId>)
    requires a < |st.alerts|
    ensures PriorAnswer(st, a, prior)
    ensures st.alerts[a].service !in cat.services ==> d.None?
    ensures st.alerts[a].service in cat.services ==> Decided(cat, st, a, prior, now, d)
    ensures d.Some? ==>
              && d.value < |st.incidents|
              && st.incidents[d.value].life.status in {L.Detected, L.Investigating, L.Acknowledged, L.Mitigating}
    ensures
      (&& st.alerts[a].service in cat.services && prior.Some? && st.alerts[prior.value].incident.value < |st.incidents|
       && st.incidents[st.alerts[prior.value].incident.value].life.status
            in {L.Detected, L.Investigating, L.Acknowledged, L.Mitigating}) ==>
        d == st.alerts[prior.value].incident
    ensures d.Some? && (prior.Some? ==> d != st.alerts[prior.value].incident) ==>
              && st.incidents[d.value].environment == st.alerts[a].environment
              && st.incidents[d.value].detectedAt >= now - 15 * 60 * 1_000_000
              && RelatedTo(cat, st.alerts[a].service, st.incidents[d.value].service)
    ensures forall i ::
              (&& 0 <= i < |st.incidents| && st.alerts[a].service in cat.services
               && st.incidents[i].life.status in {L.Detected, L.Investigating, L.Acknowledged, L.Mitigating}
               && st.incidents[i].environment == st.alerts[a].environment
               && st.incidents[i].detectedAt >= now - 15 * 60 * 1_000_000
               && RelatedTo(cat, st.alerts[a].service, st.incidents[i].service)) ==>
                d.Some? && ((prior.Some? && d == st.alerts[prior.value].incident)
                            || st.incidents[i].detectedAt <= st.incidents[d.value].detectedAt)
  {
    var latest := LatestPrior(st, a);
    prior := latest;
    var svc := st.alerts[a].service;
    if svc !in cat.services {
      return None, prior;
    }
    if latest.Some? {
      var inc := st.alerts[latest.value].incident.value;
      if IsOpen(st, inc) {
        return Some(inc), prior;
      }
    }
    var related := RelatedServices(cat, svc);
    var candidates := RecentOpen(st, st.alerts[a].environment, now);
    for k := 0 to |candidates|
      invariant forall j :: 0 <= j < k ==> st.incidents[candidates[j]].service !in related
    {
      if st.incidents[candidates[k]].service in related || svc == st.incidents[candidates[k]].service {
        d := Some(candidates[k]);
        forall j: nat | RelatedCandidate(cat, st, a, now, j)
          ensures DetectedAt(st, j) <= DetectedAt(st, candidates[k])
        {
          var at :| 0 <= at < |candidates| && candidates[at] == j;
          assert at >= k;
        }
        return;
      }
    }
    d := None;
  }
}
