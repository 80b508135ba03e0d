/**
 What evaluating one rule means over its whole history: when alerts fire, and which of them a pass settles. Between
 the rule's own passes other rules and incident resolution work on the same alert table.
 */
module AlertHistory {
  import opened AlertRules
  import opened Numbers
  import opened Wrappers

  /** A pass of the rule over any of its services, or whatever others do to the table meanwhile. */
  datatype Turn = RulePass(readings: seq<Reading>, now: int) | Others(alerts: seq<Alert>)

  /** `mark` is the size of the table when a pass last found no breach. */
  datatype History = History(rule: RuleState, alerts: seq<Alert>, mark: nat)

  const BEGINNING := History(FRESH, [], 0)

  function AfterTurn(cfg: Config, h: History, t: Turn): History {
    match t
    case RulePass(rs, now) =>
      var (rule, alerts) := Pass(cfg, h.rule, h.alerts, rs, now);
      History(rule, alerts, if cfg.enabled && Quiet(rs) then |alerts| else h.mark)
    case Others(alerts) => h.(alerts := alerts)
  }

  function AfterTurns(cfg: Config, h: History, ts: seq<Turn>): History {
    if ts == [] then h else AfterTurn(cfg, AfterTurns(cfg, h, ts[..|ts| - 1]), ts[|ts| - 1])
  }

  // ----- when a pass fires -----------------------------------------------------------------

  function Minimum(xs: seq<int>): Option<int> {
    if xs == [] then None else Some(Earlier(Minimum(xs[..|xs| - 1]), xs[|xs| - 1]))
  }

  lemma {:induction false} MinimumIsLeast(xs: seq<int>)
    requires xs != []
    ensures Minimum(xs).value in xs && forall x :: x in xs ==> Minimum(xs).value <= x
  {
    var front, last := xs[..|xs| - 1], xs[|xs| - 1];
    assert xs == front + [last];
    if front != [] {
      MinimumIsLeast(front);
    }
  }

  /** The starts inferred for the breaching readings of a pass, in the order they are considered. */
  function Starts(cfg: Config, rs: seq<Reading>, now: int): seq<int> {
    if rs == [] then []
    else
      var r := rs[|rs| - 1];
      Starts(cfg, rs[..|rs| - 1], now) + if r.breaching then [Started(cfg, r, now)] else []
  }

  /** A pass without a breach ends the streak. */
  function Extended(cfg: Config, streak: seq<int>, rs: seq<Reading>, now: int): seq<int> {
    if !cfg.enabled then streak else if Quiet(rs) then [] else streak + Starts(cfg, rs, now)
  }

  /** The starts inferred since the last pass without a breach, over all services of the rule. */
  function Streak(cfg: Config, ts: seq<Turn>): seq<int> {
    if ts == [] then []
    else
      match ts[|ts| - 1]
      case RulePass(rs, now) => Extended(cfg, Streak(cfg, ts[..|ts| - 1]), rs, now)
      case Others(_) => Streak(cfg, ts[..|ts| - 1])
  }

  /** The streak's earliest start is at least `for_seconds` before `now`. */
  predicate Due(cfg: Config, streak: seq<int>, now: int) {
    streak != [] && now - Minimum(streak).value >= cfg.forSeconds * SECOND
  }

  lemma DueIff(cfg: Config, streak: seq<int>, now: int)
    ensures Due(cfg, streak, now) <==> exists x :: x in streak && now - x >= cfg.forSeconds * SECOND
  {
    if streak != [] {
      MinimumIsLeast(streak);
    }
  }

  /** Reading `k` breaches with this fingerprint, and the streak up to and including it is old enough. */
  predicate DueReading(cfg: Config, streak: seq<int>, rs: seq<Reading>, now: int, fp: int, k: int) {
    && 0 <= k < |rs| && rs[k].breaching && rs[k].fingerprint == fp
    && Due(cfg, streak + Starts(cfg, rs[..k + 1], now), now)
  }

  predicate AnyDue(cfg: Config, streak: seq<int>, rs: seq<Reading>, now: int, fp: int) {
    exists k :: 0 <= k < |rs| && DueReading(cfg, streak, rs, now, fp, k)
  }

  ghost predicate AnyFiring(alerts: seq<Alert>, fp: int) { exists a :: FiringWith(alerts, a, fp) }

  lemma ConsiderSince(cfg: Config, p: Progress, r: Reading, now: int, streak: seq<int>)
    requires p.rule.breachingSince == Minimum(streak)
    ensures Consider(cfg, p, r, now).rule.breachingSince
         == Minimum(streak + if r.breaching then [Started(cfg, r, now)] else [])
    ensures r.breaching ==>
              (FiredBy(cfg, p, r, now).Some? <==> Due(cfg, streak + [Started(cfg, r, now)], now))
  {
    if r.breaching {
      assert (streak + [Started(cfg, r, now)])[..|streak|] == streak;
    } else {
      assert streak + [] == streak;
    }
  }

  lemma ConsiderFires(cfg: Config, p: Progress, r: Reading, now: int, fp: int)
    ensures AnyFiring(Consider(cfg, p, r, now).alerts, fp)
       <==> AnyFiring(p.alerts, fp) || (r.fingerprint == fp && FiredBy(cfg, p, r, now).Some?)
  {
    var after := Consider(cfg, p, r, now).alerts;
    if FiredBy(cfg, p, r, now).Some? {
      var t := Target(p.alerts, r.fingerprint);
      assert FiringWith(after, t, r.fingerprint);
      assert forall a :: a != t ==> (FiringWith(after, a, fp) <==> FiringWith(p.alerts, a, fp));
      assert forall a :: FiringWith(p.alerts, a, fp) ==> FiringWith(after, a, fp);
    } else {
      assert after == p.alerts;
    }
  }

  lemma {:induction false} ConsiderAllSince(cfg: Config, p: Progress, rs: seq<Reading>, now: int, streak: seq<int>)
    requires p.rule.breachingSince == Minimum(streak)
    ensures ConsiderAll(cfg, p, rs, now).rule.breachingSince == Minimum(streak + Starts(cfg, rs, now))
    decreases |rs|
  {
    if rs == [] {
      assert streak + [] == streak;
    } else {
      var front, r := rs[..|rs| - 1], rs[|rs| - 1];
      ConsiderAllSince(cfg, p, front, now, streak);
      ConsiderSince(cfg, ConsiderAll(cfg, p, front, now), r, now, streak + Starts(cfg, front, now));
      StartsGrow(cfg, streak, rs, now);
    }
  }

  lemma StartsGrow(cfg: Config, streak: seq<int>, rs: seq<Reading>, now: int)
    requires rs != []
    ensures
      var front, r := rs[..|rs| - 1], rs[|rs| - 1];
      streak + Starts(cfg, rs, now) == streak + Starts(cfg, front, now) + if r.breaching then [Started(cfg, r, now)] else []
  {
  }

  /** What the readings of a pass do before anything is settled. */
  lemma {:induction false} ConsiderAllFires(cfg: Config, p: Progress, rs: seq<Reading>, now: int, streak: seq<int>, fp: int)
    requires p.rule.breachingSince == Minimum(streak)
    ensures AnyFiring(ConsiderAll(cfg, p, rs, now).alerts, fp)
       <==> AnyFiring(p.alerts, fp) || AnyDue(cfg, streak, rs, now, fp)
    decreases |rs|
  {
    if rs != [] {
      var front, r := rs[..|rs| - 1], rs[|rs| - 1];
      ConsiderAllFires(cfg, p, front, now, streak, fp);
      DueReadings(cfg, streak, rs, now, fp);
      LastFires(cfg, p, rs, now, streak, fp);
    }
  }

  lemma LastFires(cfg: Config, p: Progress, rs: seq<Reading>, now: int, streak: seq<int>, fp: int)
    requires rs != [] && p.rule.breachingSince == Minimum(streak)
    ensures AnyFiring(ConsiderAll(cfg, p, rs, now).alerts, fp)
       <==> AnyFiring(ConsiderAll(cfg, p, rs[..|rs| - 1], now).alerts, fp) || DueReading(cfg, streak, rs, now, fp, |rs| - 1)
  {
    var front, r := rs[..|rs| - 1], rs[|rs| - 1];
    var mid := ConsiderAll(cfg, p, front, now);
    ConsiderAllSince(cfg, p, front, now, streak);
    ConsiderSince(cfg, mid, r, now, streak + Starts(cfg, front, now));
    ConsiderFires(cfg, mid, r, now, fp);
    StartsGrow(cfg, streak, rs, now);
    assert rs[..|rs|] == rs;
  }

  /** The last reading apart from the ones before it. */
  lemma DueReadings(cfg: Config, streak: seq<int>, rs: seq<Reading>, now: int, fp: int)
    requires rs != []
    ensures AnyDue(cfg, streak, rs, now, fp)
       <==> AnyDue(cfg, streak, rs[..|rs| - 1], now, fp) || DueReading(cfg, streak, rs, now, fp, |rs| - 1)
  {
    var front := rs[..|rs| - 1];
    forall k
      ensures DueReading(cfg, streak, front, now, fp, k)
         <==> k < |front| && DueReading(cfg, streak, rs, now, fp, k)
    {
      if 0 <= k < |front| {
        assert front[..k + 1] == rs[..k + 1];
      }
    }
  }

  /** `breaching_since` is the earliest start inferred since the last pass without a breach, whatever others do. */
  lemma {:induction false} SinceIsStreak(cfg: Config, ts: seq<Turn>)
    ensures AfterTurns(cfg, BEGINNING, ts).rule.breachingSince == Minimum(Streak(cfg, ts))
    decreases |ts|
  {
    if ts != [] {
      SinceIsStreak(cfg, ts[..|ts| - 1]);
      var h, t := AfterTurns(cfg, BEGINNING, ts[..|ts| - 1]), ts[|ts| - 1];
      if t.RulePass? && cfg.enabled {
        var p := Progress(h.rule, h.alerts, false);
        BreachFlag(cfg, p, t.readings, t.now);
        ConsiderAllSince(cfg, p, t.readings, t.now, Streak(cfg, ts[..|ts| - 1]));
      }
    }
  }

  /**
   Any rule over any services and fingerprints, after any history: after a pass with a breach a fingerprint has
   a firing alert exactly if it had one already, or one of its readings breached and the earliest start of the
   whole streak up to that reading, other services included, is `for_seconds` old. After a pass without a
   breach it has one exactly if it had one other than the alert the rule remembers.
   */
  lemma FiringAfterPassIff(cfg: Config, ts: seq<Turn>, rs: seq<Reading>, now: int, fp: int)
    requires cfg.enabled
    ensures
      var h := AfterTurns(cfg, BEGINNING, ts);
      var h' := AfterTurn(cfg, h, RulePass(rs, now));
      && h.rule.breachingSince == Minimum(Streak(cfg, ts))
      && h'.rule.breachingSince == Minimum(Extended(cfg, Streak(cfg, ts), rs, now))
      && (AnyFiring(h'.alerts, fp) <==>
            if Quiet(rs) then exists a :: FiringWith(h.alerts, a, fp) && h.rule.active != Some(a)
            else AnyFiring(h.alerts, fp) || AnyDue(cfg, Streak(cfg, ts), rs, now, fp))
  {
    SinceIsStreak(cfg, ts);
    var h := AfterTurns(cfg, BEGINNING, ts);
    var p := Progress(h.rule, h.alerts, false);
    BreachFlag(cfg, p, rs, now);
    ConsiderAllSince(cfg, p, rs, now, Streak(cfg, ts));
    ConsiderAllFires(cfg, p, rs, now, Streak(cfg, ts), fp);
    if Quiet(rs) {
      QuietPassLeaves(cfg, h, rs, now, fp);
    }
  }

  lemma QuietPassLeaves(cfg: Config, h: History, rs: seq<Reading>, now: int, fp: int)
    requires cfg.enabled && Quiet(rs)
    ensures AnyFiring(AfterTurn(cfg, h, RulePass(rs, now)).alerts, fp)
       <==> exists a :: FiringWith(h.alerts, a, fp) && h.rule.active != Some(a)
  {
    PassSettles(cfg, h.rule, h.alerts, rs, now);
    var after := AfterTurn(cfg, h, RulePass(rs, now)).alerts;
    forall a
      ensures FiringWith(after, a, fp) <==> FiringWith(h.alerts, a, fp) && h.rule.active != Some(a)
    {
    }
  }

  /** So when no two readings share a fingerprint, each is judged by the streak up to and including itself. */
  lemma ReadingFiresIff(cfg: Config, ts: seq<Turn>, rs: seq<Reading>, now: int, k: nat)
    requires cfg.enabled && k < |rs| && !Quiet(rs)
    requires forall i, j :: 0 <= i < j < |rs| ==> rs[i].fingerprint != rs[j].fingerprint
    ensures
      var h := AfterTurns(cfg, BEGINNING, ts);
      AnyFiring(AfterTurn(cfg, h, RulePass(rs, now)).alerts, rs[k].fingerprint)
      <==> || AnyFiring(h.alerts, rs[k].fingerprint)
           || (rs[k].breaching && Due(cfg, Streak(cfg, ts) + Starts(cfg, rs[..k + 1], now), now))
  {
    var fp := rs[k].fingerprint;
    FiringAfterPassIff(cfg, ts, rs, now, fp);
    assert forall i :: DueReading(cfg, Streak(cfg, ts), rs, now, fp, i) ==> i == k;
    assert DueReading(cfg, Streak(cfg, ts), rs, now, fp, k)
      <==> rs[k].breaching && Due(cfg, Streak(cfg, ts) + Starts(cfg, rs[..k + 1], now), now);
  }

  /** A breaching service whose rows have breached without a break since `for_seconds` ago fires in that pass. */
  lemma LongRunFires(cfg: Config, ts: seq<Turn>, rs: seq<Reading>, now: int, k: nat, n: nat)
    requires cfg.enabled && cfg.series && k < |rs| && rs[k].breaching && 0 < n <= |rs[k].rows| && LatestFirst(rs[k].rows)
    requires forall i :: 0 <= i < n ==> Compare(cfg.comparison, rs[k].rows[i].value, cfg.threshold)
    requires now - rs[k].rows[n - 1].ts >= cfg.forSeconds * 1_000_000
    ensures AnyFiring(AfterTurn(cfg, AfterTurns(cfg, BEGINNING, ts), RulePass(rs, now)).alerts, rs[k].fingerprint)
  {
    var r, so := rs[k], Streak(cfg, ts) + Starts(cfg, rs[..k + 1], now);
    RunReaches(cfg, r.rows, n);
    assert Started(cfg, r, now) <= r.rows[n - 1].ts;
    StartListed(cfg, rs[..k + 1], now);
    assert Started(cfg, r, now) in so;
    DueIff(cfg, so, now);
    assert DueReading(cfg, Streak(cfg, ts), rs, now, r.fingerprint, k);
    FiringAfterPassIff(cfg, ts, rs, now, r.fingerprint);
  }

  lemma {:induction false} RunReaches(cfg: Config, rows: seq<Sample>, n: nat)
    requires n <= |rows| && forall i :: 0 <= i < n ==> Breaches(cfg, rows[i])
    ensures n <= BreachRun(cfg, rows)
    decreases n
  {
    if n > 0 {
      RunReaches(cfg, rows[1..], n - 1);
    }
  }

  lemma StartListed(cfg: Config, rs: seq<Reading>, now: int)
    requires rs != [] && rs[|rs| - 1].breaching
    ensures Started(cfg, rs[|rs| - 1], now) in Starts(cfg, rs, now)
  {
  }

  /** Reading `k` is due, whatever its fingerprint. */
  predicate DueAt(cfg: Config, streak: seq<int>, rs: seq<Reading>, now: int, k: int) {
    0 <= k < |rs| && DueReading(cfg, streak, rs, now, rs[k].fingerprint, k)
  }

  ghost predicate LastDue(cfg: Config, streak: seq<int>, rs: seq<Reading>, now: int, k: int) {
    DueAt(cfg, streak, rs, now, k) && forall j :: k < j < |rs| ==> !DueAt(cfg, streak, rs, now, j)
  }

  lemma LastReading(cfg: Config, p: Progress, rs: seq<Reading>, now: int, streak: seq<int>)
    requires rs != [] && p.rule.breachingSince == Minimum(streak)
    ensures
      var mid, after := ConsiderAll(cfg, p, rs[..|rs| - 1], now), ConsiderAll(cfg, p, rs, now);
      var f := FiredBy(cfg, mid, rs[|rs| - 1], now);
      && (f.Some? <==> DueAt(cfg, streak, rs, now, |rs| - 1))
      && (f.Some? ==> FiringWith(after.alerts, f.value, rs[|rs| - 1].fingerprint))
      && (f.None? ==> after.alerts == mid.alerts)
  {
    var front, r := rs[..|rs| - 1], rs[|rs| - 1];
    ConsiderAllSince(cfg, p, front, now, streak);
    ConsiderSince(cfg, ConsiderAll(cfg, p, front, now), r, now, streak + Starts(cfg, front, now));
    StartsGrow(cfg, streak, rs, now);
    assert rs[..|rs|] == rs;
  }

  lemma DueEarlier(cfg: Config, streak: seq<int>, rs: seq<Reading>, now: int, k: int)
    requires rs != [] && k < |rs| - 1
    ensures DueAt(cfg, streak, rs, now, k) <==> DueAt(cfg, streak, rs[..|rs| - 1], now, k)
  {
    if k >= 0 {
      assert rs[..|rs| - 1][..k + 1] == rs[..k + 1];
    }
  }

  /** A pass returns an alert exactly if one of its readings is due, and it is the alert of the last such reading. */
  lemma {:induction false} ReturnedIff(cfg: Config, p: Progress, rs: seq<Reading>, now: int, streak: seq<int>)
    requires p.rule.breachingSince == Minimum(streak)
    ensures LastFired(cfg, p, rs, now).None? ==> forall k :: !DueAt(cfg, streak, rs, now, k)
    ensures LastFired(cfg, p, rs, now).Some? ==> exists k ::
              && LastDue(cfg, streak, rs, now, k)
              && FiringWith(ConsiderAll(cfg, p, rs, now).alerts, LastFired(cfg, p, rs, now).value, rs[k].fingerprint)
    decreases |rs|
  {
    if rs != [] {
      var front, n := rs[..|rs| - 1], |rs| - 1;
      ReturnedIff(cfg, p, front, now, streak);
      LastReading(cfg, p, rs, now, streak);
      forall k | k < n
        ensures DueAt(cfg, streak, rs, now, k) <==> DueAt(cfg, streak, front, now, k)
      {
        DueEarlier(cfg, streak, rs, now, k);
      }
      if DueAt(cfg, streak, rs, now, n) {
        assert LastDue(cfg, streak, rs, now, n);
      } else if LastFired(cfg, p, rs, now).Some? {
        var k :| LastDue(cfg, streak, front, now, k)
          && FiringWith(ConsiderAll(cfg, p, front, now).alerts, LastFired(cfg, p, front, now).value, front[k].fingerprint);
        assert LastDue(cfg, streak, rs, now, k) && front[k] == rs[k];
      }
    }
  }

  /** Considered alone a service that starts breaching waits for its own dwell time. */
  lemma DwellAlone(cfg: Config, r: Reading, now: int)
    requires cfg.enabled && r.breaching
    ensures AnyFiring(AfterTurn(cfg, BEGINNING, RulePass([r], now)).alerts, r.fingerprint)
       <==> now - Started(cfg, r, now) >= cfg.forSeconds * 1_000_000
  {
    var s := Started(cfg, r, now);
    assert AfterTurns(cfg, BEGINNING, []) == BEGINNING && Streak(cfg, []) == [];
    StartsOfTwo(cfg, r, r, now);
    assert [r][0].breaching && [] + [s] == [s] && s in [s];
    DueIff(cfg, [s], now);
    ReadingFiresIff(cfg, [], [r], now, 0);
  }

  /** After another one that breaches it fires as soon as either has dwelt. */
  lemma DwellShared(cfg: Config, r1: Reading, r2: Reading, now: int)
    requires cfg.enabled && r1.breaching && r2.breaching && r1.fingerprint != r2.fingerprint
    ensures AnyFiring(AfterTurn(cfg, BEGINNING, RulePass([r1, r2], now)).alerts, r2.fingerprint)
       <==> (|| now - Started(cfg, r1, now) >= cfg.forSeconds * 1_000_000
             || now - Started(cfg, r2, now) >= cfg.forSeconds * 1_000_000)
  {
    var s1, s2 := Started(cfg, r1, now), Started(cfg, r2, now);
    assert AfterTurns(cfg, BEGINNING, []) == BEGINNING && Streak(cfg, []) == [];
    StartsOfTwo(cfg, r1, r2, now);
    assert [r1, r2][0].breaching && [] + [s1, s2] == [s1, s2] && s1 in [s1, s2] && s2 in [s1, s2];
    DueIff(cfg, [s1, s2], now);
    ReadingFiresIff(cfg, [], [r1, r2], now, 1);
  }

  lemma StartsOfTwo(cfg: Config, r1: Reading, r2: Reading, now: int)
    requires r1.breaching && r2.breaching
    ensures [r2][..1] == [r2] && Starts(cfg, [r2], now) == [Started(cfg, r2, now)]
    ensures [r1, r2][..2] == [r1, r2]
    ensures Starts(cfg, [r1, r2], now) == [Started(cfg, r1, now), Started(cfg, r2, now)]
  {
    assert [r1][..0] == [] && [r2][..0] == [] && [r1, r2][..1] == [r1] && Starts(cfg, [], now) == [];
    assert Starts(cfg, [r1], now) == [Started(cfg, r1, now)];
  }

  /** Ten minutes of dwell are asked for; a service that breaches only now fires at once, because another has for long. */
  lemma DwellIsShared()
    ensures
      var cfg, now := Config(true, 0, true, Gt, 1.0, 600, 60), 700 * SECOND;
      var r1 := Reading(1, 10, 1, true, Some(2.0), [Sample(0, 2.0)]);
      var r2 := Reading(2, 11, 2, true, Some(2.0), [Sample(now, 2.0)]);
      && Started(cfg, r2, now) == now
      && AnyFiring(AfterTurn(cfg, BEGINNING, RulePass([r1, r2], now)).alerts, 2)
      && !AnyFiring(AfterTurn(cfg, BEGINNING, RulePass([r2], now)).alerts, 2)
  {
    var cfg, now := Config(true, 0, true, Gt, 1.0, 600, 60), 700 * SECOND;
    var r1 := Reading(1, 10, 1, true, Some(2.0), [Sample(0, 2.0)]);
    var r2 := Reading(2, 11, 2, true, Some(2.0), [Sample(now, 2.0)]);
    BreachRunIs(cfg, r1.rows, 1);
    BreachRunIs(cfg, r2.rows, 1);
    DwellAlone(cfg, r2, now);
    DwellShared(cfg, r1, r2, now);
  }

  /**
   The firing query looks at the fingerprint alone. A due breach has a firing alert of the rule's own
   environment exactly if no alert of another environment was firing with its fingerprint.
   */
  lemma DueBreachHasOwnAlertIff(cfg: Config, ts: seq<Turn>, rs: seq<Reading>, now: int, fp: int, k: nat)
    requires cfg.enabled && OneFiring(AfterTurns(cfg, BEGINNING, ts).alerts)
    requires DueReading(cfg, Streak(cfg, ts), rs, now, fp, k)
    ensures
      var before := AfterTurns(cfg, BEGINNING, ts).alerts;
      var after := AfterTurn(cfg, AfterTurns(cfg, BEGINNING, ts), RulePass(rs, now)).alerts;
      (exists a :: FiringWith(after, a, fp) && after[a].environment == cfg.environment)
      <==> forall b :: FiringWith(before, b, fp) ==> before[b].environment == cfg.environment
  {
    var h := AfterTurns(cfg, BEGINNING, ts);
    FiringAfterPassIff(cfg, ts, rs, now, fp);
    PassKeepsOne(cfg, h.rule, h.alerts, rs, now);
    assert rs[k].breaching;
    FiringRows(cfg, h, rs, now, fp);
  }

  lemma FiringRows(cfg: Config, h: History, rs: seq<Reading>, now: int, fp: int)
    requires cfg.enabled && !Quiet(rs) && AnyFiring(AfterTurn(cfg, h, RulePass(rs, now)).alerts, fp)
    requires OneFiring(AfterTurn(cfg, h, RulePass(rs, now)).alerts)
    ensures
      var after := AfterTurn(cfg, h, RulePass(rs, now)).alerts;
      (exists a :: FiringWith(after, a, fp) && after[a].environment == cfg.environment)
      <==> forall b :: FiringWith(h.alerts, b, fp) ==> h.alerts[b].environment == cfg.environment
  {
    var p, after := Progress(h.rule, h.alerts, false), AfterTurn(cfg, h, RulePass(rs, now)).alerts;
    BreachFlag(cfg, p, rs, now);
    ConsiderAllRows(cfg, p, rs, now);
    var a :| FiringWith(after, a, fp);
    forall b | FiringWith(after, b, fp)
      ensures b == a
    {
    }
    forall b | FiringWith(h.alerts, b, fp)
      ensures b == a && after[a].environment == h.alerts[b].environment
    {
      assert SameRow(h.alerts[b], after[b]) && FiringWith(after, b, fp);
    }
    if a < |h.alerts| {
      assert SameRow(h.alerts[a], after[a]) && FiringWith(h.alerts, a, fp);
    } else {
      assert NewRow(cfg, rs, now, after[a]);
    }
  }

  // ----- fingerprints no other rule shares --------------------------------------------------

  predicate Covers(fps: set<int>, rs: seq<Reading>) { forall k :: 0 <= k < |rs| ==> rs[k].fingerprint in fps }

  predicate LeavesTo(fps: set<int>, before: seq<Alert>, after: seq<Alert>) {
    && OnlySettles(before, after)
    && forall a :: |before| <= a < |after| ==> after[a].fingerprint !in fps
  }

  predicate Allowed(fps: set<int>, h: History, t: Turn) {
    match t
    case RulePass(rs, _) => Covers(fps, rs)
    case Others(alerts) => LeavesTo(fps, h.alerts, alerts)
  }

  predicate CanTurn(cfg: Config, fps: set<int>, h: History, ts: seq<Turn>) {
    ts == [] ||
    (CanTurn(cfg, fps, h, ts[..|ts| - 1]) && Allowed(fps, AfterTurns(cfg, h, ts[..|ts| - 1]), ts[|ts| - 1]))
  }

  // ----- a rule of one service with a fingerprint of its own --------------------------------

  /** Every pass of the rule reads its one service, and none is later than `clock`. */
  predicate Single(fp: int, ts: seq<Turn>) {
    forall i :: 0 <= i < |ts| && ts[i].RulePass? ==> |ts[i].readings| == 1 && ts[i].readings[0].fingerprint == fp
  }

  predicate Timely(ts: seq<Turn>, clock: int) {
    && (forall i :: 0 <= i < |ts| && ts[i].RulePass? ==> ts[i].now <= clock)
    && forall i, j :: 0 <= i < j < |ts| && ts[i].RulePass? && ts[j].RulePass? ==> ts[i].now <= ts[j].now
  }

  /** Its only firing alert is the one it remembers, and has dwelt long enough. */
  ghost predicate Tracks(cfg: Config, fp: int, h: History, streak: seq<int>, clock: int) {
    forall a :: FiringWith(h.alerts, a, fp) ==> h.rule.active == Some(a) && Due(cfg, streak, clock)
  }

  lemma DueLater(cfg: Config, streak: seq<int>, more: seq<int>, clock: int, now: int)
    requires Due(cfg, streak, clock) && clock <= now
    ensures Due(cfg, streak + more, now)
  {
    DueIff(cfg, streak, clock);
    var x :| x in streak && clock - x >= cfg.forSeconds * SECOND;
    assert x in streak + more;
    DueIff(cfg, streak + more, now);
  }

  lemma OwnPassTracks(cfg: Config, fp: int, ts: seq<Turn>, r: Reading, clock: int, now: int)
    requires cfg.enabled && r.fingerprint == fp && clock <= now
    requires Tracks(cfg, fp, AfterTurns(cfg, BEGINNING, ts), Streak(cfg, ts), clock)
    ensures
      var h' := AfterTurn(cfg, AfterTurns(cfg, BEGINNING, ts), RulePass([r], now));
      var streak' := Extended(cfg, Streak(cfg, ts), [r], now);
      && Tracks(cfg, fp, h', streak', now) && h'.rule.breachingSince == Minimum(streak')
      && (AnyFiring(h'.alerts, fp) <==> Due(cfg, streak', now))
  {
    var h, streak := AfterTurns(cfg, BEGINNING, ts), Streak(cfg, ts);
    var p := Progress(h.rule, h.alerts, false);
    FiringAfterPassIff(cfg, ts, [r], now, fp);
    assert [r][..1] == [r] && [r][..0] == [];
    if r.breaching {
      assert [r][0].breaching;
      if Due(cfg, streak, clock) {
        DueLater(cfg, streak, Starts(cfg, [r], now), clock, now);
      }
      assert DueReading(cfg, streak, [r], now, fp, 0) <==> Due(cfg, streak + Starts(cfg, [r], now), now);
      SinglePass(cfg, p, r, now);
    } else {
      PassSettles(cfg, h.rule, h.alerts, [r], now);
    }
  }

  /** A single reading fires on the alert already firing, or on a new one the rule then remembers. */
  lemma SinglePass(cfg: Config, p: Progress, r: Reading, now: int)
    ensures
      var p' := ConsiderAll(cfg, p, [r], now);
      forall a :: FiringWith(p'.alerts, a, r.fingerprint) && !FiringWith(p.alerts, a, r.fingerprint) ==>
        p'.rule.active == Some(a) && forall b :: !FiringWith(p.alerts, b, r.fingerprint)
    ensures
      var p' := ConsiderAll(cfg, p, [r], now);
      AnyFiring(p.alerts, r.fingerprint) ==> p'.rule.active == p.rule.active
  {
    assert [r][..0] == [] && ConsiderAll(cfg, p, [], now) == p;
    assert ConsiderAll(cfg, p, [r], now) == Consider(cfg, p, r, now);
    if AnyFiring(p.alerts, r.fingerprint) {
      assert FindFiring(p.alerts, r.fingerprint).Some?;
    }
  }

  lemma {:induction false} TurnsTrack(cfg: Config, fp: int, ts: seq<Turn>, clock: int)
    requires cfg.enabled && Single(fp, ts) && Timely(ts, clock) && CanTurn(cfg, {fp}, BEGINNING, ts)
    ensures Tracks(cfg, fp, AfterTurns(cfg, BEGINNING, ts), Streak(cfg, ts), clock)
    decreases |ts|
  {
    if ts != [] {
      var front, t := ts[..|ts| - 1], ts[|ts| - 1];
      match t
      case Others(alerts) =>
        TurnsTrack(cfg, fp, front, clock);
        var h := AfterTurns(cfg, BEGINNING, front);
        assert forall a :: FiringWith(alerts, a, fp) ==> FiringWith(h.alerts, a, fp);
      case RulePass(rs, now) =>
        TurnsTrack(cfg, fp, front, now);
        assert rs == [rs[0]];
        OwnPassTracks(cfg, fp, front, rs[0], now, now);
        var streak := Streak(cfg, ts);
        if Due(cfg, streak, now) {
          DueLater(cfg, streak, [], now, clock);
          assert streak + [] == streak;
        }
    }
  }

  /**
   After any history and one more pass of its own, the rule's alert is firing exactly when that pass prolongs
   an unbroken streak of breaching passes and the earliest start inferred over it is at least `for_seconds`
   old; that start is what `breaching_since` holds. A pass that does not breach leaves nothing firing.
   */
  lemma FiringIffDwelt(cfg: Config, fp: int, ts: seq<Turn>, r: Reading, now: int)
    requires cfg.enabled && r.fingerprint == fp && Single(fp, ts) && Timely(ts, now) && CanTurn(cfg, {fp}, BEGINNING, ts)
    ensures
      var h' := AfterTurns(cfg, BEGINNING, ts + [RulePass([r], now)]);
      var streak := Streak(cfg, ts + [RulePass([r], now)]);
      && (streak != [] <==> r.breaching)
      && (if streak == [] then h'.rule.breachingSince == None
          else h'.rule.breachingSince.Some? && h'.rule.breachingSince.value in streak
               && forall x :: x in streak ==> h'.rule.breachingSince.value <= x)
      && (AnyFiring(h'.alerts, fp) <==>
            streak != [] && now - h'.rule.breachingSince.value >= cfg.forSeconds * 1_000_000)
  {
    var t := RulePass([r], now);
    assert (ts + [t])[..|ts|] == ts;
    TurnsTrack(cfg, fp, ts, now);
    OwnPassTracks(cfg, fp, ts, r, now, now);
    var streak := Streak(cfg, ts + [t]);
    assert [r][0] == r && [r][..0] == [];
    if streak != [] {
      MinimumIsLeast(streak);
    }
  }

  // ----- which alerts a pass settles -------------------------------------------------------

  predicate OwnFiring(fps: set<int>, alerts: seq<Alert>, a: int) { Firing(alerts, a) && alerts[a].fingerprint in fps }

  /** `a` is the last alert of the rule in the table, and it was created since the last pass without a breach. */
  predicate NewestSince(fps: set<int>, h: History, a: int) {
    && h.mark <= a < |h.alerts| && h.alerts[a].fingerprint in fps
    && forall b :: a < b < |h.alerts| ==> h.alerts[b].fingerprint !in fps
  }

  /** The rule remembers the newest of its alerts since the last quiet pass, and no other. */
  ghost predicate Remembers(fps: set<int>, h: History) {
    && h.mark <= |h.alerts|
    && forall a :: NewestSince(fps, h, a) <==> a >= 0 && h.rule.active == Some(a)
  }

  lemma ConsiderRemembers(cfg: Config, fps: set<int>, p: Progress, mark: nat, r: Reading, now: int)
    requires r.fingerprint in fps && Remembers(fps, History(p.rule, p.alerts, mark))
    ensures
      var p' := Consider(cfg, p, r, now);
      Remembers(fps, History(p'.rule, p'.alerts, mark)) && |p.alerts| <= |p'.alerts|
  {
    var p' := Consider(cfg, p, r, now);
    var h, h' := History(p.rule, p.alerts, mark), History(p'.rule, p'.alerts, mark);
    if |p'.alerts| == |p.alerts| {
      assert forall a :: 0 <= a < |p.alerts| ==> p'.alerts[a].fingerprint == p.alerts[a].fingerprint;
      assert forall a :: NewestSince(fps, h', a) <==> NewestSince(fps, h, a);
    } else {
      assert NewestSince(fps, h', |p.alerts|);
    }
  }

  lemma {:induction false} ConsiderAllRemembers(cfg: Config, fps: set<int>, p: Progress, mark: nat, rs: seq<Reading>,
                                                now: int)
    requires Covers(fps, rs) && Remembers(fps, History(p.rule, p.alerts, mark))
    ensures
      var p' := ConsiderAll(cfg, p, rs, now);
      Remembers(fps, History(p'.rule, p'.alerts, mark)) && |p.alerts| <= |p'.alerts|
    decreases |rs|
  {
    if rs != [] {
      var front := rs[..|rs| - 1];
      ConsiderAllRemembers(cfg, fps, p, mark, front, now);
      ConsiderRemembers(cfg, fps, ConsiderAll(cfg, p, front, now), mark, rs[|rs| - 1], now);
    }
  }

  lemma TurnRemembers(cfg: Config, fps: set<int>, h: History, t: Turn)
    requires Allowed(fps, h, t) && Remembers(fps, h)
    ensures Remembers(fps, AfterTurn(cfg, h, t))
  {
    var h' := AfterTurn(cfg, h, t);
    match t
    case Others(alerts) =>
      assert forall a :: NewestSince(fps, h', a) <==> NewestSince(fps, h, a);
    case RulePass(rs, now) =>
      if cfg.enabled {
        var p := Progress(h.rule, h.alerts, false);
        BreachFlag(cfg, p, rs, now);
        if Quiet(rs) {
          assert forall a :: !NewestSince(fps, h', a);
        } else {
          ConsiderAllRemembers(cfg, fps, p, h.mark, rs, now);
          var p' := ConsiderAll(cfg, p, rs, now);
          assert forall a :: NewestSince(fps, h', a) <==> NewestSince(fps, History(p'.rule, p'.alerts, h.mark), a);
        }
      }
  }

  lemma {:induction false} TurnsRemember(cfg: Config, fps: set<int>, h: History, ts: seq<Turn>)
    requires CanTurn(cfg, fps, h, ts) && Remembers(fps, h)
    ensures Remembers(fps, AfterTurns(cfg, h, ts))
    decreases |ts|
  {
    if ts != [] {
      TurnsRemember(cfg, fps, h, ts[..|ts| - 1]);
      TurnRemembers(cfg, fps, AfterTurns(cfg, h, ts[..|ts| - 1]), ts[|ts| - 1]);
    }
  }

  lemma QuietPassSettles(cfg: Config, fps: set<int>, h: History, rs: seq<Reading>, now: int)
    requires cfg.enabled && Remembers(fps, h) && Quiet(rs)
    ensures
      var after := AfterTurn(cfg, h, RulePass(rs, now)).alerts;
      forall a :: OwnFiring(fps, after, a) <==> OwnFiring(fps, h.alerts, a) && !NewestSince(fps, h, a)
  {
    BreachFlag(cfg, Progress(h.rule, h.alerts, false), rs, now);
    var after := AfterTurn(cfg, h, RulePass(rs, now)).alerts;
    assert after == ResolveActive(h.rule.active, h.alerts, now);
    forall a
      ensures OwnFiring(fps, after, a) <==> OwnFiring(fps, h.alerts, a) && !NewestSince(fps, h, a)
    {
      if h.rule.active.Some? {
        assert NewestSince(fps, h, h.rule.active.value);
      }
    }
  }

  /** Two services breach, then recover: the first one's alert is left firing. */
  lemma EnvironmentRuleStrandsAlert()
    ensures
      var cfg := Config(true, 0, false, Gt, 1.0, 0, 60);
      var breach := [Reading(1, 10, 1, true, Some(2.0), []), Reading(2, 11, 2, true, Some(2.0), [])];
      var quiet := [Reading(1, 12, 1, false, Some(0.0), []), Reading(2, 13, 2, false, Some(0.0), [])];
      var h := AfterTurns(cfg, BEGINNING, [RulePass(breach, 100), RulePass(quiet, 200)]);
      FiringWith(h.alerts, 0, 1) && !FiringWith(h.alerts, 1, 2) && h.rule.active.None?
  {
    var cfg := Config(true, 0, false, Gt, 1.0, 0, 60);
    var r1, r2 := Reading(1, 10, 1, true, Some(2.0), []), Reading(2, 11, 2, true, Some(2.0), []);
    var quiet := [Reading(1, 12, 1, false, Some(0.0), []), Reading(2, 13, 2, false, Some(0.0), [])];
    PassFiresTwice(cfg, r1, r2, 100);
    var h1 := AfterTurn(cfg, BEGINNING, RulePass([r1, r2], 100));
    PassSettles(cfg, h1.rule, h1.alerts, quiet, 200);
    var h2 := AfterTurn(cfg, h1, RulePass(quiet, 200));
    TwoTurns(cfg, BEGINNING, RulePass([r1, r2], 100), RulePass(quiet, 200));
  }

  lemma TwoTurns(cfg: Config, h: History, t: Turn, u: Turn)
    ensures AfterTurns(cfg, h, [t, u]) == AfterTurn(cfg, AfterTurn(cfg, h, t), u)
  {
    assert [t, u][..1] == [t] && [t][..0] == [];
    assert AfterTurns(cfg, h, [t]) == AfterTurn(cfg, h, t);
  }

  /**
   After any history the rule remembers the newest alert it created since the last pass without a breach, and
   the next such pass settles that one alone. So nothing of the rule is left firing exactly when no other
   alert of its was still firing.
   */
  lemma QuietPassClearsIff(cfg: Config, fps: set<int>, ts: seq<Turn>, rs: seq<Reading>, now: int)
    requires cfg.enabled && CanTurn(cfg, fps, BEGINNING, ts) && Quiet(rs)
    ensures
      var h := AfterTurns(cfg, BEGINNING, ts);
      var after := AfterTurn(cfg, h, RulePass(rs, now)).alerts;
      && Remembers(fps, h)
      && (forall a :: OwnFiring(fps, after, a) <==> OwnFiring(fps, h.alerts, a) && !NewestSince(fps, h, a))
      && ((forall a :: !OwnFiring(fps, after, a)) <==>
            forall a :: OwnFiring(fps, h.alerts, a) ==> NewestSince(fps, h, a))
  {
    TurnsRemember(cfg, fps, BEGINNING, ts);
    QuietPassSettles(cfg, fps, AfterTurns(cfg, BEGINNING, ts), rs, now);
  }

  /** An alert once left firing by such a pass stays so: no later pass of the rule ever settles it. */
  lemma {:induction false} LeftFiringForGood(cfg: Config, fps: set<int>, h: History, ts: seq<Turn>, a: nat)
    requires cfg.enabled && CanTurn(cfg, fps, h, ts) && Remembers(fps, h) && forall t :: t in ts ==> t.RulePass?
    requires OwnFiring(fps, h.alerts, a) && a < h.mark
    ensures OwnFiring(fps, AfterTurns(cfg, h, ts).alerts, a) && h.mark <= AfterTurns(cfg, h, ts).mark
    decreases |ts|
  {
    if ts != [] {
      var front, t := ts[..|ts| - 1], ts[|ts| - 1];
      assert t in ts;
      LeftFiringForGood(cfg, fps, h, front, a);
      TurnsRemember(cfg, fps, h, front);
      PassSpares(cfg, fps, AfterTurns(cfg, h, front), t, a);
    }
  }

  lemma PassSpares(cfg: Config, fps: set<int>, h: History, t: Turn, a: nat)
    requires cfg.enabled && Remembers(fps, h) && t.RulePass? && OwnFiring(fps, h.alerts, a) && a < h.mark
    ensures OwnFiring(fps, AfterTurn(cfg, h, t).alerts, a) && h.mark <= AfterTurn(cfg, h, t).mark
  {
    var p := Progress(h.rule, h.alerts, false);
    BreachFlag(cfg, p, t.readings, t.now);
    ConsiderAllRows(cfg, p, t.readings, t.now);
    if Quiet(t.readings) {
      assert !NewestSince(fps, h, a);
    }
  }
}
