/** The remediation policy engine and post-remediation verification. */
module Policy {
  import opened Numbers
  import opened Wrappers
  import L = Lifecycle

  datatype Role = Viewer | Engineer | IncidentCommander | Admin

  function Rank(r: Role): nat {
    match r
    case Viewer => 0
    case Engineer => 1
    case IncidentCommander => 2
    case Admin => 3
  }

  lemma RolesRise()
    ensures Rank(Viewer) < Rank(Engineer) < Rank(IncidentCommander) < Rank(Admin)
  {
  }

  datatype Mode = Observe | Recommend | ApprovalRequired | Autonomous

  datatype Risk = Low | Medium | High

  datatype Level = Info | Warn | Block

  datatype Finding = Finding(level: Level, code: string)

  datatype ActionSpec = ActionSpec(reversible: bool, requiresRole: Role)

  /**
   What a policy evaluation reads. `spec` is absent when the action is not registered or its parameters do
   not fit; `risk` is absent when the text is none of the three known ones, and then counts as MEDIUM.
   */
  datatype Situation = Situation(mode: Mode, spec: Option<ActionSpec>, serviceKnown: bool, incident: L.Status,
                                 risk: Option<Risk>, confidence: Option<real>)

  datatype Decision = Decision(allowedNow: bool, requiresApproval: bool, minRole: Role, effectiveMode: Mode,
                               findings: seq<Finding>)

  function RiskOf(s: Situation): Risk { if s.risk.Some? then s.risk.value else Medium }

  /** Nothing may be done to it: unregistered or unresolvable, or the incident is over, or mode OBSERVE. */
  predicate Barred(s: Situation) {
    s.spec.None? || !s.serviceKnown || s.incident in {L.Resolved, L.Closed} || s.mode == Observe
  }

  predicate Resolvable(s: Situation) { s.spec.Some? && s.serviceKnown }

  /** The one case that needs no human approval. */
  predicate AutonomyBar(s: Situation) {
    && s.mode == Autonomous && RiskOf(s) == Low && s.spec.Some? && s.spec.value.reversible
    && s.confidence.Some? && s.confidence.value >= 0.8
  }

  /** The least role that may approve. */
  function MinRole(s: Situation): Role {
    if !Resolvable(s) then Admin
    else if AutonomyBar(s) then s.spec.value.requiresRole
    else if RiskOf(s) != Low && s.spec.value.requiresRole == Admin then Admin
    else IncidentCommander
  }

  predicate Blocking(findings: seq<Finding>) { exists i :: 0 <= i < |findings| && findings[i].level == Block }

  predicate Blocked(d: Decision) { Blocking(d.findings) }

  lemma BlockingAppend(fs: seq<Finding>, f: Finding)
    ensures Blocking(fs + [f]) <==> Blocking(fs) || f.level == Block
  {
    if Blocking(fs) {
      var i :| 0 <= i < |fs| && fs[i].level == Block;
      assert (fs + [f])[i].level == Block;
    }
    assert (fs + [f])[|fs|] == f;
  }

  method Add(fs: seq<Finding>, level: Level, code: string) returns (r: seq<Finding>)
    ensures Blocking(r) <==> Blocking(fs) || level == Block
    ensures r == fs + [Finding(level, code)]
  {
    BlockingAppend(fs, Finding(level, code));
    r := fs + [Finding(level, code)];
  }

  /** Steps 3 to 5 of the evaluation: incident state, confidence, mode and risk. */
  method Assess(s: Situation) returns (requiresApproval: bool, findings: seq<Finding>)
    requires Resolvable(s)
    ensures Blocking(findings) <==> Barred(s)
    ensures requiresApproval <==> !AutonomyBar(s)
  {
    var spec, risk := s.spec.value, RiskOf(s);
    findings := [];
    if s.incident == L.Resolved || s.incident == L.Closed {
      findings := Add(findings, Block, "incident_not_open");
    }
    if s.confidence.Some? && s.confidence.value < 0.5 && risk != Low {
      findings := Add(findings, Warn, "low_confidence");
    }
    requiresApproval := true;
    match s.mode {
      case Observe => findings := Add(findings, Block, "observe_mode");
      case Recommend => findings := Add(findings, Info, "recommend_mode");
      case ApprovalRequired =>
      case Autonomous =>
        var confident := if s.confidence.Some? then s.confidence.value else 0.0;
        var autonomousOk := risk == Low && spec.reversible && confident >= 0.8;
        requiresApproval := !autonomousOk;
        if !autonomousOk {
          findings := Add(findings, Info, "autonomous_gate");
        }
    }
    if risk == High {
      requiresApproval := true;
      findings := Add(findings, Warn, "high_risk");
    }
  }

  /** `evaluate`: blocks exactly what is barred, and lets through unapproved only what meets the autonomous bar. */
  method Evaluate(s: Situation) returns (d: Decision)
    ensures (exists i :: 0 <= i < |d.findings| && d.findings[i].level == Block)
       <==> s.spec.None? || !s.serviceKnown || s.incident == L.Resolved || s.incident == L.Closed || s.mode == Observe
    ensures d.allowedNow <==>
      && s.spec.Some? && s.serviceKnown && s.incident != L.Resolved && s.incident != L.Closed
      && s.mode == Autonomous && s.risk == Some(Low) && s.spec.value.reversible
      && s.confidence.Some? && s.confidence.value >= 0.8
    ensures s.spec.None? || !s.serviceKnown ==> d.minRole == Admin
    ensures s.spec.Some? && s.serviceKnown ==>
      d.minRole ==
        if s.mode == Autonomous && s.risk == Some(Low) && s.spec.value.reversible
           && s.confidence.Some? && s.confidence.value >= 0.8 then s.spec.value.requiresRole
        else if s.risk != Some(Low) && s.spec.value.requiresRole == Admin then Admin
        else IncidentCommander
    ensures Blocked(d) <==> Barred(s)
    ensures d.allowedNow <==> !Barred(s) && AutonomyBar(s)
    ensures d.requiresApproval <==> !Resolvable(s) || (!Barred(s) && !AutonomyBar(s))
    ensures d.minRole == MinRole(s) && d.effectiveMode == s.mode
  {
    if s.spec.None? {
      var refusal := Add([], Block, "invalid_action");
      return Decision(false, true, Admin, s.mode, refusal);
    }
    if !s.serviceKnown {
      var refusal := Add([], Block, "unknown_service");
      return Decision(false, true, Admin, s.mode, refusal);
    }
    var spec, risk := s.spec.value, RiskOf(s);
    var requiresApproval, findings := Assess(s);
    var minRole := if requiresApproval || risk != Low then IncidentCommander else spec.requiresRole;
    if risk != Low && Rank(spec.requiresRole) > Rank(minRole) {
      minRole := spec.requiresRole;
    }
    var blocked := Blocking(findings);
    if !blocked && requiresApproval {
      findings := Add(findings, Info, "approval_required");
    }
    d := Decision(!blocked && !requiresApproval, requiresApproval && !blocked, minRole, s.mode, findings);
  }

  /** What policy reads of the registered actions. */
  const REGISTRY: map<string, ActionSpec> := map[
    "rollback_demo_deployment" := ActionSpec(true, IncidentCommander),
    "scale_demo_service" := ActionSpec(true, Engineer),
    "restart_demo_service" := ActionSpec(false, Engineer),
    "disable_demo_feature_flag" := ActionSpec(true, Engineer),
    "clear_demo_cache" := ActionSpec(false, Engineer)]

  /**
   Whatever the situation, the approver's role reaches the one the action demands: this is so for exactly the
   actions that do not demand ADMIN.
   */
  lemma ApproverReachesActionIff(spec: ActionSpec)
    ensures (forall s: Situation :: s.spec == Some(spec) ==> Rank(MinRole(s)) >= Rank(spec.requiresRole))
       <==> spec.requiresRole != Admin
  {
    var s := Situation(ApprovalRequired, Some(spec), true, L.Investigating, Some(Low), None);
    assert MinRole(s) == IncidentCommander;
  }

  /** Every registered action is approved only by a role that reaches its own; only reversible ones ever run unapproved. */
  lemma RegisteredActionsGuarded(name: string, s: Situation)
    requires name in REGISTRY && s.spec == Some(REGISTRY[name])
    ensures Rank(MinRole(s)) >= Rank(REGISTRY[name].requiresRole)
    ensures REGISTRY[name].reversible
       <==> name in {"rollback_demo_deployment", "scale_demo_service", "disable_demo_feature_flag"}
    ensures REGISTRY[name].requiresRole == if name == "rollback_demo_deployment" then IncidentCommander else Engineer
    ensures AutonomyBar(s) ==> REGISTRY[name].reversible
  {
    ApproverReachesActionIff(REGISTRY[name]);
  }

  /** Someone below incident commander may approve only what could have run without approval. */
  lemma JuniorApprovalIff(s: Situation, role: Role)
    requires !Barred(s) && Rank(role) < Rank(IncidentCommander)
    ensures Rank(role) >= Rank(MinRole(s)) <==> AutonomyBar(s) && Rank(role) >= Rank(s.spec.value.requiresRole)
  {
  }

  // ----- verification ----------------------------------------------------------------------

  datatype Op = Lt | Lte | Gt | Gte

  predicate Satisfies(op: Op, a: real, b: real) {
    match op
    case Lt => a < b
    case Lte => a <= b
    case Gt => a > b
    case Gte => a >= b
  }

  /** What the four comparisons mean, by how they relate and where they hold. */
  lemma OperatorLaws(a: real, b: real)
    ensures a > b ==> Satisfies(Gt, a, b) && !Satisfies(Lt, a, b)
    ensures !Satisfies(Gt, a, a) && (Satisfies(Gt, a, b) <==> Satisfies(Lt, b, a))
    ensures (Satisfies(Gte, a, b) <==> !Satisfies(Lt, a, b)) && (Satisfies(Lte, a, b) <==> !Satisfies(Gt, a, b))
  {
  }

  datatype BaselineView = BaselineView(mean: real, std: real, ewstd: real, p95: real)

  /** One check with what was measured for it and the stored baseline of its metric, if any. */
  datatype Check = Check(errorRate: bool, op: Op, target: real, measured: Option<real>, baseline: Option<BaselineView>)

  /** Upper end of the accepted band around a learned baseline. */
  function Band(b: BaselineView): real {
    MaxReal(b.p95 * 2.0, b.mean + 5.0 * MaxReal(MaxReal(b.std, b.ewstd), 0.000000001))
  }

  predicate Passes(c: Check, compareBaseline: bool) {
    && c.measured.Some? && Satisfies(c.op, c.measured.value, c.target)
    && (compareBaseline && !c.errorRate && c.baseline.Some? && c.baseline.value.mean > 0.0 ==>
          c.measured.value <= Band(c.baseline.value))
  }

  datatype Report = Report(passed: nat, total: nat, success: bool)

  function PassCount(checks: seq<Check>, compareBaseline: bool): nat {
    if checks == [] then 0
    else PassCount(checks[..|checks| - 1], compareBaseline)
         + if Passes(checks[|checks| - 1], compareBaseline) then 1 else 0
  }

  predicate AllPass(checks: seq<Check>, compareBaseline: bool) {
    checks != [] && forall i :: 0 <= i < |checks| ==> Passes(checks[i], compareBaseline)
  }

  lemma {:induction false} FullCountIffAll(checks: seq<Check>, compareBaseline: bool)
    ensures PassCount(checks, compareBaseline) <= |checks|
    ensures checks != [] && PassCount(checks, compareBaseline) == |checks| <==> AllPass(checks, compareBaseline)
    decreases |checks|
  {
    if checks != [] {
      var front := checks[..|checks| - 1];
      FullCountIffAll(front, compareBaseline);
      assert AllPass(checks, compareBaseline) <==>
        (front == [] || AllPass(front, compareBaseline)) && Passes(checks[|checks| - 1], compareBaseline);
    }
  }

  lemma {:induction false} PassCountIs(checks: seq<Check>, compareBaseline: bool)
    ensures PassCount(checks, compareBaseline) == |set i | 0 <= i < |checks| && Passes(checks[i], compareBaseline)|
    decreases |checks|
  {
    if checks != [] {
      var n := |checks| - 1;
      PassCountIs(checks[..n], compareBaseline);
      var front := set i | 0 <= i < n && Passes(checks[..n][i], compareBaseline);
      assert (set i | 0 <= i < |checks| && Passes(checks[i], compareBaseline))
          == front + if Passes(checks[n], compareBaseline) then {n} else {};
    }
  }

  /**
   One check: something was measured, it compares to the target as asked, and, where a learned baseline is to be
   compared, it is within twice its p95 or within five spreads of its mean.
   */
  method RunCheck(c: Check, compareBaseline: bool) returns (ok: bool)
    ensures ok <==> Passes(c, compareBaseline)
    ensures ok ==> c.measured.Some?
    ensures c.measured.Some? && (!compareBaseline || c.errorRate || c.baseline.None? || c.baseline.value.mean <= 0.0) ==>
      var m, t := c.measured.value, c.target;
      (ok <==> (c.op == Lt && m < t) || (c.op == Lte && m <= t) || (c.op == Gt && m > t) || (c.op == Gte && m >= t))
    ensures c.measured.Some? && compareBaseline && !c.errorRate && c.baseline.Some? && c.baseline.value.mean > 0.0 ==>
      var m, t, b := c.measured.value, c.target, c.baseline.value;
      (ok <==>
        && ((c.op == Lt && m < t) || (c.op == Lte && m <= t) || (c.op == Gt && m > t) || (c.op == Gte && m >= t))
        && (|| m <= 2.0 * b.p95 || m <= b.mean + 5.0 * b.std || m <= b.mean + 5.0 * b.ewstd
            || m <= b.mean + 0.000000005))
  {
    ok := c.measured.Some? && Satisfies(c.op, c.measured.value, c.target);
    var baselineOk := true;
    if ok && compareBaseline && !c.errorRate && c.baseline.Some? && c.baseline.value.mean > 0.0 {
      baselineOk := c.measured.value <= Band(c.baseline.value);
    }
    ok := ok && baselineOk;
  }

  /** `run_verification`: success needs at least one check and every check passing. */
  method RunVerification(checks: seq<Check>, compareBaseline: bool) returns (report: Report)
    ensures report.total == |checks|
    ensures report.passed == |set i | 0 <= i < |checks| && Passes(checks[i], compareBaseline)|
    ensures report.success <==> checks != [] && forall i :: 0 <= i < |checks| ==> Passes(checks[i], compareBaseline)
    ensures report == Report(PassCount(checks, compareBaseline), |checks|, AllPass(checks, compareBaseline))
  {
    var passed := 0;
    for k := 0 to |checks|
      invariant passed == PassCount(checks[..k], compareBaseline)
    {
      assert checks[..k + 1][..k] == checks[..k];
      var ok := RunCheck(checks[k], compareBaseline);
      passed := passed + if ok then 1 else 0;
    }
    assert checks[..|checks|] == checks;
    FullCountIffAll(checks, compareBaseline);
    PassCountIs(checks, compareBaseline);
    report := Report(passed, |checks|, |checks| > 0 && passed == |checks|);
  }
}
