/** The lifecycle of a remediation action: approval, execution, verification, rollback. */
module Remediation {
  import opened Wrappers
  import opened Policy
  import L = Lifecycle

  datatype Status = Proposed | AwaitingApproval | Approved | Rejected | Executing | Verifying | Succeeded | Failed
                  | RolledBack

  predicate Active(s: Status) { s in {AwaitingApproval, Proposed, Approved} }

  datatype Approval = Approval(approved: bool, actor: string, role: Role)

  datatype Kind = Apply | Revert

  datatype Execution = Execution(kind: Kind, attempt: nat, ok: bool, verified: Option<Report>)

  datatype Remedy = Remedy(status: Status, approvals: seq<Approval>, executions: seq<Execution>)

  /**
   The five operations with what they meet. `registered` and `serviceKnown`: the registry lookup and the
   service lookup succeed; `works`: the registry's apply or revert does not raise. `mode` is the remediation
   mode in force when `Execute` is called; for `Approve` it is part of the situation.
   */
  datatype Op =
    | Approve(situation: Situation, actor: string, role: Role)
    | Reject(actor: string, role: Role)
    | Execute(mode: Mode, registered: bool, serviceKnown: bool, works: bool)
    | Verify(checks: seq<Check>, compareBaseline: bool)
    | Rollback(reversible: bool, serviceKnown: bool, works: bool)

  /** Policy does not block and the approver's role reaches the required one. */
  predicate Permitted(s: Situation, role: Role) { !Barred(s) && Rank(role) >= Rank(MinRole(s)) }

  predicate Accepts(r: Remedy, op: Op) {
    match op
    case Approve(situation, _, role) => Active(r.status) && Permitted(situation, role)
    case Reject(_, _) => Active(r.status)
    case Execute(_, registered, serviceKnown, _) => r.status == Approved && registered && serviceKnown
    case Verify(_, _) => r.status in {Verifying, Executing}
    case Rollback(reversible, serviceKnown, _) =>
      reversible && serviceKnown && r.status in {Succeeded, Failed, Verifying}
  }

  function Applies(es: seq<Execution>): nat {
    if es == [] then 0 else Applies(es[..|es| - 1]) + if es[|es| - 1].kind == Apply then 1 else 0
  }

  /** The last apply execution receives the verification report. */
  function Annotate(es: seq<Execution>, report: Report): seq<Execution> {
    if es == [] then []
    else if es[|es| - 1].kind == Apply then es[..|es| - 1] + [es[|es| - 1].(verified := Some(report))]
    else Annotate(es[..|es| - 1], report) + [es[|es| - 1]]
  }

  function Perform(r: Remedy, op: Op): Remedy {
    if !Accepts(r, op) then r
    else
      match op
      case Approve(_, actor, role) =>
        r.(approvals := r.approvals + [Approval(true, actor, role)], status := Approved)
      case Reject(actor, role) =>
        r.(approvals := r.approvals + [Approval(false, actor, role)], status := Rejected)
      case Execute(_, _, _, works) =>
        r.(executions := r.executions + [Execution(Apply, Applies(r.executions) + 1, works, None)],
           status := if works then Verifying else Failed)
      case Verify(checks, compareBaseline) =>
        var success := AllPass(checks, compareBaseline);
        r.(executions := Annotate(r.executions, Report(PassCount(checks, compareBaseline), |checks|, success)),
           status := if success then Succeeded else Failed)
      case Rollback(_, _, works) =>
        r.(executions := r.executions + [Execution(Revert, |r.executions| + 1, works, None)],
           status := if works then RolledBack else r.status)
  }

  class Action {
    var status: Status
    var approvals: seq<Approval>
    var executions: seq<Execution>

    function ToRemedy(): Remedy
      reads this
    {
      Remedy(status, approvals, executions)
    }

    /** How the remediation agent proposes an action. */
    constructor (requiresApproval: bool)
      ensures ToRemedy() == Remedy(if requiresApproval then AwaitingApproval else Proposed, [], [])
    {
      status := if requiresApproval then AwaitingApproval else Proposed;
      approvals, executions := [], [];
    }

    /**
     `approve`: while the action is active, policy does not bar it and the role reaches the required one, the
     approval is recorded and the action is APPROVED; otherwise nothing changes. False stands for a raised
     ConflictError, PolicyViolation or PermissionError_.
     */
    method Approve(situation: Situation, actor: string, role: Role) returns (ok: bool)
      modifies this
      ensures ok <==>
        && old(status) in {Proposed, AwaitingApproval, Approved}
        && !Barred(situation) && Rank(role) >= Rank(MinRole(situation))
      ensures status == if ok then Approved else old(status)
      ensures approvals == old(approvals) + if ok then [Approval(true, actor, role)] else []
      ensures executions == old(executions)
      ensures ok <==> Accepts(old(ToRemedy()), Op.Approve(situation, actor, role))
      ensures ToRemedy() == Perform(old(ToRemedy()), Op.Approve(situation, actor, role))
    {
      if status !in {AwaitingApproval, Proposed, Approved} {
        return false;
      }
      var decision := Evaluate(situation);
      if Blocked(decision) {
        return false;
      }
      if Rank(role) < Rank(decision.minRole) {
        return false;
      }
      approvals := approvals + [Approval(true, actor, role)];
      status := Approved;
      return true;
    }

    /** `reject`: an active action ends REJECTED, on record. */
    method Reject(actor: string, role: Role) returns (ok: bool)
      modifies this
      ensures ok <==> old(status) in {Proposed, AwaitingApproval, Approved}
      ensures status == if ok then Rejected else old(status)
      ensures approvals == old(approvals) + if ok then [Approval(false, actor, role)] else []
      ensures executions == old(executions)
      ensures ok <==> Accepts(old(ToRemedy()), Op.Reject(actor, role))
      ensures ToRemedy() == Perform(old(ToRemedy()), Op.Reject(actor, role))
    {
      if status !in {AwaitingApproval, Proposed, Approved} {
        return false;
      }
      approvals := approvals + [Approval(false, actor, role)];
      status := Rejected;
      return true;
    }

    /** Also moves the incident to MITIGATING where the state machine lets it. */
    method Execute(incident: L.Incident, mode: Mode, registered: bool, serviceKnown: bool, works: bool,
                   now: int, at: int, actor: string) returns (ok: bool)
      modifies this, incident
      ensures ok <==> old(status) == Approved && registered && serviceKnown
      ensures status == if !ok then old(status) else if works then Verifying else Failed
      ensures executions == old(executions) +
                if ok then [Execution(Apply, Applies(old(executions)) + 1, works, None)] else []
      ensures approvals == old(approvals)
      ensures incident.status == if ok && old(incident.status) in {L.Investigating, L.Acknowledged} then L.Mitigating
                                 else old(incident.status)
      ensures ok <==> Accepts(old(ToRemedy()), Op.Execute(mode, registered, serviceKnown, works))
      ensures ToRemedy() == Perform(old(ToRemedy()), Op.Execute(mode, registered, serviceKnown, works))
      ensures incident.ToLife() ==
              if ok then L.Perform(old(incident.ToLife()), L.Op.StartMitigation(actor), now, at)
              else old(incident.ToLife())
    {
      if status != Approved || !registered || !serviceKnown {
        return false;
      }
      var applied := CountApplies(executions);
      status := Executing;
      incident.StartMitigation(now, at, actor);
      executions := executions + [Execution(Apply, applied + 1, works, None)];
      status := if works then Verifying else Failed;
      return true;
    }

    /** `verify`: SUCCEEDED exactly if there are checks and all pass, else FAILED; only the last apply gets the report. */
    method Verify(checks: seq<Check>, compareBaseline: bool) returns (ok: bool)
      modifies this
      ensures ok <==> old(status) in {Verifying, Executing}
      ensures status ==
        if !ok then old(status)
        else if checks != [] && forall i :: 0 <= i < |checks| ==> Passes(checks[i], compareBaseline) then Succeeded
        else Failed
      ensures |executions| == |old(executions)| && approvals == old(approvals)
      ensures forall i :: 0 <= i < |executions| ==>
        executions[i] ==
          if ok && old(executions)[i].kind == Apply
             && (forall j :: i < j < |executions| ==> old(executions)[j].kind != Apply)
          then
            var report := Report(PassCount(checks, compareBaseline), |checks|, status == Succeeded);
            old(executions)[i].(verified := Some(report))
          else old(executions)[i]
      ensures ok <==> Accepts(old(ToRemedy()), Op.Verify(checks, compareBaseline))
      ensures ToRemedy() == Perform(old(ToRemedy()), Op.Verify(checks, compareBaseline))
    {
      if status !in {Verifying, Executing} {
        return false;
      }
      var report := RunVerification(checks, compareBaseline);
      AnnotateLast(executions, report);
      executions := Annotate(executions, report);
      status := if report.success then Succeeded else Failed;
      return true;
    }

    /**
     `rollback`: an accepted one is recorded as one more revert, whether or not it worked, and only one that
     worked changes the status; a refused one changes nothing.
     */
    method Rollback(reversible: bool, serviceKnown: bool, works: bool) returns (ok: bool)
      modifies this
      ensures ok <==> reversible && serviceKnown && old(status) in {Succeeded, Failed, Verifying}
      ensures status == if ok && works then RolledBack else old(status)
      ensures ok ==> |executions| == |old(executions)| + 1 && Applies(executions) == Applies(old(executions))
      ensures ok ==> executions[|executions| - 1].kind == Revert && executions[|executions| - 1].ok == works
      ensures !ok ==> executions == old(executions)
      ensures old(executions) <= executions && approvals == old(approvals)
      ensures Orderly(old(ToRemedy())) ==> Orderly(ToRemedy())
      ensures ok <==> Accepts(old(ToRemedy()), Op.Rollback(reversible, serviceKnown, works))
      ensures ToRemedy() == Perform(old(ToRemedy()), Op.Rollback(reversible, serviceKnown, works))
    {
      RollbackEffect(ToRemedy(), Op.Rollback(reversible, serviceKnown, works));
      if !reversible || status !in {Succeeded, Failed, Verifying} || !serviceKnown {
        return false;
      }
      executions := executions + [Execution(Revert, |executions| + 1, works, None)];
      if works {
        status := RolledBack;
      }
      return true;
    }
  }

  /** The last apply, if there is one, gets the report and nothing else changes. */
  lemma {:induction false} AnnotateLast(es: seq<Execution>, report: Report)
    ensures |Annotate(es, report)| == |es|
    ensures forall i :: 0 <= i < |es| ==>
      Annotate(es, report)[i] ==
        if es[i].kind == Apply && forall j :: i < j < |es| ==> es[j].kind != Apply
        then es[i].(verified := Some(report)) else es[i]
    decreases |es|
  {
    if es != [] {
      AnnotateLast(es[..|es| - 1], report);
      assert es == es[..|es| - 1] + [es[|es| - 1]];
    }
  }

  lemma RollbackEffect(r: Remedy, op: Op)
    requires op.Rollback?
    ensures
      var r', ok := Perform(r, op), Accepts(r, op);
      && (Orderly(r) ==> Orderly(r')) && Applies(r'.executions) == Applies(r.executions)
      && (ok ==> r'.executions == r.executions + [Execution(Revert, |r.executions| + 1, op.works, None)])
  {
    if Orderly(r) {
      PerformOrderly(r, op);
    }
    if Accepts(r, op) {
      var es := Perform(r, op).executions;
      assert es[..|es| - 1] == r.executions;
    }
  }

  method CountApplies(es: seq<Execution>) returns (n: nat)
    ensures n == Applies(es)
  {
    n := 0;
    for i := 0 to |es|
      invariant n == Applies(es[..i])
    {
      assert es[..i + 1][..i] == es[..i];
      if es[i].kind == Apply {
        n := n + 1;
      }
    }
    assert es[..|es|] == es;
  }

  // ----- safety over whole runs --------------------------------------------------------------

  function PerformAll(r: Remedy, ops: seq<Op>): Remedy {
    if ops == [] then r else Perform(PerformAll(r, ops[..|ops| - 1]), ops[|ops| - 1])
  }

  predicate Newborn(r: Remedy) { r.status in {Proposed, AwaitingApproval} && r.approvals == [] && r.executions == [] }

  /** Executions are numbered from 1; the first is the apply, the rest are reverts, all but the last failed. */
  predicate Orderly(r: Remedy) {
    var es := r.executions;
    && (forall i :: 0 <= i < |es| ==> es[i].attempt == i + 1 && (es[i].kind == Apply <==> i == 0))
    && (forall i :: 0 < i < |es| && es[i].ok ==> i == |es| - 1 && r.status == RolledBack)
    && r.status != Executing
    && (es == [] <==> r.status in {Proposed, AwaitingApproval, Approved, Rejected})
    && (r.status in {Verifying, Succeeded} ==> es[0].ok)
    && (r.status == RolledBack ==> |es| > 1 && es[|es| - 1].ok)
  }

  lemma {:induction false} OneApply(es: seq<Execution>)
    requires forall i :: 0 <= i < |es| ==> (es[i].kind == Apply <==> i == 0)
    ensures Applies(es) == if es == [] then 0 else 1
    decreases |es|
  {
    if es != [] {
      OneApply(es[..|es| - 1]);
    }
  }

  lemma {:induction false} AnnotateKeeps(es: seq<Execution>, report: Report)
    ensures |Annotate(es, report)| == |es|
    ensures forall i :: 0 <= i < |es| ==>
              Annotate(es, report)[i].(verified := None) == es[i].(verified := None)
    decreases |es|
  {
    if es != [] && es[|es| - 1].kind != Apply {
      AnnotateKeeps(es[..|es| - 1], report);
    }
  }

  lemma PerformOrderly(r: Remedy, op: Op)
    requires Orderly(r)
    ensures Orderly(Perform(r, op))
  {
    if Accepts(r, op) {
      match op
      case Execute(_, _, _, _) => OneApply(r.executions);
      case Verify(checks, compareBaseline) =>
        var report := Report(PassCount(checks, compareBaseline), |checks|, AllPass(checks, compareBaseline));
        AnnotateKeeps(r.executions, report);
        assert forall i :: 0 <= i < |r.executions| ==>
          Annotate(r.executions, report)[i].(verified := None) == r.executions[i].(verified := None);
      case _ =>
    }
  }

  /** The run's `k`-th operation is an approval, rightly accepted when it was made and still on record. */
  ghost predicate ApprovedIn(r: Remedy, ops: seq<Op>, k: nat) {
    && k < |ops| && ops[k].Approve? && Accepts(PerformAll(r, ops[..k]), ops[k])
    && !Barred(ops[k].situation) && Rank(ops[k].role) >= Rank(MinRole(ops[k].situation))
    && Approval(true, ops[k].actor, ops[k].role) in PerformAll(r, ops).approvals
  }

  predicate PastApproval(s: Status) { s in {Approved, Executing, Verifying, Succeeded, Failed, RolledBack} }

  lemma {:induction false} RunOrderly(r: Remedy, ops: seq<Op>)
    requires Newborn(r)
    ensures Orderly(PerformAll(r, ops))
    ensures PastApproval(PerformAll(r, ops).status) ==> exists k: nat :: ApprovedIn(r, ops, k)
    decreases |ops|
  {
    if ops != [] {
      var front, op := ops[..|ops| - 1], ops[|ops| - 1];
      RunOrderly(r, front);
      PerformOrderly(PerformAll(r, front), op);
      if PastApproval(PerformAll(r, front).status) {
        var k: nat :| ApprovedIn(r, front, k);
        assert ops[..k] == front[..k];
        assert ApprovedIn(r, ops, k);
      } else if op.Approve? && Accepts(PerformAll(r, front), op) {
        assert ApprovedIn(r, ops, |ops| - 1);
      }
    }
  }

  /**
   Over every run of the five operations: an action is applied at most once, only after an approval that
   policy did not block by someone with the required role; each revert follows that apply, and at most the
   last one succeeded.
   */
  lemma ApplyIsSingleAndApproved(r: Remedy, ops: seq<Op>)
    requires Newborn(r)
    ensures
      var es := PerformAll(r, ops).executions;
      && Applies(es) <= 1
      && (es != [] ==> es[0].kind == Apply && exists k: nat :: ApprovedIn(r, ops, k))
      && (forall i :: 0 < i < |es| ==> es[i].kind == Revert && (es[i].ok ==> i == |es| - 1))
  {
    RunOrderly(r, ops);
    OneApply(PerformAll(r, ops).executions);
  }

  /** While the mode is OBSERVE whenever approval is sought, nothing is ever applied. */
  lemma ObserveNeverApplies(r: Remedy, ops: seq<Op>)
    requires Newborn(r) && forall op :: op in ops && op.Approve? ==> op.situation.mode == Observe
    ensures PerformAll(r, ops).executions == []
  {
    RunOrderly(r, ops);
    forall k: nat
      ensures !ApprovedIn(r, ops, k)
    {
      if k < |ops| {
        assert ops[k] in ops;
      }
    }
  }

  /** The `k`-th operation is a good approval, and nothing but further approvals was accepted after it. */
  ghost predicate Stands(r: Remedy, ops: seq<Op>, k: nat) {
    && ApprovedIn(r, ops, k)
    && forall j :: k < j < |ops| && !ops[j].Approve? ==> !Accepts(PerformAll(r, ops[..j]), ops[j])
  }

  lemma StandsLonger(r: Remedy, ops: seq<Op>, k: nat)
    requires ops != [] && Stands(r, ops[..|ops| - 1], k)
    requires ops[|ops| - 1].Approve? || !Accepts(PerformAll(r, ops[..|ops| - 1]), ops[|ops| - 1])
    ensures Stands(r, ops, k)
  {
    var front := ops[..|ops| - 1];
    assert ops[..k] == front[..k];
    forall j | k < j < |ops| && !ops[j].Approve?
      ensures !Accepts(PerformAll(r, ops[..j]), ops[j])
    {
      assert j < |front| ==> ops[..j] == front[..j] && ops[j] == front[j];
      assert j == |front| ==> ops[..j] == front;
    }
  }

  lemma {:induction false} ApprovedStands(r: Remedy, ops: seq<Op>)
    requires Newborn(r) && PerformAll(r, ops).status == Approved
    ensures exists k: nat :: Stands(r, ops, k)
    decreases |ops|
  {
    var front, op := ops[..|ops| - 1], ops[|ops| - 1];
    if Accepts(PerformAll(r, front), op) {
      assert op.Approve?;
      assert ApprovedIn(r, ops, |ops| - 1);
      assert Stands(r, ops, |ops| - 1);
    } else {
      ApprovedStands(r, front);
      var k: nat :| Stands(r, front, k);
      StandsLonger(r, ops, k);
    }
  }

  lemma {:induction false} ApprovalStays(r: Remedy, ops: seq<Op>, k: nat, n: nat)
    requires Stands(r, ops, k) && k < n <= |ops|
    ensures PerformAll(r, ops[..n]).status == Approved
    decreases n
  {
    assert ops[..n][..n - 1] == ops[..n - 1];
    if n - 1 > k {
      ApprovalStays(r, ops, k, n - 1);
    }
  }

  /**
   `execute` does not evaluate policy again. After any run, in any mode, a resolvable action is applied exactly
   when some accepted approval stands: nothing but further approvals was accepted since.
   */
  lemma ExecuteAppliesIffApprovalStands(r: Remedy, ops: seq<Op>, mode: Mode, works: bool)
    requires Newborn(r)
    ensures
      var before := PerformAll(r, ops);
      Perform(before, Execute(mode, true, true, works)).executions != before.executions
      <==> exists k: nat :: Stands(r, ops, k)
  {
    if PerformAll(r, ops).status == Approved {
      ApprovedStands(r, ops);
    }
    forall k: nat | Stands(r, ops, k)
      ensures PerformAll(r, ops).status == Approved
    {
      ApprovalStays(r, ops, k, |ops|);
      assert ops[..|ops|] == ops;
    }
  }

  /** Approved in any mode but OBSERVE, an action is applied in any mode at all. */
  lemma ApprovedThenApplied(r: Remedy, approving: Mode, executing: Mode, works: bool) returns (ops: seq<Op>)
    requires Newborn(r) && approving != Observe
    ensures |ops| == 2 && ops[0].Approve? && ops[0].situation.mode == approving
    ensures ops[1] == Execute(executing, true, true, works)
    ensures PerformAll(r, ops).status == if works then Verifying else Failed
    ensures PerformAll(r, ops).executions == [Execution(Apply, 1, works, None)]
  {
    var s := Situation(approving, Some(ActionSpec(true, Engineer)), true, L.Investigating, Some(Low), None);
    var a, e := Approve(s, "ic", IncidentCommander), Execute(executing, true, true, works);
    ops := [a, e];
    assert [a, e][..1] == [a] && [a][..0] == [];
    assert PerformAll(r, []) == r;
    assert PerformAll(r, [a]) == Perform(r, a);
    assert PerformAll(r, [a, e]) == Perform(Perform(r, a), e);
  }

  /** So an action approved before the mode became OBSERVE is still applied in it. */
  lemma ObserveAfterApprovalApplies(r: Remedy, approving: Mode)
    requires Newborn(r) && approving != Observe
    ensures exists ops :: |PerformAll(r, ops).executions| == 1
              && forall op: Op :: op in ops && op.Execute? ==> op.mode == Observe
  {
    var ops := ApprovedThenApplied(r, approving, Observe, true);
  }

  /** The mode is `m` whenever policy is evaluated and whenever execution is asked for. */
  predicate Throughout(ops: seq<Op>, m: Mode) {
    forall op: Op :: op in ops ==> (op.Approve? ==> op.situation.mode == m) && (op.Execute? ==> op.mode == m)
  }

  /** The modes in which nothing is ever applied: OBSERVE alone. RECOMMEND, announced as advisory, is not one. */
  lemma NeverAppliesIffObserve(m: Mode)
    ensures (forall r, ops :: Newborn(r) && Throughout(ops, m) ==> PerformAll(r, ops).executions == []) <==> m == Observe
  {
    if m == Observe {
      forall r, ops | Newborn(r) && Throughout(ops, m)
        ensures PerformAll(r, ops).executions == []
      {
        ObserveNeverApplies(r, ops);
      }
    } else {
      var r := Remedy(AwaitingApproval, [], []);
      var ops := ApprovedThenApplied(r, m, m, true);
      assert Throughout(ops, m) && PerformAll(r, ops).executions != [];
    }
  }

  // ----- what a rollback reverts -------------------------------------------------------------

  /** A report is on record only for an apply that worked; once such an action has failed, there is one. */
  predicate Reported(r: Remedy) {
    r.executions != [] ==>
      && (r.executions[0].verified.Some? ==> r.executions[0].ok)
      && (r.status == Failed && r.executions[0].ok ==> r.executions[0].verified.Some?)
  }

  lemma {:induction false} AnnotateFirst(es: seq<Execution>, report: Report)
    requires es != [] && forall i :: 0 <= i < |es| ==> (es[i].kind == Apply <==> i == 0)
    ensures |Annotate(es, report)| == |es| && Annotate(es, report)[0] == es[0].(verified := Some(report))
    decreases |es|
  {
    if |es| > 1 {
      AnnotateFirst(es[..|es| - 1], report);
    }
  }

  lemma {:induction false} RunReported(r: Remedy, ops: seq<Op>)
    requires Newborn(r)
    ensures Reported(PerformAll(r, ops))
    decreases |ops|
  {
    if ops != [] {
      var front, op := ops[..|ops| - 1], ops[|ops| - 1];
      RunReported(r, front);
      RunOrderly(r, front);
      PerformReported(PerformAll(r, front), op);
    }
  }

  lemma PerformReported(r: Remedy, op: Op)
    requires Orderly(r) && Reported(r)
    ensures Reported(Perform(r, op))
  {
    if op.Verify? && Accepts(r, op) {
      var success := AllPass(op.checks, op.compareBaseline);
      AnnotateFirst(r.executions, Report(PassCount(op.checks, op.compareBaseline), |op.checks|, success));
    }
  }

  /**
   After any run an accepted rollback follows an apply that worked exactly if the action is not FAILED, or failed
   in a verification, whose report is then on record. Otherwise the apply itself had raised, and a rollback
   that works reverts what was not applied.
   */
  lemma RevertsAnApplyIff(r: Remedy, ops: seq<Op>, op: Op)
    requires Newborn(r) && op.Rollback? && Accepts(PerformAll(r, ops), op)
    ensures
      var before := PerformAll(r, ops);
      && before.executions != [] && before.executions[0].kind == Apply
      && Perform(before, op).executions[0] == before.executions[0]
      && (before.executions[0].ok <==> before.status != Failed || before.executions[0].verified.Some?)
  {
    RunOrderly(r, ops);
    RunReported(r, ops);
  }

  /** An apply that raised, rolled back with success. */
  lemma FailedApplyIsReverted(r: Remedy) returns (ops: seq<Op>)
    requires Newborn(r)
    ensures
      var after := PerformAll(r, ops);
      after.status == RolledBack && |after.executions| == 2 && !after.executions[0].ok
  {
    var front := ApprovedThenApplied(r, Mode.ApprovalRequired, Mode.ApprovalRequired, false);
    ops := front + [Rollback(true, true, true)];
    assert ops[..|ops| - 1] == front;
  }

  /** A rejection that was accepted ends the action: nothing is accepted after it and nothing changes any more. */
  lemma RejectionIsFinal(r: Remedy, ops: seq<Op>, k: nat)
    requires k < |ops| && ops[k].Reject? && Accepts(PerformAll(r, ops[..k]), ops[k])
    ensures forall j :: k < j < |ops| ==> !Accepts(PerformAll(r, ops[..j]), ops[j])
    ensures PerformAll(r, ops).status == Rejected
    ensures PerformAll(r, ops).executions == PerformAll(r, ops[..k]).executions
    ensures PerformAll(r, ops).approvals
         == PerformAll(r, ops[..k]).approvals + [Approval(false, ops[k].actor, ops[k].role)]
  {
    forall j | k < j < |ops|
      ensures !Accepts(PerformAll(r, ops[..j]), ops[j])
    {
      RejectedRefuses(r, ops, k, j);
    }
    RejectedStays(r, ops, k, |ops|);
    assert ops[..|ops|] == ops;
  }

  lemma RejectedRefuses(r: Remedy, ops: seq<Op>, k: nat, j: nat)
    requires k < j < |ops| && ops[k].Reject? && Accepts(PerformAll(r, ops[..k]), ops[k])
    ensures !Accepts(PerformAll(r, ops[..j]), ops[j])
  {
    RejectedStays(r, ops, k, j);
    assert Perform(PerformAll(r, ops[..k]), ops[k]).status == Rejected;
  }

  lemma {:induction false} RejectedStays(r: Remedy, ops: seq<Op>, k: nat, j: nat)
    requires k < j <= |ops| && ops[k].Reject? && Accepts(PerformAll(r, ops[..k]), ops[k])
    ensures PerformAll(r, ops[..j]) == Perform(PerformAll(r, ops[..k]), ops[k])
    decreases j
  {
    assert ops[..j][..j - 1] == ops[..j - 1];
    if j > k + 1 {
      RejectedStays(r, ops, k, j - 1);
    }
  }

  /** REJECTED and ROLLED_BACK are final, whatever is attempted. */
  lemma {:induction false} FinalStatuses(r: Remedy, ops: seq<Op>)
    requires r.status in {Rejected, RolledBack}
    ensures PerformAll(r, ops) == r
    decreases |ops|
  {
    if ops != [] {
      FinalStatuses(r, ops[..|ops| - 1]);
    }
  }

  /** SUCCEEDED is reached only through a verification with a non-empty check list that passed entirely. */
  lemma {:induction false} SuccessWasVerified(r: Remedy, ops: seq<Op>)
    requires Newborn(r) && PerformAll(r, ops).status == Succeeded
    ensures exists k :: 0 <= k < |ops| && ops[k].Verify? && AllPass(ops[k].checks, ops[k].compareBaseline)
              && PerformAll(r, ops[..k]).status == Verifying
    decreases |ops|
  {
    var front, op := ops[..|ops| - 1], ops[|ops| - 1];
    if PerformAll(r, front).status == Succeeded {
      SuccessWasVerified(r, front);
      var k :| 0 <= k < |front| && front[k].Verify? && AllPass(front[k].checks, front[k].compareBaseline)
              && PerformAll(r, front[..k]).status == Verifying;
      assert ops[..k] == front[..k] && ops[k] == front[k];
    } else {
      RunOrderly(r, front);
      assert ops[..|ops| - 1] == front;
    }
  }
}
