/** The incident state machine of the incident engine: transitions, time stamps and timeline. */
module Lifecycle {
  import opened Wrappers

  datatype Status = Detected | Investigating | Acknowledged | Mitigating | Resolved | Closed

  /** INCIDENT_TRANSITIONS. */
  function Allowed(s: Status): set<Status> {
    match s
    case Detected => {Investigating, Acknowledged, Resolved, Closed}
    case Investigating => {Acknowledged, Mitigating, Resolved, Closed}
    case Acknowledged => {Investigating, Mitigating, Resolved, Closed}
    case Mitigating => {Investigating, Resolved, Closed}
    case Resolved => {Closed, Investigating}
    case Closed => {}
  }

  /** OPEN_INCIDENT_STATUSES. */
  predicate Open(s: Status) { s in {Detected, Investigating, Acknowledged, Mitigating} }

  /** A `status_changed` event. */
  datatype Change = Change(from: Status, to: Status, at: int)

  /** The fields of an incident row that the state machine writes. */
  datatype Life = Life(
    status: Status,
    acknowledgedAt: Option<int>, acknowledgedBy: Option<string>, mitigatedAt: Option<int>,
    resolvedAt: Option<int>, resolvedBy: Option<string>, closedAt: Option<int>,
    timeline: seq<Change>)

  const BORN := Life(Detected, None, None, None, None, None, None, [])

  /** The stamp kept for entering `s`; only four statuses have one. */
  function StampOf(life: Life, s: Status): Option<int> {
    match s
    case Acknowledged => life.acknowledgedAt
    case Mitigating => life.mitigatedAt
    case Resolved => life.resolvedAt
    case Closed => life.closedAt
    case _ => None
  }

  function Once(stamp: Option<int>, now: int): Option<int> { if stamp.Some? then stamp else Some(now) }

  function By(stamp: Option<int>, who: Option<string>, actor: string): Option<string> {
    if stamp.Some? then who else Some(actor)
  }

  /** An allowed move: `now` is the stamp's clock reading, `at` the later one taken by the timeline event. */
  function Moved(life: Life, to: Status, now: int, at: int, actor: string): Life {
    var moved := life.(status := to, timeline := life.timeline + [Change(life.status, to, at)]);
    match to
    case Acknowledged =>
      moved.(acknowledgedAt := Once(life.acknowledgedAt, now),
             acknowledgedBy := By(life.acknowledgedAt, life.acknowledgedBy, actor))
    case Mitigating => moved.(mitigatedAt := Once(life.mitigatedAt, now))
    case Resolved =>
      moved.(resolvedAt := Once(life.resolvedAt, now), resolvedBy := By(life.resolvedAt, life.resolvedBy, actor))
    case Closed => moved.(closedAt := Once(life.closedAt, now))
    case _ => moved
  }

  /** `transition`: no-op on the current status, refused outside the table. */
  function AfterTransition(life: Life, to: Status, now: int, at: int, actor: string): Life {
    if to != life.status && to in Allowed(life.status) then Moved(life, to, now, at, actor) else life
  }

  predicate Refused(life: Life, to: Status) { to != life.status && to !in Allowed(life.status) }

  // ----- invariant -------------------------------------------------------------------------

  /** Replaying the timeline: the status it leads to from DETECTED. */
  function Replay(timeline: seq<Change>): Status {
    if timeline == [] then Detected else timeline[|timeline| - 1].to
  }

  /** Consecutive events chain from DETECTED, and each step is in the table. */
  predicate Chained(timeline: seq<Change>) {
    forall i :: 0 <= i < |timeline| ==>
      timeline[i].from == Replay(timeline[..i]) && timeline[i].to in Allowed(timeline[i].from)
  }

  ghost predicate FirstEntry(timeline: seq<Change>, s: Status, i: nat) {
    i < |timeline| && timeline[i].to == s && forall k :: 0 <= k < i ==> timeline[k].to != s
  }

  /** The stamp is the time of the first event entering `s`, up to `delta`, and absent before any. */
  ghost predicate Stamped(timeline: seq<Change>, s: Status, stamp: Option<int>, delta: nat) {
    match stamp
    case None => forall i :: 0 <= i < |timeline| ==> timeline[i].to != s
    case Some(t) => exists i: nat :: FirstEntry(timeline, s, i) && timeline[i].at - delta <= t <= timeline[i].at
  }

  ghost predicate Sound(life: Life, delta: nat) {
    && life.status == Replay(life.timeline) && Chained(life.timeline)
    && forall s :: s in {Acknowledged, Mitigating, Resolved, Closed} ==>
         Stamped(life.timeline, s, StampOf(life, s), delta)
  }

  lemma StampedGrows(timeline: seq<Change>, ch: Change, s: Status, stamp: Option<int>, now: int, delta: nat)
    requires Stamped(timeline, s, stamp, delta) && ch.at - delta <= now <= ch.at
    ensures Stamped(timeline + [ch], s, if ch.to == s then Once(stamp, now) else stamp, delta)
  {
    var longer := timeline + [ch];
    if stamp.Some? {
      var i: nat :| FirstEntry(timeline, s, i) && timeline[i].at - delta <= stamp.value <= timeline[i].at;
      assert FirstEntry(longer, s, i);
    } else if ch.to == s {
      assert FirstEntry(longer, s, |timeline|);
    }
  }

  lemma MoveKeepsSound(life: Life, to: Status, now: int, at: int, actor: string, delta: nat)
    requires Sound(life, delta) && to in Allowed(life.status) && at - delta <= now <= at
    ensures Sound(Moved(life, to, now, at, actor), delta)
  {
    var ch, life' := Change(life.status, to, at), Moved(life, to, now, at, actor);
    assert life'.timeline == life.timeline + [ch];
    assert forall i :: 0 <= i <= |life.timeline| ==> life'.timeline[..i] == life.timeline[..i];
    forall s | s in {Acknowledged, Mitigating, Resolved, Closed}
      ensures Stamped(life'.timeline, s, StampOf(life', s), delta)
    {
      StampedGrows(life.timeline, ch, s, StampOf(life, s), now, delta);
    }
  }

  // ----- runs ------------------------------------------------------------------------------

  /** A request to `transition`, with the two clock readings it takes. */
  datatype Request = Request(to: Status, now: int, at: int, actor: string)

  function AfterAll(life: Life, rs: seq<Request>): Life {
    if rs == [] then life
    else
      var prior := AfterAll(life, rs[..|rs| - 1]);
      var r := rs[|rs| - 1];
      AfterTransition(prior, r.to, r.now, r.at, r.actor)
  }

  /**
   Over every run of transition requests: the timeline replays to the status, chains, stays in the table,
   and every stamp is that of the first entry. With the clock read once (`delta` 0) stamp and event agree.
   */
  lemma {:induction false} RunsAreSound(rs: seq<Request>, delta: nat)
    requires forall r :: r in rs ==> r.at - delta <= r.now <= r.at
    ensures Sound(AfterAll(BORN, rs), delta)
  {
    if rs != [] {
      RunsAreSound(rs[..|rs| - 1], delta);
      var prior, r := AfterAll(BORN, rs[..|rs| - 1]), rs[|rs| - 1];
      assert r in rs;
      if r.to in Allowed(prior.status) {
        MoveKeepsSound(prior, r.to, r.now, r.at, r.actor, delta);
      }
    }
  }

  /** A stamp once set never changes, events are never rewritten, and CLOSED is absorbing. */
  lemma {:induction false} HistoryIsFinal(life: Life, rs: seq<Request>)
    ensures life.timeline <= AfterAll(life, rs).timeline
    ensures forall s :: StampOf(life, s).Some? ==> StampOf(AfterAll(life, rs), s) == StampOf(life, s)
    ensures life.acknowledgedAt.Some? ==> AfterAll(life, rs).acknowledgedBy == life.acknowledgedBy
    ensures life.resolvedAt.Some? ==> AfterAll(life, rs).resolvedBy == life.resolvedBy
    ensures life.status == Closed ==> AfterAll(life, rs) == life
  {
    if rs != [] {
      HistoryIsFinal(life, rs[..|rs| - 1]);
      var prior := AfterAll(life, rs[..|rs| - 1]);
      assert life.acknowledgedAt.Some? ==> StampOf(prior, Acknowledged) == StampOf(life, Acknowledged);
      assert life.resolvedAt.Some? ==> StampOf(prior, Resolved) == StampOf(life, Resolved);
    }
  }

  // ----- the operations the engine offers --------------------------------------------------

  predicate Space(c: char) { c in {' ', '\n', '\t', '\r'} }

  function StripLeft(s: string): string { if s != "" && Space(s[0]) then StripLeft(s[1..]) else s }

  function StripRight(s: string): string {
    if s != "" && Space(s[|s| - 1]) then StripRight(s[..|s| - 1]) else s
  }

  function Noted(summary: string, resolution: string): string {
    StripRight(StripLeft(summary + "\n\nResolution: " + resolution))
  }

  /** Neither empty nor with white space at either end. */
  predicate Trimmed(s: string) { s != "" && !Space(s[0]) && !Space(s[|s| - 1]) }

  lemma NotedAppends(summary: string, resolution: string)
    requires Trimmed(summary) && Trimmed(resolution)
    ensures Noted(summary, resolution) == summary + "\n\nResolution: " + resolution
  {
    var text := summary + "\n\nResolution: " + resolution;
    assert text[0] == summary[0] && text[|text| - 1] == resolution[|resolution| - 1];
  }

  /** Root cause and summary after `resolve`, whether or not its transition is refused. */
  function TextAfterResolve(rootCause: string, summary: string, resolution: string, cause: string): (string, string) {
    (if cause != "" then cause else rootCause, if resolution != "" then Noted(summary, resolution) else summary)
  }

  class Incident {
    var status: Status
    var acknowledgedAt: Option<int>
    var acknowledgedBy: Option<string>
    var mitigatedAt: Option<int>
    var resolvedAt: Option<int>
    var resolvedBy: Option<string>
    var closedAt: Option<int>
    var timeline: seq<Change>
    var rootCause: string
    var summary: string

    function ToLife(): Life
      reads this
    {
      Life(status, acknowledgedAt, acknowledgedBy, mitigatedAt, resolvedAt, resolvedBy, closedAt, timeline)
    }

    constructor (summary: string)
      ensures ToLife() == BORN && this.summary == summary && rootCause == ""
    {
      status, acknowledgedAt, acknowledgedBy, mitigatedAt := Detected, None, None, None;
      resolvedAt, resolvedBy, closedAt := None, None, None;
      timeline, rootCause, this.summary := [], "", summary;
    }

    /**
     `transition`: status by status where it may be entered from, which stamps are set then and only the first
     time, and the event recorded. False stands for StateTransitionError.
     */
    method Transition(to: Status, now: int, at: int, actor: string) returns (ok: bool)
      modifies this
      ensures ok <==>
        || to == old(status) || to == Closed || (to == Resolved && old(status) != Closed)
        || (to == Investigating && old(status) in {Detected, Acknowledged, Mitigating, Resolved})
        || (to == Acknowledged && old(status) in {Detected, Investigating})
        || (to == Mitigating && old(status) in {Investigating, Acknowledged})
      ensures timeline == old(timeline) + if ok && to != old(status) then [Change(old(status), to, at)] else []
      ensures var first := ok && to == Acknowledged && old(status) != to && old(acknowledgedAt).None?;
        && acknowledgedAt == (if first then Some(now) else old(acknowledgedAt))
        && acknowledgedBy == (if first then Some(actor) else old(acknowledgedBy))
      ensures mitigatedAt == if ok && to == Mitigating && old(status) != to && old(mitigatedAt).None? then Some(now)
                             else old(mitigatedAt)
      ensures var first := ok && to == Resolved && old(status) != to && old(resolvedAt).None?;
        && resolvedAt == (if first then Some(now) else old(resolvedAt))
        && resolvedBy == (if first then Some(actor) else old(resolvedBy))
      ensures closedAt == if ok && to == Closed && old(status) != to && old(closedAt).None? then Some(now) else old(closedAt)
      ensures ok <==> !Refused(old(ToLife()), to)
      ensures ToLife() == AfterTransition(old(ToLife()), to, now, at, actor)
      ensures !ok ==> ToLife() == old(ToLife())
      ensures ok ==> status == to
      ensures rootCause == old(rootCause) && summary == old(summary)
    {
      var current := status;
      if to == current {
        return true;
      }
      if to !in Allowed(current) {
        return false;
      }
      status := to;
      if to == Acknowledged && acknowledgedAt.None? {
        acknowledgedAt := Some(now);
        acknowledgedBy := Some(actor);
      }
      if to == Mitigating && mitigatedAt.None? {
        mitigatedAt := Some(now);
      }
      if to == Resolved && resolvedAt.None? {
        resolvedAt := Some(now);
        resolvedBy := Some(actor);
      }
      if to == Closed && closedAt.None? {
        closedAt := Some(now);
      }
      timeline := timeline + [Change(current, to, at)];
      return true;
    }

    method Acknowledge(now: int, at: int, actor: string) returns (ok: bool)
      modifies this
      ensures ToLife() == Perform(old(ToLife()), Op.Acknowledge(actor), now, at)
      ensures ok <==> old(status) in {Detected, Investigating, Acknowledged}
      ensures status == if ok then Status.Acknowledged else old(status)
    {
      ok := Transition(Acknowledged, now, at, actor);
    }

    method StartInvestigation(now: int, at: int)
      modifies this
      ensures ToLife() == Perform(old(ToLife()), Op.StartInvestigation, now, at)
      ensures status == if old(status) == Detected then Investigating else old(status)
    {
      if status == Detected {
        var _ := Transition(Investigating, now, at, "ai:investigator");
      }
    }

    /** What `execute` does to the incident of a remediation; a refusal is swallowed there. */
    method StartMitigation(now: int, at: int, actor: string)
      modifies this
      ensures ToLife() == Perform(old(ToLife()), Op.StartMitigation(actor), now, at)
      ensures status == if old(status) in {Investigating, Acknowledged} then Mitigating else old(status)
    {
      if status !in {Mitigating, Resolved, Closed} {
        var _ := Transition(Mitigating, now, at, actor);
      }
    }

    /** Root cause and summary are written before the transition that may be refused. */
    method Resolve(now: int, at: int, actor: string, resolution: string, cause: string) returns (ok: bool)
      modifies this
      ensures ToLife() == Perform(old(ToLife()), Op.Resolve(actor), now, at)
      ensures ok <==> old(status) != Closed
      ensures status == if ok then Resolved else Closed
      ensures rootCause == if cause == "" then old(rootCause) else cause
      ensures resolution == "" ==> summary == old(summary)
      ensures resolution != "" && Trimmed(old(summary)) && Trimmed(resolution) ==>
                summary == old(summary) + "\n\nResolution: " + resolution
      ensures (rootCause, summary) == TextAfterResolve(old(rootCause), old(summary), resolution, cause)
    {
      if cause != "" {
        rootCause := cause;
      }
      if resolution != "" {
        if Trimmed(summary) && Trimmed(resolution) {
          NotedAppends(summary, resolution);
        }
        summary := Noted(summary, resolution);
      }
      ok := Transition(Resolved, now, at, actor);
    }

    method Close(now: int, at: int, actor: string) returns (ok: bool)
      modifies this
      ensures ToLife() == Perform(old(ToLife()), Op.Close(actor), now, at)
      ensures ok && status == Closed
    {
      ok := Transition(Closed, now, at, actor);
    }
  }

  datatype Op = Acknowledge(actor: string) | StartInvestigation | StartMitigation(actor: string)
              | Resolve(actor: string) | Close(actor: string)

  function Perform(life: Life, op: Op, now: int, at: int): Life {
    match op
    case Acknowledge(actor) => AfterTransition(life, Acknowledged, now, at, actor)
    case StartInvestigation =>
      if life.status == Detected then AfterTransition(life, Investigating, now, at, "ai:investigator") else life
    case StartMitigation(actor) =>
      if life.status in {Mitigating, Resolved, Closed} then life
      else AfterTransition(life, Mitigating, now, at, actor)
    case Resolve(actor) => AfterTransition(life, Resolved, now, at, actor)
    case Close(actor) => AfterTransition(life, Closed, now, at, actor)
  }

  /**
   The table allows RESOLVED -> INVESTIGATING, but no operation of the engine takes it: an incident that
   is no longer open never becomes open again.
   */
  lemma NeverReopened(life: Life, op: Op, now: int, at: int)
    ensures Open(Perform(life, op, now, at).status) ==> Open(life.status)
    ensures Perform(life, op, now, at) == life
         || exists r: Request :: Perform(life, op, now, at) == AfterAll(life, [r])
  {
    var to := match op
      case Acknowledge(_) => Acknowledged
      case StartInvestigation => Investigating
      case StartMitigation(_) => Mitigating
      case Resolve(_) => Resolved
      case Close(_) => Closed;
    var r := Request(to, now, at, if op.StartInvestigation? then "ai:investigator" else op.actor);
    assert [r][..0] == [];
    assert AfterAll(life, [r]) == AfterTransition(life, r.to, r.now, r.at, r.actor);
  }

  // ----- a refused resolve is not always without effect -------------------------------------

  lemma {:induction false} StripRightKeeps(s: string, i: nat)
    requires i < |s| && !Space(s[i])
    ensures i < |StripRight(s)| && StripRight(s) <= s
    decreases |s|
  {
    if Space(s[|s| - 1]) {
      StripRightKeeps(s[..|s| - 1], i);
    }
  }

  lemma {:induction false} StripLeftKeeps(s: string, i: nat)
    requires i < |s| && !Space(s[i])
    ensures StripLeft(s) != "" && !Space(StripLeft(s)[0]) && !Space(s[0]) ==> StripLeft(s) == s
    ensures StripLeft(s) != "" && !Space(StripLeft(s)[0])
    decreases |s|
  {
    if Space(s[0]) {
      StripLeftKeeps(s[1..], i - 1);
    }
  }

  /** Appending a resolution always changes the summary. */
  lemma NotedDiffers(summary: string, resolution: string)
    ensures Noted(summary, resolution) != summary
  {
    var heading := "\n\nResolution: ";
    var text := summary + heading + resolution;
    assert text[|summary| + 2] == 'R' && text[|summary| + 12] == ':';
    StripLeftKeeps(text, |summary| + 2);
    var left := StripLeft(text);
    StripRightKeeps(left, 0);
    if summary != "" && !Space(summary[0]) {
      assert text[0] == summary[0];
      StripRightKeeps(text, |summary| + 12);
    }
  }

  /**
   A refused `resolve` (the incident is CLOSED) leaves the incident as it was exactly when no resolution
   text is given and the cause given is empty or the one already recorded.
   */
  lemma RefusedResolveUnchangedIff(rootCause: string, summary: string, resolution: string, cause: string)
    ensures TextAfterResolve(rootCause, summary, resolution, cause) == (rootCause, summary)
       <==> resolution == "" && (cause == "" || cause == rootCause)
  {
    NotedDiffers(summary, resolution);
  }
}
