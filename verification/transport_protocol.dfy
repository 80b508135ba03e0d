/**
 The SDK transport as a step system: any number of submitting and flushing threads and one worker
 share a bounded queue, a pending counter and a stop flag. Every step is one action that the source
 performs atomically; the increment in `submit` and its enqueue are two steps, as are the worker's
 get, deliver and resolve, and the unlocked `dropped_full += 1` is a load followed by a store.
 */
module TransportProtocol {
  import opened Collections
  import opened Numbers
  import opened Wrappers

  type Tid = nat
  type Event = string

  /** The constructor arguments that matter; `maxQueue <= 0` means unbounded, as in queue.Queue. */
  datatype Config = Config(maxQueue: int, batchSize: int, maxRetries: int, backoffBase: real, backoffCap: real)

  datatype Outcome = Sent | Rejected | Failed

  /** A batch that has been counted in the statistics, with the number of sends and the requested waiting. */
  datatype Batch = Batch(events: seq<Event>, outcome: Outcome, sends: nat, waited: real)

  datatype Stats = Stats(sent: nat, droppedFull: int, droppedRejected: nat, droppedFailed: nat, retries: nat)

  datatype Worker =
    | AtTop
    | Getting
    | Filling(batch: seq<Event>)
    | Sending(batch: seq<Event>, attempt: nat, waited: real)
    | Waiting(batch: seq<Event>, attempt: nat, waited: real, wait: real)
    | Resolving(size: nat)
    | Exited

  /**
   `entering`: threads between the increment and the enqueue. `bounced`: threads that saw a full queue
   and have not decremented yet. `tallying` and `loaded`: threads about to load, or about to store, the
   drop counter. `flushing`: threads inside `flush`. `accepted`, `finished` and `drops` are history.
   */
  datatype State = State(
    queue: seq<Event>, pending: int, stop: bool, worker: Worker, stats: Stats,
    entering: map<Tid, Event>, bounced: set<Tid>, tallying: set<Tid>, loaded: map<Tid, int>,
    flushing: set<Tid>,
    accepted: seq<Event>, finished: seq<Batch>, drops: nat)

  datatype Label =
    | BeginSubmit(t: Tid, e: Event) | Put(t: Tid) | Bounce(t: Tid) | Unpend(t: Tid)
    | TallyLoad(t: Tid) | TallyStore(t: Tid)
    | BeginFlush(t: Tid) | FlushTrue(t: Tid) | FlushFalse(t: Tid) | SetStop
    | Top | Get | GetTimeout | Fill | Encode(ok: bool)
    | Reply(status: int, retryAfter: Option<real>, jitter: real) | Wake | Resolve

  const INIT := State([], 0, false, AtTop, Stats(0, 0, 0, 0, 0), map[], {}, {}, map[], {}, [], [], 0)

  // ----- the retry rule ------------------------------------------------------------------

  function Pow2(n: nat): nat { if n == 0 then 1 else 2 * Pow2(n - 1) }

  /** A send that raised is reported as status 0. */
  predicate Retryable(status: int) { status in {0, 408, 429, 500, 502, 503, 504} }

  predicate Accepting(status: int) { 200 <= status < 300 }

  function Ceiling(c: Config, attempt: nat): real { MinReal(c.backoffCap, c.backoffBase * Pow2(attempt) as real) }

  /** random.uniform(top / 2, top), with `jitter` the random draw from [0, 1]. */
  function Jittered(top: real, jitter: real): real { top / 2.0 + (top - top / 2.0) * jitter }

  /** Seconds slept before the next attempt; Event.wait returns at once for a negative timeout. */
  function WaitFor(c: Config, attempt: nat, status: int, retryAfter: Option<real>, jitter: real): real {
    var asked := if status in {429, 503} then retryAfter else None;
    var wait :=
      if asked.Some? then asked.value
      else Jittered(Ceiling(c, attempt), jitter);
    MaxReal(0.0, MinReal(wait, c.backoffCap))
  }

  // ----- steps ---------------------------------------------------------------------------

  predicate Full(c: Config, s: State) { 0 < c.maxQueue <= |s.queue| }

  predicate Idle(s: State, t: Tid) {
    t !in s.entering && t !in s.bounced && t !in s.tallying && t !in s.loaded && t !in s.flushing
  }

  /** The events held by the worker, not yet counted in any statistic. */
  function InFlight(w: Worker): seq<Event> {
    if w.Filling? || w.Sending? || w.Waiting? then w.batch else []
  }

  /** Events that are counted but still included in `_pending`. */
  function Unresolved(w: Worker): nat { if w.Resolving? then w.size else 0 }

  predicate Enabled(c: Config, s: State, l: Label) {
    match l
    case BeginSubmit(t, _) => Idle(s, t)
    case Put(t) => t in s.entering && !Full(c, s)
    case Bounce(t) => t in s.entering && Full(c, s)
    case Unpend(t) => t in s.bounced
    case TallyLoad(t) => t in s.tallying
    case TallyStore(t) => t in s.loaded
    case BeginFlush(t) => Idle(s, t)
    case FlushTrue(t) => t in s.flushing && s.pending <= 0
    case FlushFalse(t) => t in s.flushing && s.pending > 0
    case SetStop => true
    case Top => s.worker.AtTop?
    case Get => s.worker.Getting? && s.queue != []
    case GetTimeout => s.worker.Getting? && s.queue == []
    case Fill => s.worker.Filling? && |s.worker.batch| < c.batchSize && s.queue != []
    case Encode(_) => s.worker.Filling? && (|s.worker.batch| >= c.batchSize || s.queue == [])
    case Reply(_, _, jitter) => s.worker.Sending? && 0.0 <= jitter <= 1.0
    case Wake => s.worker.Waiting?
    case Resolve => s.worker.Resolving?
  }

  function Count(st: Stats, o: Outcome, n: nat): Stats {
    match o
    case Sent => st.(sent := st.sent + n)
    case Rejected => st.(droppedRejected := st.droppedRejected + n)
    case Failed => st.(droppedFailed := st.droppedFailed + n)
  }

  /** The batch gets its outcome: counted once, and handed to `_resolve`. */
  function Finish(s: State, o: Outcome, sends: nat, waited: real): State {
    var batch := InFlight(s.worker);
    s.(worker := Resolving(|batch|), stats := Count(s.stats, o, |batch|),
       finished := s.finished + [Batch(batch, o, sends, waited)])
  }

  function AfterReply(c: Config, s: State, status: int, retryAfter: Option<real>, jitter: real): State
    requires s.worker.Sending?
  {
    var w := s.worker;
    if Accepting(status) then Finish(s, Sent, w.attempt + 1, w.waited)
    else if Retryable(status) then
      if w.attempt >= c.maxRetries then Finish(s, Failed, w.attempt + 1, w.waited)
      else
        s.(worker := Waiting(w.batch, w.attempt, w.waited, WaitFor(c, w.attempt, status, retryAfter, jitter)),
           stats := s.stats.(retries := s.stats.retries + 1))
    else Finish(s, Rejected, w.attempt + 1, w.waited)
  }

  function Next(c: Config, s: State, l: Label): State
    requires Enabled(c, s, l)
  {
    match l
    case BeginSubmit(t, e) => s.(pending := s.pending + 1, entering := s.entering[t := e])
    case Put(t) =>
      s.(queue := s.queue + [s.entering[t]], accepted := s.accepted + [s.entering[t]], entering := s.entering - {t})
    case Bounce(t) => s.(entering := s.entering - {t}, bounced := s.bounced + {t})
    case Unpend(t) => s.(pending := s.pending - 1, bounced := s.bounced - {t}, tallying := s.tallying + {t})
    case TallyLoad(t) => s.(tallying := s.tallying - {t}, loaded := s.loaded[t := s.stats.droppedFull])
    case TallyStore(t) =>
      s.(stats := s.stats.(droppedFull := s.loaded[t] + 1), loaded := s.loaded - {t}, drops := s.drops + 1)
    case BeginFlush(t) => s.(flushing := s.flushing + {t})
    case FlushTrue(t) => s.(flushing := s.flushing - {t})
    case FlushFalse(t) => s.(flushing := s.flushing - {t})
    case SetStop => s.(stop := true)
    case Top => s.(worker := if s.stop then Exited else Getting)
    case Get => s.(worker := Filling([s.queue[0]]), queue := s.queue[1..])
    case GetTimeout => s.(worker := AtTop)
    case Fill => s.(worker := Filling(s.worker.batch + [s.queue[0]]), queue := s.queue[1..])
    case Encode(ok) =>
      if ok && 0 <= c.maxRetries then s.(worker := Sending(s.worker.batch, 0, 0.0))
      else Finish(s, Failed, 0, 0.0)
    case Reply(status, retryAfter, jitter) => AfterReply(c, s, status, retryAfter, jitter)
    case Wake =>
      var w := s.worker;
      if s.stop then Finish(s, Failed, w.attempt + 1, w.waited + w.wait)
      else s.(worker := Sending(w.batch, w.attempt + 1, w.waited + w.wait))
    case Resolve => s.(worker := AtTop, pending := s.pending - s.worker.size)
  }

  /** Every label of `ls` is enabled when its turn comes. */
  predicate CanRun(c: Config, s: State, ls: seq<Label>)
    decreases |ls|
  {
    ls == [] || (Enabled(c, s, ls[0]) && CanRun(c, Next(c, s, ls[0]), ls[1..]))
  }

  function Run(c: Config, s: State, ls: seq<Label>): State
    requires CanRun(c, s, ls)
    decreases |ls|
  {
    if ls == [] then s else Run(c, Next(c, s, ls[0]), ls[1..])
  }

  // ----- invariant -----------------------------------------------------------------------

  function Flatten(bs: seq<Batch>): seq<Event> {
    if bs == [] then [] else Flatten(bs[..|bs| - 1]) + bs[|bs| - 1].events
  }

  /** The events of the batches that ended with outcome `o`, in order. */
  function Select(bs: seq<Batch>, o: Outcome): seq<Event> {
    if bs == [] then []
    else Select(bs[..|bs| - 1], o) + if bs[|bs| - 1].outcome == o then bs[|bs| - 1].events else []
  }

  /** `_pending` is what was accepted or announced and not yet resolved. */
  predicate Conserved(s: State) {
    s.pending == |s.entering| + |s.bounced| + |s.queue| + |InFlight(s.worker)| + Unresolved(s.worker)
  }

  /** Acceptance order: finished batches, then the batch in hand, then the queue. */
  predicate Ordered(s: State) {
    s.accepted == Flatten(s.finished) + InFlight(s.worker) + s.queue
  }

  /** Each outcome counter is exactly the number of events of the batches with that outcome. */
  predicate Counted(s: State) {
    && s.stats.sent == |Select(s.finished, Sent)|
    && s.stats.droppedRejected == |Select(s.finished, Rejected)|
    && s.stats.droppedFailed == |Select(s.finished, Failed)|
  }

  predicate BatchSized(c: Config, n: nat) { 1 <= n <= Max(1, c.batchSize) }

  predicate Bounded(c: Config, attempts: nat, waits: int, waited: real) {
    && attempts <= Max(0, c.maxRetries + 1)
    && 0.0 <= waited <= Max(0, waits) as real * MaxReal(0.0, c.backoffCap)
  }

  predicate FinishedBounded(c: Config, b: Batch) {
    BatchSized(c, |b.events|) && Bounded(c, b.sends, c.maxRetries, b.waited)
  }

  predicate WorkerBounded(c: Config, w: Worker) {
    match w
    case Filling(batch) => BatchSized(c, |batch|)
    case Sending(batch, attempt, waited) =>
      BatchSized(c, |batch|) && attempt <= c.maxRetries && Bounded(c, attempt, attempt, waited)
    case Waiting(batch, attempt, waited, wait) =>
      && BatchSized(c, |batch|) && attempt < c.maxRetries && Bounded(c, attempt, attempt, waited)
      && 0.0 <= wait <= MaxReal(0.0, c.backoffCap)
    case _ => true
  }

  predicate QueueBounded(c: Config, s: State) { 0 < c.maxQueue ==> |s.queue| <= c.maxQueue }

  /** Until stop is set, a batch is given up only after the last permitted attempt, or unencodable. */
  predicate Persistent(c: Config, s: State) {
    s.stop || forall b :: b in s.finished && b.outcome == Failed ==> b.sends == 0 || b.sends == c.maxRetries + 1
  }

  predicate DropsBounded(s: State) {
    s.stats.droppedFull <= s.drops && forall t :: t in s.loaded ==> s.loaded[t] <= s.drops
  }

  /** A thread is in at most one stage of `submit`. */
  predicate StagesApart(s: State) {
    && (forall t :: t in s.entering ==> t !in s.bounced && t !in s.tallying && t !in s.loaded)
    && (forall t :: t in s.bounced ==> t !in s.tallying && t !in s.loaded)
    && forall t :: t in s.tallying ==> t !in s.loaded
  }

  predicate AllFinishedBounded(c: Config, bs: seq<Batch>) {
    forall i :: 0 <= i < |bs| ==> FinishedBounded(c, bs[i])
  }

  predicate Inv(c: Config, s: State) {
    && Conserved(s) && StagesApart(s)
    && Ordered(s) && Counted(s)
    && QueueBounded(c, s) && WorkerBounded(c, s.worker) && AllFinishedBounded(c, s.finished)
    && Persistent(c, s) && DropsBounded(s)
  }

  // ----- preservation --------------------------------------------------------------------

  lemma WaitForBounded(c: Config, attempt: nat, status: int, retryAfter: Option<real>, jitter: real)
    ensures 0.0 <= WaitFor(c, attempt, status, retryAfter, jitter) <= MaxReal(0.0, c.backoffCap)
  {
  }

  lemma ConservedBySubmitter(c: Config, s: State, l: Label)
    requires Conserved(s) && StagesApart(s) && Enabled(c, s, l)
    requires l.BeginSubmit? || l.Put? || l.Bounce? || l.Unpend?
    ensures Conserved(Next(c, s, l))
  {
    if l.Put? || l.Bounce? {
      Shrinks(s.entering, l.t);
    }
  }

  lemma ConservedKept(c: Config, s: State, l: Label)
    requires Conserved(s) && StagesApart(s) && Enabled(c, s, l)
    ensures Conserved(Next(c, s, l))
  {
    if l.BeginSubmit? || l.Put? || l.Bounce? || l.Unpend? {
      ConservedBySubmitter(c, s, l);
    } else {
      assert Next(c, s, l).entering == s.entering && Next(c, s, l).bounced == s.bounced;
    }
  }

  predicate SubmitLabel(l: Label) {
    l.BeginSubmit? || l.Put? || l.Bounce? || l.Unpend? || l.TallyLoad? || l.TallyStore?
  }

  lemma StagesKeptBySubmitter(c: Config, s: State, l: Label)
    requires StagesApart(s) && Enabled(c, s, l) && SubmitLabel(l)
    ensures StagesApart(Next(c, s, l))
  {
  }

  lemma OthersLeaveStages(c: Config, s: State, l: Label)
    requires Enabled(c, s, l) && !SubmitLabel(l)
    ensures
      var s' := Next(c, s, l);
      && s'.entering == s.entering && s'.bounced == s.bounced && s'.tallying == s.tallying && s'.loaded == s.loaded
      && s'.drops == s.drops && s'.stats.droppedFull == s.stats.droppedFull
  {
  }

  lemma OthersLeaveTally(c: Config, s: State, l: Label)
    requires Enabled(c, s, l) && !l.TallyLoad? && !l.TallyStore?
    ensures
      var s' := Next(c, s, l);
      s'.loaded == s.loaded && s'.drops == s.drops && s'.stats.droppedFull == s.stats.droppedFull
  {
    if !SubmitLabel(l) {
      OthersLeaveStages(c, s, l);
    }
  }

  lemma StagesKept(c: Config, s: State, l: Label)
    requires StagesApart(s) && Enabled(c, s, l)
    ensures StagesApart(Next(c, s, l))
  {
    if SubmitLabel(l) {
      StagesKeptBySubmitter(c, s, l);
    } else {
      OthersLeaveStages(c, s, l);
    }
  }

  lemma FlattenAppend(bs: seq<Batch>, b: Batch)
    ensures Flatten(bs + [b]) == Flatten(bs) + b.events
    ensures forall o :: Select(bs + [b], o) == Select(bs, o) + if b.outcome == o then b.events else []
  {
    assert (bs + [b])[..|bs|] == bs;
  }

  lemma FinishKept(s: State, o: Outcome, sends: nat, waited: real)
    requires Ordered(s) && Counted(s)
    ensures Ordered(Finish(s, o, sends, waited)) && Counted(Finish(s, o, sends, waited))
  {
    FlattenAppend(s.finished, Batch(InFlight(s.worker), o, sends, waited));
  }

  lemma OrderedKept(c: Config, s: State, l: Label)
    requires Ordered(s) && Counted(s) && Enabled(c, s, l)
    ensures Ordered(Next(c, s, l)) && Counted(Next(c, s, l))
  {
    match l
    case Encode(_) => FinishKept(s, Failed, 0, 0.0);
    case Reply(status, retryAfter, jitter) => ReplyKept(c, s, status, retryAfter, jitter);
    case Wake => FinishKept(s, Failed, s.worker.attempt + 1, s.worker.waited + s.worker.wait);
    case _ =>
  }

  lemma ReplyKept(c: Config, s: State, status: int, retryAfter: Option<real>, jitter: real)
    requires Ordered(s) && Counted(s) && s.worker.Sending?
    ensures
      var s' := AfterReply(c, s, status, retryAfter, jitter);
      Ordered(s') && Counted(s')
  {
    var w := s.worker;
    if Accepting(status) {
      FinishKept(s, Sent, w.attempt + 1, w.waited);
    } else if !Retryable(status) {
      FinishKept(s, Rejected, w.attempt + 1, w.waited);
    } else if w.attempt >= c.maxRetries {
      FinishKept(s, Failed, w.attempt + 1, w.waited);
    }
  }

  lemma WaitedWeaken(n: nat, m: int, waited: real, cap: real)
    requires 0.0 <= waited <= n as real * cap && 0.0 <= cap && n <= m
    ensures waited <= m as real * cap
  {
    assert m as real * cap == n as real * cap + (m - n) as real * cap;
  }

  lemma NothingWaited(c: Config)
    ensures Bounded(c, 0, c.maxRetries, 0.0)
  {
    assert Max(0, c.maxRetries) as real >= 0.0 && MaxReal(0.0, c.backoffCap) >= 0.0;
  }

  lemma FinishBoundsKept(c: Config, s: State, o: Outcome, sends: nat, waited: real)
    requires BatchSized(c, |InFlight(s.worker)|) && AllFinishedBounded(c, s.finished)
    requires Bounded(c, sends, c.maxRetries, waited)
    ensures AllFinishedBounded(c, Finish(s, o, sends, waited).finished)
  {
  }

  lemma ReplyBoundsKept(c: Config, s: State, status: int, retryAfter: Option<real>, jitter: real)
    requires WorkerBounded(c, s.worker) && AllFinishedBounded(c, s.finished) && s.worker.Sending?
    ensures WorkerBounded(c, AfterReply(c, s, status, retryAfter, jitter).worker)
    ensures AllFinishedBounded(c, AfterReply(c, s, status, retryAfter, jitter).finished)
  {
    var w := s.worker;
    assert Bounded(c, w.attempt + 1, c.maxRetries, w.waited) by {
      WaitedWeaken(w.attempt, c.maxRetries, w.waited, MaxReal(0.0, c.backoffCap));
    }
    if Accepting(status) {
      FinishBoundsKept(c, s, Sent, w.attempt + 1, w.waited);
    } else if !Retryable(status) {
      FinishBoundsKept(c, s, Rejected, w.attempt + 1, w.waited);
    } else if w.attempt >= c.maxRetries {
      FinishBoundsKept(c, s, Failed, w.attempt + 1, w.waited);
    } else {
      WaitForBounded(c, w.attempt, status, retryAfter, jitter);
    }
  }

  lemma OneMoreWait(n: nat, cap: real, waited: real, wait: real)
    requires waited <= n as real * cap && wait <= cap
    ensures waited + wait <= (n + 1) as real * cap
  {
  }

  lemma WakeBoundsKept(c: Config, s: State)
    requires WorkerBounded(c, s.worker) && AllFinishedBounded(c, s.finished) && s.worker.Waiting?
    ensures WorkerBounded(c, Next(c, s, Wake).worker) && AllFinishedBounded(c, Next(c, s, Wake).finished)
  {
    var w, cap := s.worker, MaxReal(0.0, c.backoffCap);
    OneMoreWait(w.attempt, cap, w.waited, w.wait);
    WaitedWeaken(w.attempt + 1, c.maxRetries, w.waited + w.wait, cap);
  }

  lemma BoundsKept(c: Config, s: State, l: Label)
    requires WorkerBounded(c, s.worker) && AllFinishedBounded(c, s.finished) && Enabled(c, s, l)
    ensures WorkerBounded(c, Next(c, s, l).worker) && AllFinishedBounded(c, Next(c, s, l).finished)
  {
    if l.Reply? {
      ReplyBoundsKept(c, s, l.status, l.retryAfter, l.jitter);
    } else if l.Wake? {
      WakeBoundsKept(c, s);
    } else if l.Encode? {
      NothingWaited(c);
      FinishBoundsKept(c, s, Failed, 0, 0.0);
      assert c.maxRetries >= 0 ==> Bounded(c, 0, 0, 0.0);
    }
  }

  lemma ThreadsKept(c: Config, s: State, l: Label)
    requires QueueBounded(c, s) && DropsBounded(s) && Enabled(c, s, l)
    ensures QueueBounded(c, Next(c, s, l)) && DropsBounded(Next(c, s, l))
  {
  }

  lemma PersistentKept(c: Config, s: State, l: Label)
    requires Persistent(c, s) && WorkerBounded(c, s.worker) && Enabled(c, s, l)
    ensures Persistent(c, Next(c, s, l))
  {
  }

  lemma StepKeeps(c: Config, s: State, l: Label)
    requires Inv(c, s) && Enabled(c, s, l)
    ensures Inv(c, Next(c, s, l))
  {
    ConservedKept(c, s, l);
    StagesKept(c, s, l);
    OrderedKept(c, s, l);
    BoundsKept(c, s, l);
    ThreadsKept(c, s, l);
    PersistentKept(c, s, l);
  }

  /** Conservation, order, exact counting and all bounds hold in every interleaving. */
  lemma {:induction false} InvAlways(c: Config, s: State, ls: seq<Label>)
    requires Inv(c, s) && CanRun(c, s, ls)
    ensures Inv(c, Run(c, s, ls))
    decreases |ls|
  {
    if ls != [] {
      StepKeeps(c, s, ls[0]);
      InvAlways(c, Next(c, s, ls[0]), ls[1..]);
    }
  }

  lemma InitInv(c: Config)
    ensures Inv(c, INIT)
  {
  }

  // ----- runs ----------------------------------------------------------------------------

  lemma {:induction false} RunAppend(c: Config, s: State, a: seq<Label>, b: seq<Label>)
    requires CanRun(c, s, a)
    ensures CanRun(c, s, a + b) <==> CanRun(c, Run(c, s, a), b)
    ensures CanRun(c, s, a + b) ==> Run(c, s, a + b) == Run(c, Run(c, s, a), b)
    decreases |a|
  {
    if a == [] {
      assert a + b == b;
    } else {
      assert (a + b)[1..] == a[1..] + b;
      RunAppend(c, Next(c, s, a[0]), a[1..], b);
    }
  }

  lemma RunSnoc(c: Config, s: State, a: seq<Label>, l: Label)
    requires CanRun(c, s, a) && Enabled(c, Run(c, s, a), l)
    ensures CanRun(c, s, a + [l]) && Run(c, s, a + [l]) == Next(c, Run(c, s, a), l)
  {
    RunAppend(c, s, a, [l]);
    assert CanRun(c, Next(c, Run(c, s, a), l), [l][1..]);
  }

  /** Nothing is ever un-accepted and no batch changes its outcome. */
  lemma {:induction false} HistoryGrows(c: Config, s: State, ls: seq<Label>)
    requires CanRun(c, s, ls)
    ensures s.accepted <= Run(c, s, ls).accepted && s.finished <= Run(c, s, ls).finished
    decreases |ls|
  {
    if ls != [] {
      HistoryGrows(c, Next(c, s, ls[0]), ls[1..]);
    }
  }

  // ----- exactly one fate ----------------------------------------------------------------

  lemma {:induction false} FatesPartition(bs: seq<Batch>)
    ensures multiset(Flatten(bs)) ==
            multiset(Select(bs, Sent)) + multiset(Select(bs, Rejected)) + multiset(Select(bs, Failed))
  {
    if bs != [] {
      FatesPartition(bs[..|bs| - 1]);
    }
  }

  /**
   In every reachable state each accepted event, counted with multiplicity, is sent, rejected, failed,
   in the worker's batch or in the queue, and in only one of these.
   */
  lemma ExactlyOneFate(c: Config, ls: seq<Label>)
    requires CanRun(c, INIT, ls)
    ensures
      var s := Run(c, INIT, ls);
      && multiset(s.accepted) ==
         multiset(Select(s.finished, Sent)) + multiset(Select(s.finished, Rejected))
         + multiset(Select(s.finished, Failed)) + multiset(InFlight(s.worker)) + multiset(s.queue)
      && s.stats.sent + s.stats.droppedRejected + s.stats.droppedFailed + |InFlight(s.worker)| + |s.queue|
         == |s.accepted|
  {
    var s := Run(c, INIT, ls);
    InitInv(c);
    InvAlways(c, INIT, ls);
    FatesPartition(s.finished);
    assert |multiset(Flatten(s.finished))| == |Flatten(s.finished)|;
  }

  // ----- flush ---------------------------------------------------------------------------

  predicate Drained(s: State) { s.queue == [] && InFlight(s.worker) == [] && Unresolved(s.worker) == 0 }

  /** What `_pending > 0` tests: the counter is zero exactly when nothing is under way. */
  lemma PendingZeroIffDrained(c: Config, s: State)
    requires Inv(c, s)
    ensures s.pending <= 0 <==> s.entering == map[] && s.bounced == {} && Drained(s)
    ensures s.pending >= 0
  {
    assert s.entering == map[] <==> s.entering.Keys == {};
  }

  /**
   Whenever some flush returns True, every event accepted at any earlier point of the run, in particular
   everything whose `submit` finished before that flush was called, lies in a finished batch.
   */
  lemma FlushResolvesEarlierSubmits(c: Config, before: seq<Label>, during: seq<Label>, t: Tid)
    requires CanRun(c, INIT, before + during + [FlushTrue(t)])
    ensures CanRun(c, INIT, before) && CanRun(c, INIT, before + during)
    ensures
      var call, return' := Run(c, INIT, before), Run(c, INIT, before + during);
      && call.accepted <= Flatten(return'.finished) == return'.accepted
      && Drained(return') && return'.entering == map[] && return'.bounced == {}
  {
    PrefixRuns(c, INIT, before + during, [FlushTrue(t)]);
    PrefixRuns(c, INIT, before, during);
    RunAppend(c, INIT, before + during, [FlushTrue(t)]);
    RunAppend(c, INIT, before, during);
    var s := Run(c, INIT, before + during);
    HistoryGrows(c, Run(c, INIT, before), during);
    InitInv(c);
    InvAlways(c, INIT, before + during);
    PendingZeroIffDrained(c, s);
  }

  lemma {:induction false} PrefixRuns(c: Config, s: State, a: seq<Label>, b: seq<Label>)
    requires CanRun(c, s, a + b)
    ensures CanRun(c, s, a)
    decreases |a|
  {
    if a != [] {
      assert (a + b)[1..] == a[1..] + b;
      PrefixRuns(c, Next(c, s, a[0]), a[1..], b);
    }
  }

  /** Events still queued when the worker exits are stranded: they stay queued and no flush succeeds. */
  lemma {:induction false} StrandedForever(c: Config, s: State, ls: seq<Label>)
    requires Inv(c, s) && s.worker.Exited? && s.queue != [] && CanRun(c, s, ls)
    ensures Run(c, s, ls).worker.Exited? && s.queue <= Run(c, s, ls).queue && Run(c, s, ls).pending > 0
    ensures forall l :: l in ls ==> !l.FlushTrue?
    decreases |ls|
  {
    if ls != [] {
      StepKeeps(c, s, ls[0]);
      StrandedForever(c, Next(c, s, ls[0]), ls[1..]);
    }
  }

  // ----- progress ------------------------------------------------------------------------

  predicate WorkerLabel(l: Label) {
    l.Top? || l.Get? || l.GetTimeout? || l.Fill? || l.Encode? || l.Reply? || l.Wake? || l.Resolve?
  }

  function Phase(c: Config, w: Worker): int {
    match w
    case Exited => 0
    case Getting => 0
    case AtTop => 1
    case Resolving(_) => 2
    case Waiting(_, attempt, _, _) => 3 + 2 * (Max(0, c.maxRetries) - attempt)
    case Sending(_, attempt, _) => 4 + 2 * (Max(0, c.maxRetries) - attempt)
    case Filling(_) => 5 + 2 * Max(0, c.maxRetries)
  }

  /** Worker steps left until everything queued is resolved. */
  function Rank(c: Config, s: State): int { (6 + 2 * Max(0, c.maxRetries)) * |s.queue| + Phase(c, s.worker) }

  lemma RankDecreases(c: Config, s: State, l: Label)
    requires WorkerBounded(c, s.worker) && Enabled(c, s, l) && WorkerLabel(l)
    requires !Drained(s) && !s.stop
    ensures 0 <= Rank(c, Next(c, s, l)) < Rank(c, s)
  {
    var k, s' := 6 + 2 * Max(0, c.maxRetries), Next(c, s, l);
    BoundsKeptPhase(c, s, l);
    if l.Get? || l.Fill? {
      assert k * |s.queue| == k * |s'.queue| + k;
    }
  }

  lemma BoundsKeptPhase(c: Config, s: State, l: Label)
    requires WorkerBounded(c, s.worker) && Enabled(c, s, l) && WorkerLabel(l)
    ensures Phase(c, Next(c, s, l).worker) >= 0
  {
  }

  /** The worker is never stuck: some worker step is enabled unless it has exited. */
  lemma WorkerNeverStuck(c: Config, s: State)
    requires !s.worker.Exited?
    ensures exists l :: WorkerLabel(l) && Enabled(c, s, l)
  {
    var l :=
      match s.worker
      case AtTop => Top
      case Getting => if s.queue == [] then GetTimeout else Get
      case Filling(batch) => if |batch| < c.batchSize && s.queue != [] then Fill else Encode(true)
      case Sending(_, _, _) => Reply(200, None, 0.0)
      case Waiting(_, _, _, _) => Wake
      case Resolving(_) => Resolve
      case Exited => Top;
    assert WorkerLabel(l) && Enabled(c, s, l);
  }

  function Resolves(ls: seq<Label>): nat {
    if ls == [] then 0 else (if ls[0].Resolve? then 1 else 0) + Resolves(ls[1..])
  }

  function WorkerSteps(ls: seq<Label>): nat {
    if ls == [] then 0 else (if WorkerLabel(ls[0]) then 1 else 0) + WorkerSteps(ls[1..])
  }

  /** Iterations the worker still owes: one per queued event at most, and the one it is in. */
  function Owed(s: State): nat {
    |s.queue| + if InFlight(s.worker) != [] || s.worker.Resolving? then 1 else 0
  }

  /** Anything but accepting more events or stopping: the worker, flushers, and submitters being refused. */
  predicate Settling(l: Label) { !l.BeginSubmit? && !l.Put? && !l.SetStop? }

  lemma WorkerStepFacts(c: Config, s: State, l: Label)
    requires WorkerBounded(c, s.worker) && Enabled(c, s, l) && WorkerLabel(l)
    ensures Drained(s) ==> Drained(Next(c, s, l))
    ensures Owed(Next(c, s, l)) + (if l.Resolve? then 1 else 0) <= Owed(s)
    ensures Next(c, s, l).stop == s.stop
  {
  }

  lemma SettlingStepFacts(c: Config, s: State, l: Label)
    requires WorkerBounded(c, s.worker) && Enabled(c, s, l) && Settling(l) && !s.stop
    ensures Drained(s) ==> Drained(Next(c, s, l))
    ensures Owed(Next(c, s, l)) + (if l.Resolve? then 1 else 0) <= Owed(s)
    ensures !Next(c, s, l).stop
    ensures !Drained(s) ==> Rank(c, Next(c, s, l)) <= Rank(c, s) - if WorkerLabel(l) then 1 else 0
  {
    if WorkerLabel(l) {
      WorkerStepFacts(c, s, l);
      if !Drained(s) {
        RankDecreases(c, s, l);
      }
    } else {
      assert Next(c, s, l).queue == s.queue && Next(c, s, l).worker == s.worker && Next(c, s, l).stop == s.stop;
    }
  }

  lemma RankPositive(c: Config, s: State)
    requires WorkerBounded(c, s.worker) && !Drained(s)
    ensures Rank(c, s) > 0
  {
    if s.queue != [] {
      Multiplied(6 + 2 * Max(0, c.maxRetries), |s.queue|);
    }
  }

  lemma Multiplied(k: nat, n: nat)
    requires n > 0
    ensures k * n >= k
  {
  }

  /**
   Once no more events are accepted, and without stop: in any interleaving with flushers and refused
   submitters everything is resolved after at most Rank steps of the worker, whatever the server answers, in
   at most |queue| + 1 iterations that deliver something.
   */
  lemma {:induction false} WorkerDrains(c: Config, s: State, ls: seq<Label>)
    requires Inv(c, s) && !s.stop && CanRun(c, s, ls) && forall l :: l in ls ==> Settling(l)
    ensures WorkerSteps(ls) >= Rank(c, s) || Drained(s) ==> Drained(Run(c, s, ls))
    ensures Resolves(ls) <= Owed(s) <= |s.queue| + 1
    ensures !Run(c, s, ls).stop
    decreases |ls|
  {
    if !Drained(s) {
      RankPositive(c, s);
    }
    if ls != [] {
      assert Settling(ls[0]);
      SettlingStepFacts(c, s, ls[0]);
      StepKeeps(c, s, ls[0]);
      WorkerDrains(c, Next(c, s, ls[0]), ls[1..]);
    }
  }

  predicate NobodyInside(s: State) { s.entering == map[] && s.bounced == {} }

  /** Nobody starts a submit and nobody stops the worker. */
  predicate NoNewWork(l: Label) { !l.BeginSubmit? && !l.SetStop? }

  /** With nobody inside `submit` and nobody starting, nothing more is accepted. */
  lemma {:induction false} NobodyEnters(c: Config, s: State, ls: seq<Label>)
    requires CanRun(c, s, ls) && NobodyInside(s) && forall l :: l in ls ==> NoNewWork(l)
    ensures NobodyInside(Run(c, s, ls)) && forall l :: l in ls ==> Settling(l)
    decreases |ls|
  {
    if ls != [] {
      assert NoNewWork(ls[0]);
      NobodyEnters(c, Next(c, s, ls[0]), ls[1..]);
      assert ls == [ls[0]] + ls[1..];
    }
  }

  /** Worker steps that are enough for everything queued, in hand, or still on its way through `submit`. */
  function Bound(c: Config, s: State): int { (6 + 2 * Max(0, c.maxRetries)) * (|s.queue| + |s.entering| + 1) }

  lemma WorkerOnlyTakes(c: Config, s: State, l: Label)
    requires Enabled(c, s, l) && WorkerLabel(l)
    ensures |Next(c, s, l).queue| <= |s.queue| && Next(c, s, l).entering == s.entering && Next(c, s, l).stop == s.stop
  {
  }

  lemma NoNewWorkStep(c: Config, s: State, l: Label)
    requires Enabled(c, s, l) && NoNewWork(l)
    ensures |Next(c, s, l).queue| + |Next(c, s, l).entering| <= |s.queue| + |s.entering|
    ensures Next(c, s, l).stop == s.stop
  {
    if WorkerLabel(l) {
      WorkerOnlyTakes(c, s, l);
    } else if l.Put? || l.Bounce? {
      Shrinks(s.entering, l.t);
    }
  }

  lemma {:induction false} WorkNeverGrows(c: Config, s: State, ls: seq<Label>)
    requires CanRun(c, s, ls) && forall l :: l in ls ==> NoNewWork(l)
    ensures |Run(c, s, ls).queue| + |Run(c, s, ls).entering| <= |s.queue| + |s.entering|
    ensures Run(c, s, ls).stop == s.stop
    decreases |ls|
  {
    if ls != [] {
      assert NoNewWork(ls[0]);
      NoNewWorkStep(c, s, ls[0]);
      WorkNeverGrows(c, Next(c, s, ls[0]), ls[1..]);
    }
  }

  lemma Monotone(k: nat, m: nat, n: nat)
    requires m <= n
    ensures k * m <= k * n && k * (n + 1) == k * n + k
  {
  }

  lemma PhaseBelow(c: Config, w: Worker)
    requires WorkerBounded(c, w)
    ensures 0 <= Phase(c, w) <= 6 + 2 * Max(0, c.maxRetries)
  {
  }

  lemma RankWithinBound(c: Config, start: State, s: State)
    requires Inv(c, s) && |s.queue| <= |start.queue| + |start.entering|
    ensures Rank(c, s) <= Bound(c, start)
  {
    var k, work := 6 + 2 * Max(0, c.maxRetries), |start.queue| + |start.entering|;
    PhaseBelow(c, s.worker);
    Monotone(k, |s.queue|, work);
    Monotone(k, work, work + 1);
  }

  /**
   A waiting flush can return True, however many submitters were inside `submit` at the start: once those
   have left, Bound steps of the worker are enough, in any interleaving without new submits and without stop.
   */
  lemma FlushEventuallyTrue(c: Config, s: State, before: seq<Label>, after: seq<Label>, t: Tid)
    requires Inv(c, s) && !s.stop && CanRun(c, s, before + after) && CanRun(c, s, before)
    requires forall l :: l in before || l in after ==> NoNewWork(l)
    requires NobodyInside(Run(c, s, before)) && WorkerSteps(after) >= Bound(c, s)
    requires t in Run(c, s, before + after).flushing
    ensures Enabled(c, Run(c, s, before + after), FlushTrue(t))
  {
    var mid := Run(c, s, before);
    RunAppend(c, s, before, after);
    BoundCovers(c, s, before);
    DrainsUndisturbed(c, mid, after);
  }

  lemma BoundCovers(c: Config, s: State, ls: seq<Label>)
    requires Inv(c, s) && CanRun(c, s, ls) && forall l :: l in ls ==> NoNewWork(l)
    ensures Rank(c, Run(c, s, ls)) <= Bound(c, s) && Inv(c, Run(c, s, ls)) && Run(c, s, ls).stop == s.stop
  {
    InvAlways(c, s, ls);
    WorkNeverGrows(c, s, ls);
    RankWithinBound(c, s, Run(c, s, ls));
  }

  lemma DrainsUndisturbed(c: Config, s: State, ls: seq<Label>)
    requires Inv(c, s) && !s.stop && NobodyInside(s) && CanRun(c, s, ls) && forall l :: l in ls ==> NoNewWork(l)
    requires WorkerSteps(ls) >= Rank(c, s)
    ensures Run(c, s, ls).pending <= 0
  {
    NobodyEnters(c, s, ls);
    WorkerDrains(c, s, ls);
    InvAlways(c, s, ls);
    PendingZeroIffDrained(c, Run(c, s, ls));
  }

  // ----- stopping ------------------------------------------------------------------------

  /** Worker steps left once stop is set: it finishes what it holds and exits. */
  function StopRank(c: Config, w: Worker): int {
    match w
    case Exited => 0
    case AtTop => 1
    case Resolving(_) => 2
    case Waiting(_, _, _, _) => 3
    case Sending(_, _, _) => 4
    case Filling(batch) => 5 + Max(0, c.batchSize - |batch|)
    case Getting => 6 + Max(1, c.batchSize)
  }

  function Gets(ls: seq<Label>): nat {
    if ls == [] then 0 else (if ls[0].Get? then 1 else 0) + Gets(ls[1..])
  }

  lemma StopStep(c: Config, s: State, l: Label)
    requires s.stop && Enabled(c, s, l)
    ensures Next(c, s, l).stop
    ensures 0 <= StopRank(c, Next(c, s, l).worker) <= StopRank(c, s.worker) - if WorkerLabel(l) then 1 else 0
    ensures (if l.Get? then 1 else 0) + (if Next(c, s, l).worker.Getting? then 1 else 0)
         <= if s.worker.Getting? then 1 else 0
  {
  }

  /**
   Once stop is set, in any interleaving and whatever the server answers: the worker takes a bounded number
   of further steps, after which it has exited, and at most one more batch, only if it was already asking.
   */
  lemma {:induction false} StopEndsWorker(c: Config, s: State, ls: seq<Label>)
    requires s.stop && CanRun(c, s, ls)
    ensures WorkerSteps(ls) <= StopRank(c, s.worker)
    ensures WorkerSteps(ls) == StopRank(c, s.worker) ==> Run(c, s, ls).worker.Exited?
    ensures Gets(ls) <= if s.worker.Getting? then 1 else 0
    decreases |ls|
  {
    if ls != [] {
      StopStep(c, s, ls[0]);
      StopEndsWorker(c, Next(c, s, ls[0]), ls[1..]);
    }
  }

  // ----- the unlocked drop counter -------------------------------------------------------

  /** No two threads are between the load and the store of `dropped_full += 1`. */
  predicate NoOverlap(c: Config, s: State, ls: seq<Label>)
    requires CanRun(c, s, ls)
    decreases |ls|
  {
    |s.loaded| <= 1 && (ls == [] || NoOverlap(c, Next(c, s, ls[0]), ls[1..]))
  }

  predicate DropsExact(s: State) {
    s.stats.droppedFull == s.drops && forall t :: t in s.loaded ==> s.loaded[t] == s.drops
  }

  lemma SoleKey(m: map<Tid, int>, t: Tid)
    requires t in m && |m| <= 1
    ensures m - {t} == map[]
  {
    assert m.Keys == {t} + (m - {t}).Keys;
    assert |m.Keys| == 1 + |(m - {t}).Keys|;
    assert (m - {t}).Keys == {};
  }

  lemma DropsExactStep(c: Config, s: State, l: Label)
    requires DropsExact(s) && Enabled(c, s, l) && |s.loaded| <= 1
    ensures DropsExact(Next(c, s, l))
  {
    if l.TallyStore? {
      SoleKey(s.loaded, l.t);
    } else if !l.TallyLoad? {
      OthersLeaveTally(c, s, l);
    }
  }

  lemma {:induction false} DropsExactWithoutOverlap(c: Config, s: State, ls: seq<Label>)
    requires DropsExact(s) && CanRun(c, s, ls) && NoOverlap(c, s, ls)
    ensures DropsExact(Run(c, s, ls))
    decreases |ls|
  {
    if ls != [] {
      DropsExactStep(c, s, ls[0]);
      DropsExactWithoutOverlap(c, Next(c, s, ls[0]), ls[1..]);
    }
  }

  /** A drop has been lost for good: no pending store can bring the counter up to the number of drops. */
  predicate Lost(s: State) {
    && DropsBounded(s) && (s.loaded == map[] ==> s.stats.droppedFull < s.drops)
    && forall t :: t in s.loaded ==> s.loaded[t] + 1 < s.drops + |s.loaded|
  }

  lemma LostStore(c: Config, s: State, t: Tid)
    requires Lost(s) && t in s.loaded
    ensures Lost(Next(c, s, TallyStore(t)))
  {
    Shrinks(s.loaded, t);
    assert s.loaded - {t} == map[] <==> |s.loaded - {t}| == 0;
  }

  lemma LostLoad(c: Config, s: State, t: Tid)
    requires Lost(s) && StagesApart(s) && t in s.tallying
    ensures Lost(Next(c, s, TallyLoad(t)))
  {
    var loaded' := s.loaded[t := s.stats.droppedFull];
    assert |loaded'| == |s.loaded| + 1;
    assert s.loaded != map[] ==> |s.loaded| > 0;
  }

  lemma LostStep(c: Config, s: State, l: Label)
    requires Lost(s) && StagesApart(s) && Enabled(c, s, l)
    ensures Lost(Next(c, s, l))
  {
    if l.TallyStore? {
      LostStore(c, s, l.t);
    } else if l.TallyLoad? {
      LostLoad(c, s, l.t);
    } else {
      OthersLeaveTally(c, s, l);
    }
  }

  lemma {:induction false} LostForGood(c: Config, s: State, ls: seq<Label>)
    requires Lost(s) && StagesApart(s) && CanRun(c, s, ls)
    ensures Lost(Run(c, s, ls))
    decreases |ls|
  {
    if ls != [] {
      StagesKept(c, s, ls[0]);
      LostStep(c, s, ls[0]);
      LostForGood(c, Next(c, s, ls[0]), ls[1..]);
    }
  }

  lemma {:induction false} OverlapLoses(c: Config, s: State, ls: seq<Label>)
    requires Inv(c, s) && CanRun(c, s, ls) && !NoOverlap(c, s, ls)
    ensures Lost(Run(c, s, ls))
    decreases |ls|
  {
    if |s.loaded| > 1 {
      LostForGood(c, s, ls);
    } else {
      StepKeeps(c, s, ls[0]);
      OverlapLoses(c, Next(c, s, ls[0]), ls[1..]);
    }
  }

  /**
   Whenever no update is half done, `dropped_full` equals the number of refused submits exactly if no two of
   the unlocked updates ever overlapped.
   */
  lemma DropsExactIffNoOverlap(c: Config, ls: seq<Label>)
    requires CanRun(c, INIT, ls) && Run(c, INIT, ls).loaded == map[]
    ensures Run(c, INIT, ls).stats.droppedFull == Run(c, INIT, ls).drops <==> NoOverlap(c, INIT, ls)
  {
    if NoOverlap(c, INIT, ls) {
      DropsExactWithoutOverlap(c, INIT, ls);
    } else {
      InitInv(c);
      OverlapLoses(c, INIT, ls);
    }
  }

  /** Only thread `t` is ever inside `submit`. */
  predicate OnlyThread(s: State, t: Tid) {
    s.entering.Keys <= {t} && s.bounced <= {t} && s.tallying <= {t} && s.loaded.Keys <= {t}
  }

  lemma AtMostOneLoaded(s: State, t: Tid)
    requires OnlyThread(s, t)
    ensures |s.loaded| <= 1
  {
    assert |s.loaded| == |s.loaded.Keys|;
    assert s.loaded.Keys == {} || s.loaded.Keys == {t};
  }

  lemma OnlyThreadStep(c: Config, s: State, l: Label, t: Tid)
    requires OnlyThread(s, t) && Enabled(c, s, l) && (l.BeginSubmit? ==> l.t == t)
    ensures OnlyThread(Next(c, s, l), t)
  {
  }

  lemma {:induction false} OneThreadNeverOverlaps(c: Config, s: State, ls: seq<Label>, t: Tid)
    requires CanRun(c, s, ls) && OnlyThread(s, t) && forall l :: l in ls && l.BeginSubmit? ==> l.t == t
    ensures NoOverlap(c, s, ls)
    decreases |ls|
  {
    AtMostOneLoaded(s, t);
    if ls != [] {
      assert ls[0] in ls;
      OnlyThreadStep(c, s, ls[0], t);
      OneThreadNeverOverlaps(c, Next(c, s, ls[0]), ls[1..], t);
    }
  }

  /** What a caller can arrange: with one submitting thread the counter is exact. */
  lemma DropsExactWithOneSubmitter(c: Config, ls: seq<Label>, t: Tid)
    requires CanRun(c, INIT, ls) && Run(c, INIT, ls).loaded == map[]
    requires forall l :: l in ls && l.BeginSubmit? ==> l.t == t
    ensures Run(c, INIT, ls).stats.droppedFull == Run(c, INIT, ls).drops
  {
    OneThreadNeverOverlaps(c, INIT, ls, t);
    DropsExactIffNoOverlap(c, ls);
  }

  /** Nobody was ever refused. */
  predicate NoneRefused(s: State) {
    s.bounced == {} && s.tallying == {} && s.loaded == map[] && s.drops == 0 && s.stats.droppedFull == 0
  }

  lemma {:induction false} UnboundedRefusesNone(c: Config, s: State, ls: seq<Label>)
    requires c.maxQueue <= 0 && NoneRefused(s) && CanRun(c, s, ls)
    ensures NoneRefused(Run(c, s, ls))
    decreases |ls|
  {
    if ls != [] {
      if !SubmitLabel(ls[0]) {
        OthersLeaveStages(c, s, ls[0]);
      }
      UnboundedRefusesNone(c, Next(c, s, ls[0]), ls[1..]);
    }
  }

  /** Only the threads of `T` ever submit. */
  predicate SubmittersIn(ls: seq<Label>, T: set<Tid>) { forall l :: l in ls && l.BeginSubmit? ==> l.t in T }

  ghost predicate ExactAfter(c: Config, ls: seq<Label>)
    requires CanRun(c, INIT, ls)
  {
    Run(c, INIT, ls).loaded == map[] ==> Run(c, INIT, ls).stats.droppedFull == Run(c, INIT, ls).drops
  }

  /**
   What a client can check: however the threads of `T` interleave with each other, with flushers and with the
   worker, the counter ends exact; that is so precisely for an unbounded queue and for at most one thread.
   */
  lemma DropsExactIffOneSubmitter(c: Config, T: set<Tid>)
    ensures (forall ls :: CanRun(c, INIT, ls) && SubmittersIn(ls, T) ==> ExactAfter(c, ls))
       <==> c.maxQueue <= 0 || |T| <= 1
  {
    if c.maxQueue <= 0 || |T| <= 1 {
      forall ls | CanRun(c, INIT, ls) && SubmittersIn(ls, T)
        ensures ExactAfter(c, ls)
      {
        if c.maxQueue <= 0 {
          UnboundedRefusesNone(c, INIT, ls);
        } else if Run(c, INIT, ls).loaded == map[] {
          var t := Sole(T);
          DropsExactWithOneSubmitter(c, ls, t);
        }
      }
    } else {
      var t, u := TwoOf(T);
      var ls := DropCounterCanLoseOne(c, t, u);
      assert !ExactAfter(c, ls);
    }
  }

  lemma Sole(T: set<Tid>) returns (t: Tid)
    requires |T| <= 1
    ensures T <= {t}
  {
    t := 0;
    if T != {} {
      t :| t in T;
      assert |T - {t}| == 0;
    }
  }

  lemma TwoOf(T: set<Tid>) returns (t: Tid, u: Tid)
    requires |T| > 1
    ensures t in T && u in T && t != u
  {
    t :| t in T;
    assert |T - {t}| > 0;
    u :| u in T - {t};
  }

  /** With a bounded queue any two submitters can have one of two drops go uncounted. */
  lemma DropCounterCanLoseOne(c: Config, t: Tid, u: Tid) returns (ls: seq<Label>)
    requires 0 < c.maxQueue && t != u
    ensures CanRun(c, INIT, ls) && SubmittersIn(ls, {t, u}) && Run(c, INIT, ls).loaded == map[]
    ensures Run(c, INIT, ls).drops == 2 && Run(c, INIT, ls).stats.droppedFull == 1
  {
    ls := FillQueue(c, t, c.maxQueue);
    var s;
    ls, s := Refused(c, ls, Run(c, INIT, ls), t, u);
  }

  /** Nothing but acceptances has happened. */
  predicate Untroubled(s: State) { NoneRefused(s) && s.entering == map[] && s.flushing == {} }

  /** One thread submits until the queue holds `n` events, before the worker takes any. */
  lemma {:induction false} FillQueue(c: Config, t: Tid, n: nat) returns (ls: seq<Label>)
    requires n <= c.maxQueue
    ensures CanRun(c, INIT, ls) && SubmittersIn(ls, {t}) && Untroubled(Run(c, INIT, ls)) && |Run(c, INIT, ls).queue| == n
  {
    if n == 0 {
      ls := [];
    } else {
      ls := FillQueue(c, t, n - 1);
      var s;
      ls, s := Extend(c, ls, Run(c, INIT, ls), BeginSubmit(t, "event"));
      ls, s := Extend(c, ls, s, Put(t));
    }
  }

  /** Both threads are refused, and both load the counter before either stores it. */
  lemma Refused(c: Config, ls: seq<Label>, s: State, t: Tid, u: Tid) returns (ls': seq<Label>, s': State)
    requires CanRun(c, INIT, ls) && s == Run(c, INIT, ls) && Full(c, s) && Untroubled(s) && t != u
    requires SubmittersIn(ls, {t})
    ensures CanRun(c, INIT, ls') && s' == Run(c, INIT, ls') && SubmittersIn(ls', {t, u})
    ensures s'.drops == 2 && s'.stats.droppedFull == 1 && s'.loaded == map[]
  {
    ls', s' := RefusedOnce(c, ls, s, t);
    ls', s' := RefusedOnce(c, ls', s', u);
    assert s'.loaded == map[t := 0, u := 0];
    ls', s' := Extend(c, ls', s', TallyStore(t));
    ls', s' := Extend(c, ls', s', TallyStore(u));
  }

  /** A thread is refused and has loaded the counter. */
  lemma RefusedOnce(c: Config, ls: seq<Label>, s: State, t: Tid) returns (ls': seq<Label>, s': State)
    requires CanRun(c, INIT, ls) && s == Run(c, INIT, ls) && Full(c, s) && Idle(s, t)
    ensures CanRun(c, INIT, ls') && s' == Run(c, INIT, ls') == s.(loaded := s.loaded[t := s.stats.droppedFull])
    ensures forall T :: SubmittersIn(ls, T) ==> SubmittersIn(ls', T + {t})
  {
    ls', s' := Extend(c, ls, s, BeginSubmit(t, "event"));
    ls', s' := Extend(c, ls', s', Bounce(t));
    ls', s' := Extend(c, ls', s', Unpend(t));
    ls', s' := Extend(c, ls', s', TallyLoad(t));
    assert s.entering[t := "event"] - {t} == s.entering && s.bounced + {t} - {t} == s.bounced;
    assert s.tallying + {t} - {t} == s.tallying;
  }

  lemma Extend(c: Config, ls: seq<Label>, s: State, l: Label) returns (ls': seq<Label>, s': State)
    requires CanRun(c, INIT, ls) && s == Run(c, INIT, ls) && Enabled(c, s, l)
    ensures CanRun(c, INIT, ls') && s' == Run(c, INIT, ls') == Next(c, s, l) && ls' == ls + [l]
  {
    RunSnoc(c, INIT, ls, l);
    ls', s' := ls + [l], Next(c, s, l);
  }

  // ----- waiting -------------------------------------------------------------------------

  /**
   A requested Retry-After is waited out in full exactly when it does not exceed `backoff_cap`: the cap
   is applied to the server's figure too.
   */
  lemma RetryAfterHonouredIffWithinCap(c: Config, attempt: nat, status: int, seconds: real, jitter: real)
    requires status in {429, 503} && 0.0 <= seconds
    ensures WaitFor(c, attempt, status, Some(seconds), jitter) >= seconds <==> seconds <= MaxReal(0.0, c.backoffCap)
    ensures WaitFor(c, attempt, status, Some(seconds), jitter) <= seconds
    ensures seconds > c.backoffCap >= 0.0 ==> WaitFor(c, attempt, status, Some(seconds), jitter) == c.backoffCap
  {
  }

  lemma FractionOf(half: real, part: real)
    requires 0.0 <= half && 0.0 <= part <= 1.0
    ensures 0.0 <= half * part <= half
  {
    assert half * (1.0 - part) >= 0.0;
    assert half * (1.0 - part) == half - half * part;
  }

  lemma JitterHalfToFull(top: real, jitter: real)
    requires 0.0 <= top && 0.0 <= jitter <= 1.0
    ensures top / 2.0 <= Jittered(top, jitter) <= top
  {
    var half := top - top / 2.0;
    FractionOf(half, jitter);
    assert Jittered(top, jitter) == top / 2.0 + half * jitter;
    assert top == top / 2.0 + half;
  }

  /** The exponential backoff doubles from attempt to attempt until the cap is reached. */
  lemma CeilingDoubles(c: Config, attempt: nat)
    requires 0.0 <= c.backoffBase && 0.0 <= c.backoffCap
    ensures Ceiling(c, 0) == if c.backoffBase <= c.backoffCap then c.backoffBase else c.backoffCap
    ensures Ceiling(c, attempt + 1)
         == if 2.0 * Ceiling(c, attempt) <= c.backoffCap then 2.0 * Ceiling(c, attempt) else c.backoffCap
  {
    Doubled(c.backoffBase, Pow2(attempt));
  }

  lemma Doubled(base: real, p: nat)
    ensures base * (2 * p) as real == 2.0 * (base * p as real)
    ensures base * 1 as real == base
  {
    assert (2 * p) as real == 2.0 * p as real;
  }

  /** Retry-After counts on 429 and 503 alone; every other wait is between half and all of the capped exponential. */
  lemma BackoffHalfToFull(c: Config, attempt: nat, status: int, retryAfter: Option<real>, jitter: real)
    requires 0.0 <= c.backoffBase && 0.0 <= c.backoffCap && 0.0 <= jitter <= 1.0
    requires retryAfter.None? || (status != 429 && status != 503)
    ensures Ceiling(c, attempt) / 2.0 <= WaitFor(c, attempt, status, retryAfter, jitter) <= Ceiling(c, attempt)
    ensures jitter == 0.0 ==> WaitFor(c, attempt, status, retryAfter, jitter) == Ceiling(c, attempt) / 2.0
    ensures jitter == 1.0 ==> WaitFor(c, attempt, status, retryAfter, jitter) == Ceiling(c, attempt)
  {
    assert 0.0 <= Ceiling(c, attempt) <= c.backoffCap;
    JitterHalfToFull(Ceiling(c, attempt), jitter);
  }

  /** With the client's defaults the waits are drawn below 0.5, 1, 2, 4, ... and never above 30 seconds. */
  lemma DefaultBackoff(c: Config)
    requires c.backoffBase == 0.5 && c.backoffCap == 30.0
    ensures Ceiling(c, 0) == 0.5 && Ceiling(c, 1) == 1.0 && Ceiling(c, 2) == 2.0 && Ceiling(c, 3) == 4.0
    ensures Ceiling(c, 6) == 30.0
  {
    CeilingDoubles(c, 0);
    CeilingDoubles(c, 1);
    CeilingDoubles(c, 2);
    CeilingDoubles(c, 3);
    CeilingDoubles(c, 4);
    CeilingDoubles(c, 5);
  }
}
