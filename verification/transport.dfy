/**
 The code of the transport's threads. Each method is one thread's own code, run without interference;
 the ghost trace records every atomic action it performs as a step of `TransportProtocol`, so whatever
 holds in all protocol runs holds of these objects.
 */
module Transport {
  import opened Numbers
  import opened Wrappers
  import opened TransportProtocol

  /** What the network and the clock do at one attempt; `stopped`: stop was set before the wait ended. */
  datatype Response = Response(status: int, retryAfter: Option<real>, jitter: real, stopped: bool)

  /** The environment of one worker iteration: whether the batch can be encoded, and every reply in turn. */
  datatype Net = Net(encodes: bool, replies: seq<Response>)

  ghost predicate Usable(c: Config, net: Net) {
    |net.replies| > c.maxRetries && forall r :: r in net.replies ==> 0.0 <= r.jitter <= 1.0
  }

  /** The reply to attempt `i` ends the delivery. */
  predicate Conclusive(c: Config, r: Response, i: nat) {
    Accepting(r.status) || !Retryable(r.status) || i >= c.maxRetries || r.stopped
  }

  /** The reply to attempt `i` is followed by a wait. */
  predicate Waits(c: Config, r: Response, i: nat) {
    !Accepting(r.status) && Retryable(r.status) && i < c.maxRetries
  }

  function Verdict(r: Response): Outcome {
    if Accepting(r.status) then Sent else if Retryable(r.status) then Failed else Rejected
  }

  /** `d` is what delivering under `net` must yield: the first conclusive reply decides. */
  ghost predicate Delivers(c: Config, net: Net, d: Batch) {
    if !net.encodes || c.maxRetries < 0 then d.outcome == Failed && d.sends == 0
    else
      && 1 <= d.sends <= c.maxRetries + 1 && d.sends <= |net.replies|
      && (forall i :: 0 <= i < d.sends - 1 ==> !Conclusive(c, net.replies[i], i))
      && Conclusive(c, net.replies[d.sends - 1], d.sends - 1)
      && d.outcome == Verdict(net.replies[d.sends - 1])
  }

  /** How many of the sends of `d` are followed by a wait: all but a last one that needed none. */
  function WaitCount(c: Config, net: Net, d: Batch): nat
    requires d.sends <= |net.replies|
  {
    if d.sends == 0 then 0
    else d.sends - if Waits(c, net.replies[d.sends - 1], d.sends - 1) then 0 else 1
  }

  /** Batch length: one event, then as many as `batchSize` and the queue allow. */
  function Take(c: Config, queued: nat): nat {
    if queued == 0 then 0 else Max(1, if queued < c.batchSize then queued else c.batchSize)
  }

  predicate StopsIn(net: Net) { exists r :: r in net.replies && r.stopped }

  class Transport {
    const c: Config
    var q: seq<Event>
    var pending: int
    var stop: bool
    var stats: Stats
    ghost var trace: seq<Label>
    ghost var at: State

    ghost predicate Valid()
      reads this
    {
      && CanRun(c, INIT, trace) && at == Run(c, INIT, trace)
      && q == at.queue && pending == at.pending && stop == at.stop && stats == at.stats
    }

    constructor (c: Config)
      ensures Valid() && at == INIT && this.c == c
    {
      this.c := c;
      q, pending, stop, stats := [], 0, false, Stats(0, 0, 0, 0, 0);
      trace, at := [], INIT;
    }

    /** Records one atomic action. */
    ghost method Do(l: Label)
      requires CanRun(c, INIT, trace) && at == Run(c, INIT, trace) && Enabled(c, at, l)
      modifies this`trace, this`at
      ensures CanRun(c, INIT, trace) && at == Run(c, INIT, trace)
      ensures at == Next(c, old(at), l)
    {
      RunSnoc(c, INIT, trace, l);
      trace, at := trace + [l], Next(c, at, l);
    }

    /** The unlocked increment of the drop counter, which loads and then stores it. */
    method Tally(t: Tid)
      requires Valid() && t in at.tallying && t !in at.loaded
      modifies this
      ensures Valid() && pending == old(pending)
      ensures stats == old(stats).(droppedFull := old(stats).droppedFull + 1)
      ensures at == old(at).(stats := stats, tallying := old(at.tallying) - {t}, drops := old(at.drops) + 1)
    {
      Do(TallyLoad(t));
      stats := stats.(droppedFull := stats.droppedFull + 1);
      Do(TallyStore(t));
      assert at.loaded == old(at.loaded);
    }

    /** What `submit` does after the queue was full: give the increment back, count the drop. */
    method Refuse(t: Tid)
      requires Valid() && t in at.bounced && t !in at.tallying && t !in at.loaded
      modifies this
      ensures Valid() && pending == old(pending) - 1
      ensures stats == old(stats).(droppedFull := old(stats).droppedFull + 1)
      ensures at == old(at).(pending := pending, stats := stats, bounced := old(at.bounced) - {t},
                             drops := old(at.drops) + 1)
    {
      pending := pending - 1;
      Do(Unpend(t));
      Tally(t);
      assert at.tallying == old(at.tallying);
    }

    /** Never blocks, never fails: the event is queued, or dropped and counted when the queue is full. */
    method Submit(t: Tid, event: Event) returns (ok: bool)
      requires Valid() && Idle(at, t)
      modifies this
      ensures Valid()
      ensures ok <==> !(0 < c.maxQueue <= |old(q)|)
      ensures ok ==> at == old(at).(queue := old(q) + [event], pending := old(pending) + 1,
                                    accepted := old(at.accepted) + [event])
      ensures !ok ==> at == old(at).(stats := stats, drops := old(at.drops) + 1)
      ensures !ok ==> stats == old(stats).(droppedFull := old(stats).droppedFull + 1)
    {
      pending := pending + 1;
      Do(BeginSubmit(t, event));
      if !(0 < c.maxQueue <= |q|) {
        q := q + [event];
        Do(Put(t));
        assert at.entering == old(at.entering);
        ok := true;
      } else {
        Do(Bounce(t));
        assert at.entering == old(at.entering);
        Refuse(t);
        assert at.bounced == old(at.bounced);
        ok := false;
      }
    }

    /** Sends attempt `attempt`; a reply that needs no wait gives the batch its outcome. */
    method Send(batch: seq<Event>, attempt: nat, r: Response) returns (done: bool)
      requires Valid() && 0.0 <= r.jitter <= 1.0
      requires at.worker.Sending? && at.worker.batch == batch && at.worker.attempt == attempt
      modifies this
      ensures Valid() && (done <==> !Waits(c, r, attempt))
      ensures at == AfterReply(c, old(at), r.status, r.retryAfter, r.jitter)
      ensures stats == if done then Count(old(stats), Verdict(r), |batch|)
                       else old(stats).(retries := old(stats.retries) + 1)
    {
      Do(Reply(r.status, r.retryAfter, r.jitter));
      done := true;
      if Accepting(r.status) {
        stats := stats.(sent := stats.sent + |batch|);
      } else if !Retryable(r.status) {
        stats := stats.(droppedRejected := stats.droppedRejected + |batch|);
      } else if attempt >= c.maxRetries {
        stats := stats.(droppedFailed := stats.droppedFailed + |batch|);
      } else {
        stats := stats.(retries := stats.retries + 1);
        done := false;
      }
    }

    /** The wait between attempts; a stop request ends it and gives the batch up. */
    method Sleep(batch: seq<Event>, attempt: nat, stopped: bool)
      requires Valid() && !stop
      requires at.worker.Waiting? && at.worker.batch == batch && at.worker.attempt == attempt
      modifies this
      ensures Valid() && stop == stopped
      ensures at == Next(c, old(at).(stop := stopped), Wake)
      ensures stats == if stopped then Count(old(stats), Failed, |batch|) else old(stats)
    {
      if stopped {
        stop := true;
        Do(SetStop);
        stats := stats.(droppedFailed := stats.droppedFailed + |batch|);
      }
      Do(Wake);
    }

    /** One pass of `_deliver`'s loop: send, and unless the reply is conclusive wait and go on. */
    method Attempt(batch: seq<Event>, attempt: nat, r: Response) returns (done: bool, ghost waited: real)
      requires Valid() && !stop && 0.0 <= r.jitter <= 1.0
      requires at.worker.Sending? && at.worker.batch == batch && at.worker.attempt == attempt <= c.maxRetries
      modifies this
      ensures Valid()
      ensures done <==> Conclusive(c, r, attempt)
      ensures stop <==> r.stopped && Waits(c, r, attempt)
      ensures stats == (if done then Count(old(stats), Verdict(r), |batch|) else old(stats))
                       .(retries := old(stats.retries) + if Waits(c, r, attempt) then 1 else 0)
      ensures !done ==> at == old(at).(stats := stats, worker := Sending(batch, attempt + 1, waited))
      ensures done ==> at == old(at).(stats := stats, stop := stop, worker := Resolving(|batch|),
                         finished := old(at.finished) + [Batch(batch, Verdict(r), attempt + 1, waited)])
    {
      waited := at.worker.waited;
      done := Send(batch, attempt, r);
      if !done {
        waited := waited + at.worker.wait;
        Sleep(batch, attempt, r.stopped);
        done := r.stopped;
      }
    }

    /**
     The retry loop of `_deliver`, for an encodable batch with at least one attempt allowed; the last permitted
     attempt is always conclusive.
     */
    method SendUntilConclusive(batch: seq<Event>, replies: seq<Response>) returns (last: nat, ghost waited: real)
      requires Valid() && !stop && 0 <= c.maxRetries < |replies|
      requires forall r :: r in replies ==> 0.0 <= r.jitter <= 1.0
      requires at.worker == Sending(batch, 0, 0.0)
      modifies this
      ensures Valid() && last <= c.maxRetries && Conclusive(c, replies[last], last)
      ensures forall i :: 0 <= i < last ==> !Conclusive(c, replies[i], i)
      ensures at == old(at).(stats := stats, stop := stop, worker := Resolving(|batch|),
                             finished := old(at.finished) + [Batch(batch, Verdict(replies[last]), last + 1, waited)])
      ensures stats == Count(old(stats), Verdict(replies[last]), |batch|)
                       .(retries := old(stats.retries) + last + if Waits(c, replies[last], last) then 1 else 0)
      ensures stop ==> replies[last].stopped
    {
      var attempt := 0;
      waited := 0.0;
      while true
        invariant 0 <= attempt <= c.maxRetries
        invariant Valid() && !stop
        invariant at == old(at).(stats := stats, worker := Sending(batch, attempt, waited))
        invariant stats == old(stats).(retries := old(stats.retries) + attempt)
        invariant forall i :: 0 <= i < attempt ==> !Conclusive(c, replies[i], i)
        decreases c.maxRetries + 1 - attempt
      {
        assert replies[attempt] in replies;
        var done;
        done, waited := Attempt(batch, attempt, replies[attempt]);
        if done {
          return attempt, waited;
        }
        attempt := attempt + 1;
      }
    }

    /**
     `_deliver`: sends until the first conclusive reply, then counts the batch once. Accepted means a 2xx reply;
     a 408, 429, 500, 502, 503, 504 or a send that raised (0) is tried again while attempts are left and no stop
     ends the wait; any other reply rejects the batch.
     */
    method Deliver(batch: seq<Event>, net: Net) returns (ghost d: Batch)
      requires Valid() && Usable(c, net) && !stop
      requires at.worker == Filling(batch) && (|batch| >= c.batchSize || q == [])
      modifies this
      ensures Valid() && d.events == batch && Delivers(c, net, d)
      ensures d.sends == 0 <==> !net.encodes || c.maxRetries < 0
      ensures d.sends == 0 ==> d.outcome == Failed
      ensures d.sends <= |net.replies| && d.sends <= Max(0, c.maxRetries + 1)
      ensures d.outcome == Sent <==> d.sends > 0 && 200 <= net.replies[d.sends - 1].status <= 299
      ensures d.sends > 0 && net.replies[d.sends - 1].status in {0, 408, 429, 500, 502, 503, 504} ==>
                d.outcome == Failed && (net.replies[d.sends - 1].stopped || d.sends == c.maxRetries + 1)
      ensures
        (&& d.sends > 0 && !(200 <= net.replies[d.sends - 1].status <= 299)
         && net.replies[d.sends - 1].status !in {0, 408, 429, 500, 502, 503, 504}) ==> d.outcome == Rejected
      ensures forall i :: 0 <= i < d.sends - 1 ==>
                net.replies[i].status in {0, 408, 429, 500, 502, 503, 504} && !net.replies[i].stopped
      ensures at == old(at).(stats := stats, stop := stop, worker := Resolving(|batch|),
                             finished := old(at.finished) + [d])
      ensures stats == Count(old(stats), d.outcome, |batch|).(retries := old(stats.retries) + WaitCount(c, net, d))
      ensures stop ==> StopsIn(net)
    {
      Do(Encode(net.encodes));
      if !net.encodes || c.maxRetries < 0 {
        d := Batch(batch, Failed, 0, 0.0);
        stats := stats.(droppedFailed := stats.droppedFailed + |batch|);
        return;
      }
      var last;
      ghost var waited;
      last, waited := SendUntilConclusive(batch, net.replies);
      d := Batch(batch, Verdict(net.replies[last]), last + 1, waited);
    }

    /** `_run`'s batching: the first event, then whatever is queued up to the batch size. */
    method TakeBatch() returns (batch: seq<Event>)
      requires Valid() && at.worker.Getting? && q != []
      modifies this
      ensures Valid() && batch == old(q)[..Take(c, |old(q)|)] && q == old(q)[|batch|..]
      ensures batch != [] && batch + q == old(q) && (|batch| == 1 || |batch| <= c.batchSize)
      ensures at == old(at).(queue := q, worker := Filling(batch))
      ensures |batch| >= c.batchSize || q == []
    {
      batch := [q[0]];
      q := q[1..];
      Do(Get);
      while |batch| < c.batchSize && q != []
        invariant Valid() && 1 <= |batch| <= Take(c, |old(q)|)
        invariant batch == old(q)[..|batch|] && q == old(q)[|batch|..]
        invariant at == old(at).(queue := q, worker := Filling(batch))
        decreases |q|
      {
        batch := FillOne(batch);
      }
    }

    /** One more event into the batch. */
    method FillOne(batch: seq<Event>) returns (more: seq<Event>)
      requires Valid() && at.worker == Filling(batch) && |batch| < c.batchSize && q != []
      modifies this
      ensures Valid() && more == batch + [old(q)[0]] && q == old(q)[1..]
      ensures at == old(at).(queue := q, worker := Filling(more))
    {
      more := batch + [q[0]];
      q := q[1..];
      Do(Fill);
    }

    /** A batch from the queue to its outcome. */
    method DeliverNext(net: Net) returns (ghost d: Batch)
      requires Valid() && Usable(c, net) && !stop && at.worker.Getting? && q != []
      modifies this
      ensures Valid() && (stop ==> StopsIn(net))
      ensures Delivers(c, net, d) && d.events == old(q)[..Take(c, |old(q)|)]
      ensures q == old(q)[|d.events|..] && pending == old(pending) - |d.events|
      ensures stats == Count(old(stats), d.outcome, |d.events|).(retries := old(stats.retries) + WaitCount(c, net, d))
      ensures at == old(at).(queue := q, pending := pending, stop := stop, stats := stats, worker := AtTop,
                             finished := old(at.finished) + [d])
    {
      var batch := TakeBatch();
      d := Deliver(batch, net);
      pending := pending - |batch|;
      Do(Resolve);
    }

    /** The body of `_run`'s loop: take a batch, deliver it, resolve it; or time out on an empty queue. */
    method Iterate(net: Net) returns (ghost d: Option<Batch>)
      requires Valid() && Usable(c, net) && !stop && at.worker.AtTop?
      modifies this
      ensures Valid() && (stop ==> StopsIn(net))
      ensures old(q) == [] ==> d.None? && at == old(at)
      ensures old(q) != [] ==> d.Some? && Delivers(c, net, d.value) && d.value.events == old(q)[..Take(c, |old(q)|)]
      ensures d.Some? ==>
        && q == old(q)[|d.value.events|..] && pending == old(pending) - |d.value.events|
        && stats == Count(old(stats), d.value.outcome, |d.value.events|)
                    .(retries := old(stats.retries) + WaitCount(c, net, d.value))
        && at == old(at).(queue := q, pending := pending, stop := stop, stats := stats,
                          finished := old(at.finished) + [d.value])
    {
      Do(Top);
      if q == [] {
        Do(GetTimeout);
        return None;
      }
      ghost var b := DeliverNext(net);
      d := Some(b);
    }

    /**
     `flush`: while something is pending the caller waits, and each wait lasts until the worker has run one
     more iteration; when the environment runs out the deadline has passed.
     */
    method Flush(t: Tid, nets: seq<Net>) returns (ok: bool)
      requires Valid() && Idle(at, t) && !stop && at.worker.AtTop?
      requires forall net :: net in nets ==> Usable(c, net) && !StopsIn(net)
      modifies this
      ensures Valid() && at.worker.AtTop? && !stop && at.accepted == old(at.accepted)
      ensures ok <==> pending <= 0
      ensures ok ==> q == [] && Flatten(at.finished) == old(at.accepted)
      ensures old(at.entering) == map[] && old(at.bounced) == {} && |nets| >= |old(q)| ==> ok
    {
      Do(BeginFlush(t));
      var i := 0;
      while pending > 0
        invariant Valid() && 0 <= i <= |nets| && !stop && at.worker.AtTop? && t in at.flushing
        invariant at.accepted == old(at.accepted)
        invariant at.entering == old(at.entering) && at.bounced == old(at.bounced)
        invariant |q| <= Max(0, |old(q)| - i)
        decreases |nets| - i
      {
        PendingFacts();
        if i == |nets| {
          Do(FlushFalse(t));
          return false;
        }
        assert nets[i] in nets;
        ghost var d := Iterate(nets[i]);
        i := i + 1;
      }
      PendingFacts();
      Do(FlushTrue(t));
      return true;
    }

    /** The protocol invariant, brought to the object. */
    lemma PendingFacts()
      requires Valid()
      ensures pending <= 0 <==> at.entering == map[] && at.bounced == {} && Drained(at)
      ensures Ordered(at) && pending >= 0
    {
      InitInv(c);
      InvAlways(c, INIT, trace);
      PendingZeroIffDrained(c, at);
    }
  }
}
