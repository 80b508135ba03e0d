/** The Redis circuit breaker: single-threaded runs of the three guarded calls. Times are monotonic seconds. */
module CircuitBreaker {
  const BREAKER_SECONDS := 15.0

  /** One client call: `start` is the clock reading of the check that let it through. */
  datatype Call = Call(start: real, end: real, failed: bool)

  predicate InOrder(calls: seq<Call>) {
    && (forall i :: 0 <= i < |calls| ==> calls[i].start <= calls[i].end)
    && forall i, j :: 0 <= i < j < |calls| ==> calls[i].end <= calls[j].start
  }

  /** After a failed call no call of any kind starts for the breaker's time. */
  predicate Backed(calls: seq<Call>) {
    forall i, j :: 0 <= i < j < |calls| && calls[i].failed ==> calls[j].start >= calls[i].end + BREAKER_SECONDS
  }

  class Breaker {
    const injected: bool
    var openUntil: real
    var connected: bool
    ghost var calls: seq<Call>
    ghost var clock: real

    ghost predicate Valid()
      reads this
    {
      !injected && InOrder(calls) && Backed(calls)
      && (forall i :: 0 <= i < |calls| ==> calls[i].end <= clock)
      && (forall i :: 0 <= i < |calls| && calls[i].failed ==>
            calls[i].end + BREAKER_SECONDS <= openUntil || calls[i].end + BREAKER_SECONDS <= clock)
    }

    constructor ()
      ensures Valid() && calls == [] && openUntil == 0.0 && clock == 0.0
    {
      injected, openUntil, connected := false, 0.0, false;
      calls, clock := [], 0.0;
    }

    predicate IsOpen(now: real)
      reads this
    {
      !injected && now < openUntil
    }

    method Trip(now: real)
      modifies this`openUntil
      ensures openUntil == if injected then old(openUntil) else now + BREAKER_SECONDS
    {
      if !injected {
        openUntil := now + BREAKER_SECONDS;
      }
    }

    method Reset()
      modifies this`openUntil
      ensures openUntil == 0.0
    {
      openUntil := 0.0;
    }

    /** False stands for the raised _BreakerOpen. */
    method GetClient(now: real) returns (ok: bool)
      modifies this`connected
      ensures ok <==> !IsOpen(now)
      ensures ok ==> connected
    {
      if IsOpen(now) {
        return false;
      }
      if !connected {
        connected := true;
      }
      return true;
    }

    /**
     The shape `publish_event` and `broadcast` share: `now` is read by the breaker check, the client call ends
     at `end` with or without an error.
     */
    method GuardedCall(now: real, end: real, fails: bool) returns (done: bool)
      requires Valid() && clock <= now <= end
      modifies this
      ensures Valid()
      ensures now < old(openUntil) ==> !done && calls == old(calls) && openUntil == old(openUntil) && clock == now
      ensures now >= old(openUntil) ==> calls == old(calls) + [Call(now, end, fails)] && (done <==> !fails)
      ensures now >= old(openUntil) ==> openUntil == (if fails then end + 15.0 else 0.0) && clock == end
    {
      var ok := GetClient(now);
      if !ok {
        clock := now;
        return false;
      }
      Conclude(now, end, fails);
      done := !fails;
    }

    /** The client call that `GetClient` let through, and what it does to the breaker. */
    method Conclude(now: real, end: real, fails: bool)
      requires Valid() && clock <= now <= end && !IsOpen(now)
      modifies this
      ensures Valid() && calls == old(calls) + [Call(now, end, fails)] && clock == end
      ensures openUntil == if fails then end + BREAKER_SECONDS else 0.0
    {
      Recorded(now, end, fails);
      calls := calls + [Call(now, end, fails)];
      clock := end;
      if fails {
        Trip(end);
      } else {
        Reset();
      }
    }

    /** A call let through at `now` comes late enough after every failed one. */
    lemma Recorded(now: real, end: real, fails: bool)
      requires Valid() && clock <= now <= end && !IsOpen(now)
      ensures InOrder(calls + [Call(now, end, fails)]) && Backed(calls + [Call(now, end, fails)])
      ensures forall i :: 0 <= i < |calls| && calls[i].failed ==> calls[i].end + BREAKER_SECONDS <= now
    {
    }

    /**
     `is_healthy` checks the breaker twice, at `first` and again inside `get_client` at `now`. Its handler
     would trip the breaker on _BreakerOpen too, but on one thread the second check cannot fail.
     */
    method IsHealthy(first: real, now: real, end: real, fails: bool) returns (healthy: bool)
      requires Valid() && clock <= first <= now <= end
      modifies this
      ensures Valid()
      ensures first < old(openUntil) ==> !healthy && calls == old(calls) && openUntil == old(openUntil) && clock == first
      ensures first >= old(openUntil) ==> calls == old(calls) + [Call(now, end, fails)] && (healthy <==> !fails)
      ensures first >= old(openUntil) ==> openUntil == (if fails then end + 15.0 else 0.0) && clock == end
    {
      if IsOpen(first) {
        clock := first;
        return false;
      }
      clock := first;
      healthy := GuardedCall(now, end, fails);
    }
  }

  function Failures(calls: seq<Call>): nat {
    if calls == [] then 0 else Failures(calls[..|calls| - 1]) + if calls[|calls| - 1].failed then 1 else 0
  }

  /** Between the starts of two calls there are 15 seconds for every failed call from the first up to the last. */
  lemma {:induction false} FailuresTakeTime(calls: seq<Call>, i: nat, j: nat)
    requires InOrder(calls) && Backed(calls) && i <= j < |calls|
    ensures calls[j].start - calls[i].start >= BREAKER_SECONDS * Failures(calls[i..j]) as real
    decreases j
  {
    if i < j {
      FailuresTakeTime(calls, i, j - 1);
      assert calls[i..j][..j - i - 1] == calls[i..j - 1];
      assert calls[i..j][j - i - 1] == calls[j - 1];
      assert calls[j - 1].end <= calls[j].start;
    } else {
      assert calls[i..j] == [];
    }
  }

  /** If `n` calls failed from the `i`-th to the `j`-th, both of these among them, they span 15 * (n - 1) seconds. */
  lemma FailedCallsAreSpread(calls: seq<Call>, i: nat, j: nat)
    requires InOrder(calls) && Backed(calls) && i <= j < |calls| && calls[i].failed && calls[j].failed
    ensures calls[j].start - calls[i].start >= 15.0 * (Failures(calls[i..j + 1]) - 1) as real
  {
    FailuresTakeTime(calls, i, j);
    assert calls[i..j + 1][..j - i] == calls[i..j];
  }
}
