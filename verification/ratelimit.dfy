/** The fixed-window rate limiter over expiring counters. Times are whole seconds. */
module RateLimiting {
  import opened Collections
  import opened Division
  import opened Numbers

  type Identity = string

  /** One stored counter and the time at which it stops existing. */
  datatype Cell = Cell(value: nat, expiry: int)

  /** One check that reached the store. */
  datatype Entry = Entry(identity: Identity, now: int, allowed: bool)

  // ----- bucket arithmetic -----------------------------------------------------------------------

  /** Where the bucket of `now` ends, and the retry time of a denial. */
  lemma BucketEnds(now: int, window: int)
    requires window > 0
    ensures now < BucketEnd(now / window, window) <= now + window
    ensures
      var retry := window - now % window;
      && 1 <= retry <= window && now + retry == BucketEnd(now / window, window)
      && (now + retry) % window == 0 && (now + retry) / window == now / window + 1
  {
    Span(now, window);
    var b := now / window;
    assert (b + 1) * window == b * window + window;
    QuotientIs((b + 1) * window, b + 1, window);
    Span((b + 1) * window, window);
  }

  function BucketEnd(b: int, window: int): int { (b + 1) * window }

  /** A window-long interval meets at most two buckets. */
  lemma InTwoBuckets(t: int, from: int, window: int)
    requires window > 0 && from <= t < from + window
    ensures t / window == from / window || t / window == from / window + 1
  {
    Span(from, window);
    var b := from / window;
    assert (b + 1) * window == b * window + window;
    if t < b * window + window {
      QuotientIs(t, b, window);
    } else {
      QuotientIs(t, b + 1, window);
    }
  }

  // ----- the ideal counter -----------------------------------------------------------------------

  /** How often `id` was checked in bucket `b`: the ideal counter. */
  function Seen(log: seq<Entry>, window: int, id: Identity, b: int): nat
    requires window > 0
  {
    if log == [] then 0
    else
      var e := log[|log| - 1];
      Seen(log[..|log| - 1], window, id, b) + if e.identity == id && e.now / window == b then 1 else 0
  }

  function AllowedIn(log: seq<Entry>, window: int, id: Identity, b: int): nat
    requires window > 0
  {
    if log == [] then 0
    else
      var e := log[|log| - 1];
      AllowedIn(log[..|log| - 1], window, id, b) + if e.identity == id && e.now / window == b && e.allowed then 1 else 0
  }

  /** Allowed checks of `id` at times in [from, to). */
  function AllowedBetween(log: seq<Entry>, id: Identity, from: int, to: int): nat {
    if log == [] then 0
    else
      var e := log[|log| - 1];
      AllowedBetween(log[..|log| - 1], id, from, to)
      + if e.identity == id && from <= e.now < to && e.allowed then 1 else 0
  }

  /** Each check was answered as an ideal per-bucket counter would. */
  predicate Ideal(log: seq<Entry>, count: int, window: int)
    requires window > 0
  {
    log == [] ||
    (var e := log[|log| - 1];
     && Ideal(log[..|log| - 1], count, window)
     && (e.allowed <==> Seen(log[..|log| - 1], window, e.identity, e.now / window) + 1 <= count))
  }

  /** A counter exists exactly for the buckets seen, is exact, and outlives its bucket. */
  ghost predicate Agrees(store: map<(Identity, int), Cell>, log: seq<Entry>, window: int)
    requires window > 0
  {
    forall id, b ::
      if Seen(log, window, id, b) == 0 then (id, b) !in store
      else (id, b) in store && store[(id, b)].value == Seen(log, window, id, b)
           && store[(id, b)].expiry > BucketEnd(b, window)
  }

  /** What INCR finds: a counter past its expiry is gone. */
  function Current(store: map<(Identity, int), Cell>, key: (Identity, int), now: int): nat {
    if key in store && now < store[key].expiry then store[key].value else 0
  }

  lemma CheckAgrees(store: map<(Identity, int), Cell>, log: seq<Entry>, window: int, id: Identity, now: int,
                    allowed: bool)
    requires window > 0 && Agrees(store, log, window)
    ensures
      var key := (id, now / window);
      && Current(store, key, now) == Seen(log, window, id, now / window)
      && Agrees(store[key := Cell(Current(store, key, now) + 1, now + window + 1)],
                log + [Entry(id, now, allowed)], window)
  {
    BucketEnds(now, window);
    var e := Entry(id, now, allowed);
    assert (log + [e])[..|log|] == log;
    forall i, b
      ensures Seen(log + [e], window, i, b) == Seen(log, window, i, b) + if i == id && b == now / window then 1 else 0
    {
    }
  }

  class RateLimit {
    const count: int
    const window: int
    var store: map<(Identity, int), Cell>
    ghost var log: seq<Entry>

    ghost predicate Valid()
      reads this
    {
      window > 0 && Ideal(log, count, window) && Agrees(store, log, window)
    }

    constructor (count: int, window: int)
      requires window > 0
      ensures Valid() && log == [] && this.count == count && this.window == window
    {
      this.count, this.window := count, window;
      store, log := map[], [];
    }

    /** INCR and EXPIRE in one pipeline. */
    method Increment(key: (Identity, int), now: int) returns (current: nat)
      modifies this`store
      ensures current == Current(old(store), key, now) + 1
      ensures store == old(store)[key := Cell(current, now + window + 1)]
    {
      current := Current(store, key, now) + 1;
      store := store[key := Cell(current, now + window + 1)];
    }

    /** `check`: fails open when the store cannot be reached, otherwise counts exactly. */
    method Check(identity: Identity, now: int, reachable: bool) returns (allowed: bool, remaining: int, retryAfter: int)
      requires Valid()
      modifies this
      ensures Valid()
      ensures !reachable ==> allowed && remaining == count && retryAfter == 0 && log == old(log)
      ensures reachable ==> log == old(log) + [Entry(identity, now, allowed)]
      ensures reachable ==>
        var prior := |set i | 0 <= i < |old(log)| && old(log)[i].identity == identity
                              && old(log)[i].now / window == now / window|;
        (allowed <==> prior < count) && remaining == Max(0, count - prior - 1)
      ensures allowed ==> retryAfter == 0
      ensures reachable && !allowed ==>
        && 1 <= retryAfter <= window && (now + retryAfter) % window == 0
        && (now + retryAfter) / window == now / window + 1
    {
      if !reachable {
        return true, count, 0;
      }
      var bucket := now / window;
      SeenMeans(log, window, identity, bucket);
      BucketEnds(now, window);
      CheckAgrees(store, log, window, identity, now, Seen(log, window, identity, bucket) + 1 <= count);
      var current := Increment((identity, bucket), now);
      allowed := current <= count;
      ghost var e := Entry(identity, now, allowed);
      assert (log + [e])[..|log|] == log;
      log := log + [e];
      if !allowed {
        return false, 0, window - now % window;
      }
      return true, Max(count - current, 0), 0;
    }
  }

  lemma {:induction false} SeenIs(log: seq<Entry>, window: int, id: Identity, b: int, found: set<int>)
    requires window > 0
    requires forall i :: i in found <==> 0 <= i < |log| && log[i].identity == id && log[i].now / window == b
    ensures Seen(log, window, id, b) == |found|
    decreases |log|
  {
    if log == [] {
      forall i: int ensures i !in found {
      }
      Empty(found);
    } else {
      var n := |log| - 1;
      RemoveOne(found, n);
      SeenIs(log[..n], window, id, b, found - {n});
    }
  }

  lemma SeenMeans(log: seq<Entry>, window: int, id: Identity, b: int)
    requires window > 0
    ensures Seen(log, window, id, b) == |set i | 0 <= i < |log| && log[i].identity == id && log[i].now / window == b|
  {
    SeenIs(log, window, id, b, set i | 0 <= i < |log| && log[i].identity == id && log[i].now / window == b);
  }

  // ----- bounds --------------------------------------------------------------------------------

  /** In every bucket the first `count` checks of an identity are allowed and no more. */
  lemma {:induction false} BucketAllowance(log: seq<Entry>, count: int, window: int, id: Identity, b: int)
    requires window > 0 && Ideal(log, count, window)
    ensures AllowedIn(log, window, id, b) == Min(Seen(log, window, id, b), Max(0, count))
    decreases |log|
  {
    if log != [] {
      BucketAllowance(log[..|log| - 1], count, window, id, b);
    }
  }

  lemma {:induction false} BetweenIsTwoBuckets(log: seq<Entry>, window: int, id: Identity, from: int)
    requires window > 0
    ensures AllowedBetween(log, id, from, from + window)
         <= AllowedIn(log, window, id, from / window) + AllowedIn(log, window, id, from / window + 1)
    decreases |log|
  {
    if log != [] {
      BetweenIsTwoBuckets(log[..|log| - 1], window, id, from);
      var t := log[|log| - 1].now;
      if from <= t < from + window {
        InTwoBuckets(t, from, window);
      }
    }
  }

  /** Over any checks: at most `count` allowed per bucket, at most twice that in any window-long interval. */
  lemma AllowanceBounds(log: seq<Entry>, count: int, window: int, id: Identity, from: int, b: int)
    requires window > 0 && Ideal(log, count, window)
    ensures AllowedIn(log, window, id, b) <= Max(0, count)
    ensures AllowedBetween(log, id, from, from + window) <= 2 * Max(0, count)
  {
    BucketAllowance(log, count, window, id, b);
    BucketAllowance(log, count, window, id, from / window);
    BucketAllowance(log, count, window, id, from / window + 1);
    BetweenIsTwoBuckets(log, window, id, from);
  }

  function Repeat(e: Entry, n: nat): seq<Entry> { seq(n, _ => e) }

  lemma OneMore(log: seq<Entry>, count: int, window: int, e: Entry)
    requires window > 0 && Ideal(log, count, window)
    requires e.allowed <==> Seen(log, window, e.identity, e.now / window) + 1 <= count
    ensures Ideal(log + [e], count, window)
    ensures Seen(log + [e], window, e.identity, e.now / window) == Seen(log, window, e.identity, e.now / window) + 1
  {
    assert (log + [e])[..|log|] == log;
  }

  /** `n` checks in an unused bucket, no more than the limit, are all allowed. */
  lemma {:induction false} Burst(log: seq<Entry>, count: nat, window: int, id: Identity, now: int, n: nat)
    requires window > 0 && Ideal(log, count, window) && n <= count && Seen(log, window, id, now / window) == 0
    ensures Ideal(log + Repeat(Entry(id, now, true), n), count, window)
    ensures Seen(log + Repeat(Entry(id, now, true), n), window, id, now / window) == n
    decreases n
  {
    var e := Entry(id, now, true);
    if n == 0 {
      assert log + Repeat(e, 0) == log;
    } else {
      Burst(log, count, window, id, now, n - 1);
      assert log + Repeat(e, n) == log + Repeat(e, n - 1) + [e];
      OneMore(log + Repeat(e, n - 1), count, window, e);
    }
  }

  lemma {:induction false} BurstCounts(log: seq<Entry>, window: int, id: Identity, now: int, n: nat, b: int,
                                       from: int, to: int)
    requires window > 0 && now / window != b && from <= now < to
    ensures Seen(log + Repeat(Entry(id, now, true), n), window, id, b) == Seen(log, window, id, b)
    ensures AllowedBetween(log + Repeat(Entry(id, now, true), n), id, from, to) == AllowedBetween(log, id, from, to) + n
    decreases n
  {
    var e := Entry(id, now, true);
    if n == 0 {
      assert log + Repeat(e, 0) == log;
    } else {
      BurstCounts(log, window, id, now, n - 1, b, from, to);
      var longer := log + Repeat(e, n);
      assert longer[..|longer| - 1] == log + Repeat(e, n - 1) && longer[|longer| - 1] == e;
    }
  }

  /** Twice the limit is reached: `count` checks just before a bucket ends and `count` just after. */
  lemma DoubleIsReached(count: nat, window: int, id: Identity)
    requires window > 1
    ensures
      var log := Repeat(Entry(id, window - 1, true), count) + Repeat(Entry(id, window, true), count);
      Ideal(log, count, window) && AllowedBetween(log, id, window - 1, 2 * window - 1) == 2 * count
  {
    var first := Repeat(Entry(id, window - 1, true), count);
    QuotientIs(window - 1, 0, window);
    QuotientIs(window, 1, window);
    assert [] + first == first;
    Burst([], count, window, id, window - 1, count);
    BurstCounts([], window, id, window - 1, count, 1, window - 1, 2 * window - 1);
    Burst(first, count, window, id, window, count);
    BurstCounts(first, window, id, window, count, 0, window - 1, 2 * window - 1);
  }
}
