/** Bucketed read paths: metric series and log histogram. Times are microseconds, steps are seconds. */
module Query {
  import opened Collections
  import opened Division
  import opened Numbers

  datatype Row = Row(ts: int, value: real)

  /** The number of whole steps between the start of the range and `ts`. */
  function Index(since: int, step: int, ts: int): int
    requires step > 0
  {
    (ts - since) / (step * SECOND)
  }

  /** The bucket of an instant is the one whose step-long interval contains it. */
  lemma IndexMeans(since: int, step: int, ts: int, k: int)
    requires step > 0
    ensures Index(since, step, ts) == k <==> since + k * step * 1_000_000 <= ts < since + (k + 1) * step * 1_000_000
  {
    var w := step * SECOND;
    Span(ts - since, w);
    assert k * step * 1_000_000 == k * w && (k + 1) * step * 1_000_000 == k * w + w;
    if k * w <= ts - since < k * w + w {
      QuotientIs(ts - since, k, w);
    }
  }

  // ----- metric series -----------------------------------------------------------------------

  /** The values whose rows fall into bucket `k`, in row order. */
  function Bucket(rows: seq<Row>, since: int, step: int, k: int): seq<real>
    requires step > 0
  {
    if rows == [] then []
    else
      var r := rows[|rows| - 1];
      Bucket(rows[..|rows| - 1], since, step, k) + if Index(since, step, r.ts) == k then [r.value] else []
  }

  function Values(rows: seq<Row>): seq<real> { seq(|rows|, i requires 0 <= i < |rows| => rows[i].value) }

  datatype How = Avg | Max | Min | Sum | Count | P95

  function Total(vs: seq<real>): real { if vs == [] then 0.0 else Total(vs[..|vs| - 1]) + vs[|vs| - 1] }

  function Largest(vs: seq<real>): real
    requires vs != []
  {
    if |vs| == 1 then vs[0]
    else var m := Largest(vs[..|vs| - 1]); if vs[|vs| - 1] > m then vs[|vs| - 1] else m
  }

  function Smallest(vs: seq<real>): real
    requires vs != []
  {
    if |vs| == 1 then vs[0]
    else var m := Smallest(vs[..|vs| - 1]); if vs[|vs| - 1] < m then vs[|vs| - 1] else m
  }

  predicate Less(a: real, b: real) { a < b }

  function Sorted(vs: seq<real>): (r: seq<real>)
    ensures |r| == |vs|
  {
    Sort(vs, Less)
  }

  /** The rank nearest to 95 percent of the way from the first to the last of `n` values; a tie goes to the even one. */
  function Rank95(n: nat): int
    requires n > 0
  {
    var q, r := 19 * (n - 1) / 20, 19 * (n - 1) % 20;
    if r < 10 || (r == 10 && q % 2 == 0) then q else q + 1
  }

  function Aggregate(vs: seq<real>, how: How): real {
    if vs == [] then 0.0
    else
      match how
      case Avg => Total(vs) / |vs| as real
      case Max => Largest(vs)
      case Min => Smallest(vs)
      case Sum => Total(vs)
      case Count => |vs| as real
      case P95 => Sorted(vs)[Rank95(|vs|)]
  }

  datatype Point = Point(ts: int, value: real)

  predicate Ascending(keys: seq<int>) { forall i, j :: 0 <= i < j < |keys| ==> keys[i] < keys[j] }

  /** `keys` lists the non-empty buckets in order. */
  ghost predicate KeysOf(rows: seq<Row>, since: int, step: int, keys: seq<int>)
    requires step > 0
  {
    Ascending(keys) && forall k :: k in keys <==> Bucket(rows, since, step, k) != []
  }

  method FillBuckets(rows: seq<Row>, since: int, step: int) returns (buckets: map<int, seq<real>>)
    requires step > 0
    ensures forall k :: k in buckets <==> Bucket(rows, since, step, k) != []
    ensures forall k :: k in buckets ==> buckets[k] == Bucket(rows, since, step, k)
  {
    buckets := map[];
    for i := 0 to |rows|
      invariant forall k :: k in buckets <==> Bucket(rows[..i], since, step, k) != []
      invariant forall k :: k in buckets ==> buckets[k] == Bucket(rows[..i], since, step, k)
    {
      assert rows[..i + 1][..i] == rows[..i];
      var idx := Index(since, step, rows[i].ts);
      buckets := buckets[idx := (if idx in buckets then buckets[idx] else []) + [rows[i].value]];
    }
    assert rows[..|rows|] == rows;
  }

  method SortedKeys(buckets: map<int, seq<real>>) returns (order: seq<int>)
    ensures Ascending(order) && forall k :: k in order <==> k in buckets
  {
    var found := Enumerate(buckets.Keys);
    order := SortBy(found, k => k);
    SameElements(found, order);
    forall k ensures k in order <==> k in buckets {
      assert k in order <==> k in Elements(order);
    }
  }

  method OrderedBuckets(rows: seq<Row>, since: int, step: int) returns (buckets: map<int, seq<real>>, order: seq<int>)
    requires step > 0
    ensures KeysOf(rows, since, step, order)
    ensures forall i :: 0 <= i < |order| ==>
      order[i] in buckets && buckets[order[i]] == Bucket(rows, since, step, order[i])
  {
    buckets := FillBuckets(rows, since, step);
    order := SortedKeys(buckets);
    assert forall i :: 0 <= i < |order| ==> order[i] in order;
  }

  function PointAt(rows: seq<Row>, since: int, step: int, how: How, k: int): Point
    requires step > 0
  {
    Point(since + k * step * SECOND, Aggregate(Bucket(rows, since, step, k), how))
  }

  /** How many of the values are at most `x`, and at least `x`. */
  ghost function AtMost(vs: seq<real>, x: real): nat { |set j | 0 <= j < |vs| && vs[j] <= x| }

  ghost function AtLeast(vs: seq<real>, x: real): nat { |set j | 0 <= j < |vs| && vs[j] >= x| }

  /** The value at the rank `k` nearest to 0.95 (n - 1) has `k + 1` values at or below it and `n - k` at or above it. */
  ghost predicate IsP95(vs: seq<real>, x: real) {
    x in vs && exists k: nat ::
      -10 <= 20 * k - 19 * (|vs| - 1) <= 10 && AtMost(vs, x) >= k + 1 && AtLeast(vs, x) >= |vs| - k
  }

  /** What the point of a non-empty bucket is, said of its values alone. */
  ghost predicate Summarises(vs: seq<real>, how: How, x: real) {
    && vs != []
    && match how
       case Avg => x * |vs| as real == Total(vs)
       case Max => x in vs && forall v :: v in vs ==> v <= x
       case Min => x in vs && forall v :: v in vs ==> x <= v
       case Sum => x == Total(vs)
       case Count => x == |vs| as real
       case P95 => IsP95(vs, x)
  }

  /**
   One point per non-empty bucket, at the bucket's start, in strictly increasing time: its average, its largest
   or smallest value, its sum, its size, or the value at the rank nearest to 95 percent of the way through it.
   */
  method MetricSeries(rows: seq<Row>, since: int, step: int, how: How) returns (points: seq<Point>, ghost keys: seq<int>)
    requires step > 0
    ensures KeysOf(rows, since, step, keys) && |points| == |keys|
    ensures forall i :: 0 <= i < |points| ==> points[i] == PointAt(rows, since, step, how, keys[i])
    ensures forall i, j :: 0 <= i < j < |points| ==> points[i].ts < points[j].ts
    ensures forall i :: 0 <= i < |points| ==> points[i].ts == since + keys[i] * step * 1_000_000
    ensures forall r :: r in rows ==>
              exists i :: 0 <= i < |points| && points[i].ts <= r.ts < points[i].ts + step * 1_000_000
    ensures forall i :: 0 <= i < |points| ==> Summarises(Bucket(rows, since, step, keys[i]), how, points[i].value)
  {
    points, keys := PlotPoints(rows, since, step, how);
    forall r | r in rows
      ensures exists i :: 0 <= i < |points| && points[i].ts <= r.ts < points[i].ts + step * 1_000_000
    {
      var i := RowPlotted(rows, since, step, keys, r);
      assert points[i] == PointAt(rows, since, step, how, keys[i]);
    }
    forall i | 0 <= i < |points|
      ensures Summarises(Bucket(rows, since, step, keys[i]), how, points[i].value)
    {
      assert keys[i] in keys;
      AggregateMeans(Bucket(rows, since, step, keys[i]), how);
    }
  }

  method PlotPoints(rows: seq<Row>, since: int, step: int, how: How) returns (points: seq<Point>, ghost keys: seq<int>)
    requires step > 0
    ensures KeysOf(rows, since, step, keys) && |points| == |keys|
    ensures forall i :: 0 <= i < |points| ==> points[i] == PointAt(rows, since, step, how, keys[i])
    ensures forall i, j :: 0 <= i < j < |points| ==> points[i].ts < points[j].ts
  {
    var buckets, order := OrderedBuckets(rows, since, step);
    keys := order;
    points := [];
    for i := 0 to |order|
      invariant |points| == i
      invariant forall j :: 0 <= j < i ==> points[j] == PointAt(rows, since, step, how, order[j])
    {
      var k := order[i];
      points := points + [Point(since + k * step * SECOND, Aggregate(buckets[k], how))];
    }
    PointsAscend(rows, since, step, how, order, points);
  }

  /** Every row has a point. */
  lemma RowPlotted(rows: seq<Row>, since: int, step: int, keys: seq<int>, r: Row) returns (i: nat)
    requires step > 0 && KeysOf(rows, since, step, keys) && r in rows
    ensures i < |keys|
    ensures since + keys[i] * step * 1_000_000 <= r.ts < since + keys[i] * step * 1_000_000 + step * 1_000_000
  {
    var k := Index(since, step, r.ts);
    BucketHolds(rows, since, step, r);
    i :| 0 <= i < |keys| && keys[i] == k;
    IndexMeans(since, step, r.ts, k);
    assert (k + 1) * step * 1_000_000 == k * step * 1_000_000 + step * 1_000_000;
  }

  lemma {:induction false} BucketHolds(rows: seq<Row>, since: int, step: int, r: Row)
    requires step > 0 && r in rows
    ensures r.value in Bucket(rows, since, step, Index(since, step, r.ts))
    decreases |rows|
  {
    if r != rows[|rows| - 1] {
      BucketHolds(rows[..|rows| - 1], since, step, r);
    }
  }

  // ----- what the aggregates are ---------------------------------------------------------------

  lemma {:induction false} ExtremesMean(vs: seq<real>)
    requires vs != []
    ensures Largest(vs) in vs && forall v :: v in vs ==> v <= Largest(vs)
    ensures Smallest(vs) in vs && forall v :: v in vs ==> Smallest(vs) <= v
    decreases |vs|
  {
    if |vs| > 1 {
      ExtremesMean(vs[..|vs| - 1]);
      assert vs == vs[..|vs| - 1] + [vs[|vs| - 1]];
    }
  }

  lemma AverageMeans(total: real, n: nat)
    requires n > 0
    ensures total / n as real * n as real == total
  {
  }

  lemma AtMostCounts(vs: seq<real>, x: real)
    ensures AtMost(vs, x) == HowMany(vs, (v: real) => v <= x)
  {
    HowManyIs(vs, (v: real) => v <= x, set j | 0 <= j < |vs| && vs[j] <= x);
  }

  lemma AtLeastCounts(vs: seq<real>, x: real)
    ensures AtLeast(vs, x) == HowMany(vs, (v: real) => v >= x)
  {
    HowManyIs(vs, (v: real) => v >= x, set j | 0 <= j < |vs| && vs[j] >= x);
  }

  lemma SortedAround(vs: seq<real>, k: nat)
    requires k < |vs|
    ensures Sorted(vs)[k] in vs
    ensures forall j :: 0 <= j <= k ==> Sorted(vs)[j] <= Sorted(vs)[k]
    ensures forall j :: k <= j < |vs| ==> Sorted(vs)[j] >= Sorted(vs)[k]
  {
    var s := Sorted(vs);
    SameMembers(s, vs);
    assert s[k] in s;
    assert forall i, j :: 0 <= i < j < |s| ==> !Less(s[j], s[i]);
  }

  lemma RankBelow(vs: seq<real>, k: nat)
    requires k < |vs|
    ensures AtMost(vs, Sorted(vs)[k]) >= k + 1
  {
    var s, x := Sorted(vs), Sorted(vs)[k];
    var holds := (v: real) => v <= x;
    SortedAround(vs, k);
    AllCount(s[..k + 1], holds);
    HowManyConcat(s[..k + 1], s[k + 1..], holds);
    assert s == s[..k + 1] + s[k + 1..];
    SortCounts(vs, Less, holds);
    AtMostCounts(vs, x);
  }

  lemma RankAbove(vs: seq<real>, k: nat)
    requires k < |vs|
    ensures AtLeast(vs, Sorted(vs)[k]) >= |vs| - k
  {
    var s, x := Sorted(vs), Sorted(vs)[k];
    var holds := (v: real) => v >= x;
    SortedAround(vs, k);
    AllCount(s[k..], holds);
    HowManyConcat(s[..k], s[k..], holds);
    assert s == s[..k] + s[k..];
    SortCounts(vs, Less, holds);
    AtLeastCounts(vs, x);
  }

  lemma P95Means(vs: seq<real>)
    requires vs != []
    ensures IsP95(vs, Aggregate(vs, P95))
  {
    var k := Rank95(|vs|);
    RankInside(|vs|);
    SortedAround(vs, k);
    RankBelow(vs, k);
    RankAbove(vs, k);
  }

  lemma AggregateMeans(vs: seq<real>, how: How)
    requires vs != []
    ensures Summarises(vs, how, Aggregate(vs, how))
  {
    match how
    case Avg => AverageMeans(Total(vs), |vs|);
    case P95 => P95Means(vs);
    case _ => ExtremesMean(vs);
  }

  lemma PointsAscend(rows: seq<Row>, since: int, step: int, how: How, keys: seq<int>, points: seq<Point>)
    requires step > 0 && Ascending(keys) && |points| == |keys|
    requires forall i :: 0 <= i < |points| ==> points[i] == PointAt(rows, since, step, how, keys[i])
    ensures forall i, j :: 0 <= i < j < |points| ==> points[i].ts < points[j].ts
  {
    forall i, j | 0 <= i < j < |points|
      ensures points[i].ts < points[j].ts
    {
      Spread(keys[i], keys[j], step);
    }
  }

  lemma Spread(a: int, b: int, step: int)
    requires a < b && step > 0
    ensures a * step * SECOND < b * step * SECOND
  {
    assert b * step - a * step == (b - a) * step;
    assert (b - a) * step > 0;
  }

  /** The buckets, one after the other in key order. */
  function Join(rows: seq<Row>, since: int, step: int, keys: seq<int>): seq<real>
    requires step > 0
  {
    if keys == [] then []
    else Join(rows, since, step, keys[..|keys| - 1]) + Bucket(rows, since, step, keys[|keys| - 1])
  }

  lemma {:induction false} JoinIgnores(rows: seq<Row>, since: int, step: int, keys: seq<int>)
    requires step > 0 && rows != [] && Index(since, step, rows[|rows| - 1].ts) !in keys
    ensures Join(rows, since, step, keys) == Join(rows[..|rows| - 1], since, step, keys)
    decreases |keys|
  {
    if keys != [] {
      JoinIgnores(rows, since, step, keys[..|keys| - 1]);
      assert keys[|keys| - 1] in keys;
    }
  }

  predicate ByTime(rows: seq<Row>) { forall i, j :: 0 <= i < j < |rows| ==> rows[i].ts <= rows[j].ts }

  lemma {:induction false} BucketBelow(rows: seq<Row>, since: int, step: int, k: int, last: int)
    requires step > 0 && Bucket(rows, since, step, k) != []
    requires forall i :: 0 <= i < |rows| ==> Index(since, step, rows[i].ts) <= last
    ensures k <= last
    decreases |rows|
  {
    if Index(since, step, rows[|rows| - 1].ts) != k {
      BucketBelow(rows[..|rows| - 1], since, step, k, last);
    }
  }

  lemma IndexMonotone(since: int, step: int, a: int, b: int)
    requires step > 0 && a <= b
    ensures Index(since, step, a) <= Index(since, step, b)
  {
    Monotone(a - since, b - since, step * SECOND);
  }

  lemma HeadIsMember(keys: seq<int>)
    ensures keys != [] ==> keys[0] in keys
  {
  }

  /** The buckets partition the rows: laid end to end they are the row values, in order, each exactly once. */
  lemma {:induction false} BucketsPartitionRows(rows: seq<Row>, since: int, step: int, keys: seq<int>)
    requires step > 0 && ByTime(rows) && KeysOf(rows, since, step, keys)
    ensures Join(rows, since, step, keys) == Values(rows)
    decreases |rows|
  {
    if rows == [] {
      HeadIsMember(keys);
    } else {
      var front := rows[..|rows| - 1];
      var frontKeys := PeelLast(rows, since, step, keys);
      BucketsPartitionRows(front, since, step, frontKeys);
      assert Values(rows) == Values(front) + [rows[|rows| - 1].value];
    }
  }

  /** Taking the last row away: the keys of the rest, and the value that goes. */
  lemma PeelLast(rows: seq<Row>, since: int, step: int, keys: seq<int>) returns (frontKeys: seq<int>)
    requires step > 0 && rows != [] && ByTime(rows) && KeysOf(rows, since, step, keys)
    ensures KeysOf(rows[..|rows| - 1], since, step, frontKeys) && ByTime(rows[..|rows| - 1])
    ensures Join(rows, since, step, keys)
         == Join(rows[..|rows| - 1], since, step, frontKeys) + [rows[|rows| - 1].value]
  {
    var front, k := rows[..|rows| - 1], Index(since, step, rows[|rows| - 1].ts);
    LastKey(rows, since, step, keys);
    FrontKeys(rows, since, step, keys);
    JoinGrows(rows, since, step, keys);
    frontKeys := if Bucket(front, since, step, k) == [] then keys[..|keys| - 1] else keys;
  }

  /** Laying out one more row: its value comes last. */
  lemma JoinGrows(rows: seq<Row>, since: int, step: int, keys: seq<int>)
    requires step > 0 && rows != [] && keys != [] && keys[|keys| - 1] == Index(since, step, rows[|rows| - 1].ts)
    requires keys[|keys| - 1] !in keys[..|keys| - 1]
    ensures
      var front, fewer := rows[..|rows| - 1], keys[..|keys| - 1];
      Join(rows, since, step, keys)
        == Join(front, since, step, if Bucket(front, since, step, keys[|keys| - 1]) == [] then fewer else keys)
           + [rows[|rows| - 1].value]
  {
    JoinIgnores(rows, since, step, keys[..|keys| - 1]);
  }

  lemma FewerKeys(keys: seq<int>)
    requires Ascending(keys) && keys != []
    ensures Ascending(keys[..|keys| - 1])
    ensures forall j :: j in keys[..|keys| - 1] <==> j in keys && j != keys[|keys| - 1]
  {
    assert keys == keys[..|keys| - 1] + [keys[|keys| - 1]];
  }

  lemma FrontKeys(rows: seq<Row>, since: int, step: int, keys: seq<int>)
    requires step > 0 && rows != [] && ByTime(rows) && KeysOf(rows, since, step, keys) && keys != []
    requires keys[|keys| - 1] == Index(since, step, rows[|rows| - 1].ts)
    ensures
      var front, k := rows[..|rows| - 1], keys[|keys| - 1];
      KeysOf(front, since, step, if Bucket(front, since, step, k) == [] then keys[..|keys| - 1] else keys)
  {
    var front, k := rows[..|rows| - 1], keys[|keys| - 1];
    FewerKeys(keys);
    forall j
      ensures j != k ==> Bucket(rows, since, step, j) == Bucket(front, since, step, j)
    {
      BucketFront(rows, since, step, j);
    }
  }

  lemma BucketFront(rows: seq<Row>, since: int, step: int, k: int)
    requires step > 0 && rows != []
    ensures Index(since, step, rows[|rows| - 1].ts) != k ==>
              Bucket(rows, since, step, k) == Bucket(rows[..|rows| - 1], since, step, k)
  {
  }

  /** The bucket of the last row is the last key, once. */
  lemma LastKey(rows: seq<Row>, since: int, step: int, keys: seq<int>)
    requires step > 0 && rows != [] && ByTime(rows) && KeysOf(rows, since, step, keys)
    ensures
      var k := Index(since, step, rows[|rows| - 1].ts);
      && keys != [] && keys[|keys| - 1] == k && k !in keys[..|keys| - 1]
  {
    var k := Index(since, step, rows[|rows| - 1].ts);
    assert Bucket(rows, since, step, k) != [] && k in keys;
    forall i | 0 <= i < |rows|
      ensures Index(since, step, rows[i].ts) <= k
    {
      IndexMonotone(since, step, rows[i].ts, rows[|rows| - 1].ts);
    }
    var last := keys[|keys| - 1];
    assert last in keys;
    BucketBelow(rows, since, step, last, k);
    assert forall j :: 0 <= j < |keys| - 1 ==> keys[j] < last;
    assert last == k;
  }

  lemma {:induction false} TotalConcat(a: seq<real>, b: seq<real>)
    ensures Total(a + b) == Total(a) + Total(b) && (|b| == 1 ==> Total(b) == b[0])
    decreases |b|
  {
    if b == [] {
      assert a + b == a;
    } else {
      assert (a + b)[..|a + b| - 1] == a + b[..|b| - 1];
      TotalConcat(a, b[..|b| - 1]);
    }
  }

  function PointTotal(rows: seq<Row>, since: int, step: int, keys: seq<int>, how: How): real
    requires step > 0
  {
    if keys == [] then 0.0
    else
      PointTotal(rows, since, step, keys[..|keys| - 1], how)
      + Aggregate(Bucket(rows, since, step, keys[|keys| - 1]), how)
  }

  lemma {:induction false} PointTotals(rows: seq<Row>, since: int, step: int, keys: seq<int>)
    requires step > 0
    ensures PointTotal(rows, since, step, keys, Count) == |Join(rows, since, step, keys)| as real
    ensures PointTotal(rows, since, step, keys, Sum) == Total(Join(rows, since, step, keys))
    decreases |keys|
  {
    if keys != [] {
      PointTotals(rows, since, step, keys[..|keys| - 1]);
      TotalConcat(Join(rows, since, step, keys[..|keys| - 1]), Bucket(rows, since, step, keys[|keys| - 1]));
    }
  }

  /** Count points add up to the number of rows, sum points to the total of the rows. */
  lemma SeriesConserves(rows: seq<Row>, since: int, step: int, keys: seq<int>)
    requires step > 0 && ByTime(rows) && KeysOf(rows, since, step, keys)
    ensures PointTotal(rows, since, step, keys, Count) == |rows| as real
    ensures PointTotal(rows, since, step, keys, Sum) == Total(Values(rows))
  {
    BucketsPartitionRows(rows, since, step, keys);
    PointTotals(rows, since, step, keys);
  }

  lemma {:induction false} ExtremesWithin(vs: seq<real>, lo: real, hi: real)
    requires vs != [] && Within(vs, lo, hi)
    ensures lo <= Smallest(vs) <= hi && lo <= Largest(vs) <= hi
    decreases |vs|
  {
    if |vs| > 1 {
      ExtremesWithin(vs[..|vs| - 1], lo, hi);
    }
  }

  function Times(n: nat, x: real): real { if n == 0 then 0.0 else Times(n - 1, x) + x }

  lemma {:induction false} TotalWithin(vs: seq<real>, lo: real, hi: real)
    requires Within(vs, lo, hi)
    ensures Times(|vs|, lo) <= Total(vs) <= Times(|vs|, hi)
    decreases |vs|
  {
    if vs != [] {
      TotalWithin(vs[..|vs| - 1], lo, hi);
    }
  }

  lemma {:induction false} TimesIs(n: nat, x: real)
    ensures Times(n, x) == n as real * x
    decreases n
  {
    if n > 0 {
      TimesIs(n - 1, x);
      assert n as real * x == (n - 1) as real * x + x;
    }
  }

  lemma Divide(total: real, n: nat, lo: real, hi: real)
    requires n > 0 && Times(n, lo) <= total <= Times(n, hi)
    ensures lo <= total / n as real <= hi
  {
    TimesIs(n, lo);
    TimesIs(n, hi);
    var m := total / n as real;
    assert m * n as real == total;
  }

  /** Average, minimum, maximum and p95 lie between the bucket's extremes. */
  lemma AggregateWithin(vs: seq<real>, how: How, lo: real, hi: real)
    requires vs != [] && how != Sum && how != Count && Within(vs, lo, hi)
    ensures lo <= Aggregate(vs, how) <= hi
  {
    match how
    case Avg =>
      TotalWithin(vs, lo, hi);
      Divide(Total(vs), |vs|, lo, hi);
    case P95 =>
      RankInside(|vs|);
      SortedWithin(vs, Rank95(|vs|), lo, hi);
    case _ => ExtremesWithin(vs, lo, hi);
  }

  lemma SortedWithin(vs: seq<real>, k: nat, lo: real, hi: real)
    requires k < |vs| && Within(vs, lo, hi)
    ensures lo <= Sorted(vs)[k] <= hi
  {
    SameMembers(Sorted(vs), vs);
    assert Sorted(vs)[k] in vs;
  }

  /** The p95 rank is inside the list and within half a place of 0.95 (n - 1). */
  lemma RankInside(n: nat)
    requires n > 0
    ensures 0 <= Rank95(n) < n && -10 <= 20 * Rank95(n) - 19 * (n - 1) <= 10
  {
  }

  // ----- log histogram -----------------------------------------------------------------------

  datatype Log = Log(ts: int, level: string)

  const NO_LOGS: map<string, nat> := map["DEBUG" := 0, "INFO" := 0, "WARN" := 0, "ERROR" := 0, "FATAL" := 0]

  function StepFor(minutes: nat, buckets: nat): int
    requires buckets > 0
  {
    if minutes * 60 / buckets > 1 then minutes * 60 / buckets else 1
  }

  function CountAt(rows: seq<Log>, since: int, step: int, k: int, level: string): nat
    requires step > 0
  {
    if rows == [] then 0
    else
      var r := rows[|rows| - 1];
      CountAt(rows[..|rows| - 1], since, step, k, level)
      + if Index(since, step, r.ts) == k && r.level == level then 1 else 0
  }

  function Tally(cell: map<string, nat>, level: string): nat { if level in cell then cell[level] else 0 }

  lemma {:induction false} CountAtIs(rows: seq<Log>, since: int, step: int, k: int, level: string, found: set<int>)
    requires step > 0
    requires forall i :: i in found <==> 0 <= i < |rows| && rows[i].level == level && Index(since, step, rows[i].ts) == k
    ensures CountAt(rows, since, step, k, level) == |found|
    decreases |rows|
  {
    if rows == [] {
      forall i: int ensures i !in found {
      }
      Empty(found);
    } else {
      var n := |rows| - 1;
      RemoveOne(found, n);
      CountAtIs(rows[..n], since, step, k, level, found - {n});
    }
  }

  /** A count is the number of logs of the level in the bucket's interval. */
  lemma CountAtMeans(rows: seq<Log>, since: int, step: int, k: int, level: string)
    requires step > 0
    ensures CountAt(rows, since, step, k, level)
         == |set i | 0 <= i < |rows| && rows[i].level == level
                     && since + k * step * 1_000_000 <= rows[i].ts < since + (k + 1) * step * 1_000_000|
  {
    var from, to := since + k * step * 1_000_000, since + (k + 1) * step * 1_000_000;
    forall i | 0 <= i < |rows|
      ensures Index(since, step, rows[i].ts) == k <==> from <= rows[i].ts < to
    {
      IndexMeans(since, step, rows[i].ts, k);
    }
    CountAtIs(rows, since, step, k, level, set i | 0 <= i < |rows| && rows[i].level == level && from <= rows[i].ts < to);
  }

  /** Every shown bucket counts exactly the logs of each level in its interval. */
  method LogHistogram(rows: seq<Log>, since: int, minutes: nat, buckets: nat) returns (shown: seq<map<string, nat>>)
    requires buckets > 0
    ensures |shown| == buckets
    ensures forall k, level :: 0 <= k < buckets ==>
              var step := Numbers.Max(1, minutes * 60 / buckets);
              (if level in shown[k] then shown[k][level] else 0)
                == |set i | 0 <= i < |rows| && rows[i].level == level
                            && since + k * step * 1_000_000 <= rows[i].ts < since + (k + 1) * step * 1_000_000|
    ensures forall k, level :: 0 <= k < buckets ==>
              Tally(shown[k], level) == CountAt(rows, since, StepFor(minutes, buckets), k, level)
  {
    var step := StepFor(minutes, buckets);
    var cells: map<int, map<string, nat>> := map[];
    for i := 0 to |rows|
      invariant forall k, level ::
        Tally(if k in cells then cells[k] else map[], level) == CountAt(rows[..i], since, step, k, level)
    {
      assert rows[..i + 1][..i] == rows[..i];
      var idx, level := Index(since, step, rows[i].ts), rows[i].level;
      var cell: map<string, nat> := if idx in cells then cells[idx] else NO_LOGS;
      var more: nat := Tally(cell, level) + 1;
      cells := cells[idx := cell[level := more]];
    }
    assert rows[..|rows|] == rows;
    shown := [];
    for k := 0 to buckets
      invariant |shown| == k
      invariant forall j, level :: 0 <= j < k ==> Tally(shown[j], level) == CountAt(rows, since, step, j, level)
    {
      shown := shown + [if k in cells then cells[k] else map[]];
    }
    forall k, level | 0 <= k < buckets
      ensures (if level in shown[k] then shown[k][level] else 0)
           == |set i | 0 <= i < |rows| && rows[i].level == level
                       && since + k * step * 1_000_000 <= rows[i].ts < since + (k + 1) * step * 1_000_000|
    {
      CountAtMeans(rows, since, step, k, level);
      assert Tally(shown[k], level) == CountAt(rows, since, step, k, level);
    }
  }

  /** A log is lost past the last bucket exactly when it lies beyond all the whole steps. */
  lemma LostIff(since: int, step: int, buckets: nat, ts: int)
    requires step > 0
    ensures Index(since, step, ts) >= buckets <==> ts >= since + buckets * step * SECOND
  {
    assert buckets * step * SECOND == buckets * (step * SECOND);
    QuotientBounds(ts - since, buckets, step * SECOND);
  }

  /**
   With no more buckets than seconds, as the endpoint always has it, exactly the last `seconds % buckets`
   seconds of the range are lost, and its closing instant always is.
   */
  lemma LostTail(since: int, minutes: nat, buckets: nat, ts: int)
    requires 0 < buckets <= minutes * 60 && since <= ts <= since + minutes * 60 * 1_000_000
    ensures !(0 <= Index(since, StepFor(minutes, buckets), ts) < buckets)
       <==> since + minutes * 60 * 1_000_000 - ts <= (minutes * 60 % buckets) * 1_000_000
  {
    var step, seconds := StepFor(minutes, buckets), minutes * 60;
    QuotientBounds(ts - since, 0, step * SECOND);
    LostIff(since, step, buckets, ts);
    StepWhole(seconds, buckets);
    Span(seconds, buckets);
    assert buckets * step == seconds - seconds % buckets;
  }

  lemma StepWhole(seconds: nat, buckets: nat)
    requires 0 < buckets <= seconds
    ensures seconds / buckets >= 1
  {
    QuotientBounds(seconds, 1, buckets);
  }

  /**
   The step is floored, and the range includes its end: every log of the range falls into a shown bucket
   exactly when there are more buckets than seconds.
   */
  lemma NothingFallsOffIff(since: int, minutes: nat, buckets: nat)
    requires buckets > 0
    ensures (forall ts :: since <= ts <= since + minutes * 60 * SECOND ==>
               0 <= Index(since, StepFor(minutes, buckets), ts) < buckets)
       <==> buckets > minutes * 60
  {
    var step, seconds := StepFor(minutes, buckets), minutes * 60;
    if buckets > seconds {
      StepOne(seconds, buckets);
      forall ts | since <= ts <= since + seconds * SECOND
        ensures 0 <= Index(since, step, ts) < buckets
      {
        QuotientBounds(ts - since, 0, step * SECOND);
        QuotientBounds(ts - since, buckets, step * SECOND);
      }
    } else {
      var end := since + seconds * SECOND;
      LostTail(since, minutes, buckets, end);
      Span(seconds, buckets);
      assert !(0 <= Index(since, step, end) < buckets);
    }
  }

  lemma StepOne(seconds: nat, buckets: nat)
    requires buckets > seconds
    ensures seconds / buckets == 0
  {
    QuotientIs(seconds, 0, buckets);
  }
}
