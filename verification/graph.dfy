/** The dependency graph of one environment: loading, breadth-first closures, blast radius. */
module DependencyGraph {
  import opened Collections
  import opened Walks

  type Adjacency = map<Id, set<Id>>

  function Neighbours(adj: Adjacency, v: Id): set<Id> { if v in adj then adj[v] else {} }

  function EdgesOf(adj: Adjacency): (E: Edges)
    ensures forall a, b :: (a, b) in E <==> b in Neighbours(adj, a)
  {
    set a, b | a in adj && b in adj[a] :: (a, b)
  }

  // ----- breadth-first search --------------------------------------------------------------

  /** Some entry of `xs` is `v` and is tagged with at most `k`. */
  ghost predicate Held(xs: seq<Id>, tags: seq<nat>, v: Id, k: nat)
    requires |xs| == |tags|
  {
    exists i :: 0 <= i < |xs| && xs[i] == v && tags[i] <= k
  }

  /** Every tag is the length of a walk from `start` to its entry. */
  ghost predicate Tagged(E: Edges, start: Id, xs: seq<Id>, tags: seq<nat>) {
    |xs| == |tags| && forall i :: 0 <= i < |xs| ==> tags[i] > 0 && HasWalk(E, start, xs[i], tags[i])
  }

  predicate Ascending(tags: seq<nat>) { forall i, j :: 0 <= i < j < |tags| ==> tags[i] <= tags[j] }

  /** Each edge out of a node with tag `k` leads to the start or to an entry with tag at most `k + 1`. */
  ghost predicate Followed(E: Edges, start: Id, u: Id, k: nat, order: seq<Id>, ot: seq<nat>, q: seq<Id>, qt: seq<nat>)
    requires |order| == |ot| && |q| == |qt|
  {
    forall w :: (u, w) in E ==> w == start || Held(order, ot, w, k + 1) || Held(q, qt, w, k + 1)
  }

  ghost predicate AllFollowed(E: Edges, start: Id, order: seq<Id>, ot: seq<nat>, q: seq<Id>, qt: seq<nat>)
    requires |order| == |ot| && |q| == |qt|
  {
    && Followed(E, start, start, 0, order, ot, q, qt)
    && forall i :: 0 <= i < |order| ==> Followed(E, start, order[i], ot[i], order, ot, q, qt)
  }

  /** The entries come in order of their distance from `start`. */
  ghost predicate NearestFirst(E: Edges, start: Id, order: seq<Id>) {
    forall i, j, d, e ::
      (0 <= i < j < |order| && IsDistance(E, start, order[i], d) && IsDistance(E, start, order[j], e)) ==> d <= e
  }

  /** With the queue empty, the visit order holds everything reachable, tagged with its distance. */
  lemma {:induction false} QueueEmptyHolds(E: Edges, start: Id, order: seq<Id>, ot: seq<nat>, v: Id, n: nat)
    requires |order| == |ot| && AllFollowed(E, start, order, ot, [], [])
    requires HasWalk(E, start, v, n) && v != start
    ensures Held(order, ot, v, n)
    decreases n
  {
    var m :| HasWalk(E, start, m, n - 1) && (m, v) in E;
    if m != start {
      QueueEmptyHolds(E, start, order, ot, m, n - 1);
      var i :| 0 <= i < |order| && order[i] == m && ot[i] <= n - 1;
      assert Followed(E, start, order[i], ot[i], order, ot, [], []);
    }
  }

  /** At the end the tags are distances, so the order is complete and nearest first. */
  lemma VisitedIsReached(E: Edges, start: Id, order: seq<Id>, ot: seq<nat>)
    requires |order| == |ot| && AllFollowed(E, start, order, ot, [], []) && Tagged(E, start, order, ot)
    requires Ascending(ot) && Distinct(order) && start !in order
    ensures forall v :: v in order <==> v != start && Reaches(E, start, v)
    ensures NearestFirst(E, start, order)
  {
    forall v | v != start && Reaches(E, start, v)
      ensures v in order
    {
      var n :| n > 0 && HasWalk(E, start, v, n);
      QueueEmptyHolds(E, start, order, ot, v, n);
    }
    forall i, d | 0 <= i < |order| && IsDistance(E, start, order[i], d)
      ensures d == ot[i]
    {
      QueueEmptyHolds(E, start, order, ot, order[i], d);
    }
  }

  /** Neighbours of a node a walk away are one edge further. */
  lemma StartTagged(adj: Adjacency, start: Id, u: Id, k: nat, more: seq<Id>)
    requires HasWalk(EdgesOf(adj), start, u, k) && Elements(more) == Neighbours(adj, u)
    ensures Tagged(EdgesOf(adj), start, more, seq(|more|, _ => k + 1))
    ensures forall w :: w in more <==> (u, w) in EdgesOf(adj)
  {
    forall i | 0 <= i < |more|
      ensures HasWalk(EdgesOf(adj), start, more[i], k + 1)
    {
      assert more[i] in Elements(more);
    }
    forall w ensures w in more <==> (u, w) in EdgesOf(adj) {
      assert w in more <==> w in Elements(more);
    }
  }

  lemma AscendingTail(ot: seq<nat>, qt: seq<nat>)
    requires Ascending(ot + qt) && qt != []
    ensures Ascending(ot + qt[1..]) && Ascending(ot + [qt[0]] + qt[1..])
    ensures forall j :: 0 <= j < |qt| ==> qt[0] <= qt[j]
  {
    var all, rest := ot + qt, ot + qt[1..];
    forall j | 0 < j < |qt|
      ensures qt[0] <= qt[j]
    {
      assert all[|ot|] <= all[|ot| + j];
    }
    assert ot + [qt[0]] + qt[1..] == all;
    forall i, j | 0 <= i < j < |rest|
      ensures rest[i] <= rest[j]
    {
      assert rest[i] == all[if i < |ot| then i else i + 1] && rest[j] == all[if j < |ot| then j else j + 1];
    }
  }

  lemma AscendingMore(ot: seq<nat>, qt: seq<nat>, tag: nat, n: nat)
    requires Ascending(ot + qt) && ot != [] && ot[|ot| - 1] == tag && forall j :: 0 <= j < |qt| ==> qt[j] <= tag + 1
    ensures Ascending(ot + (qt + seq(n, _ => tag + 1)))
  {
    var all, more := ot + qt, ot + (qt + seq(n, _ => tag + 1));
    forall i, j | 0 <= i < j < |more|
      ensures more[i] <= more[j]
    {
      assert all[|ot| - 1] == tag && (i < |ot| - 1 ==> all[i] <= all[|ot| - 1]);
      assert i < |all| ==> more[i] == all[i];
      assert j < |all| ==> more[j] == all[j];
    }
  }

  /** The search's invariant: entries tagged with walk lengths, in order, nothing forgotten. */
  ghost predicate Searching(E: Edges, start: Id, order: seq<Id>, ot: seq<nat>, q: seq<Id>, qt: seq<nat>) {
    && Tagged(E, start, order, ot) && Tagged(E, start, q, qt)
    && Ascending(ot + qt) && (forall j :: 0 <= j < |q| ==> qt[j] <= qt[0] + 1)
    && AllFollowed(E, start, order, ot, q, qt)
  }

  /** Popping the start or a node already visited loses nothing. */
  lemma SkipKeeps(E: Edges, start: Id, order: seq<Id>, ot: seq<nat>, q: seq<Id>, qt: seq<nat>)
    requires Searching(E, start, order, ot, q, qt) && q != [] && (q[0] == start || q[0] in order)
    ensures Searching(E, start, order, ot, q[1..], qt[1..])
  {
    AscendingTail(ot, qt);
    forall w, k | w != start && Held(q, qt, w, k)
      ensures Held(order, ot, w, k) || Held(q[1..], qt[1..], w, k)
    {
      var j :| 0 <= j < |q| && q[j] == w && qt[j] <= k;
      if j == 0 {
        var i :| 0 <= i < |order| && order[i] == w;
        assert (ot + qt)[i] <= (ot + qt)[|ot|];
      } else {
        assert q[1..][j - 1] == w && qt[1..][j - 1] <= k;
      }
    }
    FollowedMoves(E, start, order, ot, q, qt, order, ot, q[1..], qt[1..]);
  }

  /** If every held entry is still held, every followed edge is still followed. */
  lemma FollowedMoves(E: Edges, start: Id, order: seq<Id>, ot: seq<nat>, q: seq<Id>, qt: seq<nat>,
                      order': seq<Id>, ot': seq<nat>, q': seq<Id>, qt': seq<nat>)
    requires |order| == |ot| && |q| == |qt| && |order'| == |ot'| && |q'| == |qt'|
    requires AllFollowed(E, start, order, ot, q, qt)
    requires forall w, k :: w != start && Held(q, qt, w, k) ==> Held(order', ot', w, k) || Held(q', qt', w, k)
    requires forall w, k :: w != start && Held(order, ot, w, k) ==> Held(order', ot', w, k)
    ensures Followed(E, start, start, 0, order', ot', q', qt')
    ensures forall i :: 0 <= i < |order| ==> Followed(E, start, order[i], ot[i], order', ot', q', qt')
  {
  }

  /** Entries move from the head of the queue to the end of the order; none is lost. */
  lemma HeldMoves(order: seq<Id>, ot: seq<nat>, q: seq<Id>, qt: seq<nat>, more: seq<Id>, mt: seq<nat>, w: Id, k: nat)
    requires |order| == |ot| && |q| == |qt| && q != [] && |more| == |mt|
    ensures Held(q, qt, w, k) ==> Held(order + [q[0]], ot + [qt[0]], w, k) || Held(q[1..] + more, qt[1..] + mt, w, k)
    ensures Held(order, ot, w, k) ==> Held(order + [q[0]], ot + [qt[0]], w, k)
    ensures Held(more, mt, w, k) ==> Held(q[1..] + more, qt[1..] + mt, w, k)
  {
    if Held(q, qt, w, k) {
      var j :| 0 <= j < |q| && q[j] == w && qt[j] <= k;
      if j == 0 {
        assert (order + [q[0]])[|order|] == w;
      } else {
        assert (q[1..] + more)[j - 1] == w;
      }
    }
    if Held(order, ot, w, k) {
      var i :| 0 <= i < |order| && order[i] == w && ot[i] <= k;
      assert (order + [q[0]])[i] == w;
    }
    if Held(more, mt, w, k) {
      var j :| 0 <= j < |more| && more[j] == w && mt[j] <= k;
      assert (q[1..] + more)[|q| - 1 + j] == w;
    }
  }

  lemma VisitFollows(E: Edges, start: Id, order: seq<Id>, ot: seq<nat>, q: seq<Id>, qt: seq<nat>,
                     more: seq<Id>, mt: seq<nat>)
    requires |order| == |ot| && |q| == |qt| && q != [] && AllFollowed(E, start, order, ot, q, qt)
    requires |more| == |mt| && forall w :: (q[0], w) in E ==> Held(more, mt, w, qt[0] + 1)
    ensures AllFollowed(E, start, order + [q[0]], ot + [qt[0]], q[1..] + more, qt[1..] + mt)
  {
    var order', ot', q', qt' := order + [q[0]], ot + [qt[0]], q[1..] + more, qt[1..] + mt;
    forall w, k
      ensures Held(q, qt, w, k) ==> Held(order', ot', w, k) || Held(q', qt', w, k)
      ensures Held(order, ot, w, k) ==> Held(order', ot', w, k)
      ensures Held(more, mt, w, k) ==> Held(q', qt', w, k)
    {
      HeldMoves(order, ot, q, qt, more, mt, w, k);
    }
    FollowedMoves(E, start, order, ot, q, qt, order', ot', q', qt');
    assert Followed(E, start, q[0], qt[0], order', ot', q', qt');
    forall i | 0 <= i < |order'|
      ensures Followed(E, start, order'[i], ot'[i], order', ot', q', qt')
    {
      if i < |order| {
        assert Followed(E, start, order[i], ot[i], order', ot', q', qt');
      }
    }
  }

  /** Popping a new node: it enters the order, and its neighbours enter the queue one step further out. */
  lemma VisitKeeps(E: Edges, start: Id, order: seq<Id>, ot: seq<nat>, q: seq<Id>, qt: seq<nat>, more: seq<Id>)
    requires Searching(E, start, order, ot, q, qt) && q != []
    requires forall w :: w in more <==> (q[0], w) in E
    requires Tagged(E, start, more, seq(|more|, _ => qt[0] + 1))
    ensures Searching(E, start, order + [q[0]], ot + [qt[0]], q[1..] + more, qt[1..] + seq(|more|, _ => qt[0] + 1))
  {
    var mt := seq(|more|, _ => qt[0] + 1);
    AscendingTail(ot, qt);
    AscendingMore(ot + [qt[0]], qt[1..], qt[0], |more|);
    TaggedJoins(E, start, order, ot, [q[0]], [qt[0]]);
    TaggedJoins(E, start, q[1..], qt[1..], more, mt);
    assert forall j :: 0 <= j < |q| - 1 + |more| ==> qt[0] <= (qt[1..] + mt)[j] <= qt[0] + 1;
    forall w | (q[0], w) in E
      ensures Held(more, mt, w, qt[0] + 1)
    {
      var j :| 0 <= j < |more| && more[j] == w;
      assert mt[j] <= qt[0] + 1;
    }
    VisitFollows(E, start, order, ot, q, qt, more, mt);
  }

  lemma TaggedJoins(E: Edges, start: Id, xs: seq<Id>, xt: seq<nat>, ys: seq<Id>, yt: seq<nat>)
    requires Tagged(E, start, xs, xt) && Tagged(E, start, ys, yt)
    ensures Tagged(E, start, xs + ys, xt + yt)
  {
  }

  /**
   `_bfs`: nodes are marked when popped, so the queue may hold duplicates; still every node reachable from
   `start`, other than `start` itself, is returned once, in non-decreasing distance.
   */
  method Bfs(start: Id, adj: Adjacency) returns (order: seq<Id>)
    ensures Distinct(order)
    ensures forall v :: v in order <==> v != start && Reaches(EdgesOf(adj), start, v)
    ensures NearestFirst(EdgesOf(adj), start, order)
  {
    ghost var E := EdgesOf(adj);
    ghost var nodes := set e | e in E :: e.1;
    var seen: set<Id> := {};
    order := [];
    var q := Enumerate(Neighbours(adj, start));
    ghost var ot: seq<nat>, qt: seq<nat> := [], seq(|q|, _ => 1);
    StartTagged(adj, start, start, 0, q);
    StartSearching(E, start, q);
    while q != []
      invariant |order| == |ot| && |q| == |qt| && Searching(E, start, order, ot, q, qt)
      invariant seen == Elements(order) && Distinct(order) && start !in order
      invariant forall v :: v in q ==> v in nodes
      decreases nodes - seen, |q|
    {
      var node := q[0];
      if node in seen || node == start {
        SkipKeeps(E, start, order, ot, q, qt);
        q, qt := q[1..], qt[1..];
        continue;
      }
      var more := Enumerate(Neighbours(adj, node));
      StartTagged(adj, start, node, qt[0], more);
      VisitKeeps(E, start, order, ot, q, qt, more);
      AppendNew(order, node);
      seen := seen + {node};
      order, ot := order + [node], ot + [qt[0]];
      q, qt := q[1..] + more, qt[1..] + seq(|more|, _ => qt[0] + 1);
    }
    assert ot + qt == ot;
    VisitedIsReached(E, start, order, ot);
  }

  lemma StartSearching(E: Edges, start: Id, q: seq<Id>)
    requires forall w :: w in q <==> (start, w) in E
    requires Tagged(E, start, q, seq(|q|, _ => 1))
    ensures Searching(E, start, [], [], q, seq(|q|, _ => 1))
  {
    forall w | (start, w) in E
      ensures Held(q, seq(|q|, _ => 1), w, 1)
    {
      var j :| 0 <= j < |q| && q[j] == w;
      assert seq(|q|, _ => 1)[j] <= 1;
    }
  }

  // ----- closures --------------------------------------------------------------------------

  /** Everything reachable from `s`, leaving out `s` itself. */
  ghost function Reached(E: Edges, s: Id): set<Id> {
    set e | e in E && e.1 != s && Reaches(E, s, e.1) :: e.1
  }

  lemma ReachedMeans(E: Edges, s: Id, v: Id)
    ensures v in Reached(E, s) <==> v != s && Reaches(E, s, v)
  {
    if v != s && Reaches(E, s, v) {
      var n :| n > 0 && HasWalk(E, s, v, n);
      var m :| HasWalk(E, s, m, n - 1) && (m, v) in E;
      assert (m, v).1 == v;
    }
  }

  lemma ReachedIs(E: Edges, s: Id, order: seq<Id>)
    requires forall v :: v in order <==> v != s && Reaches(E, s, v)
    ensures Elements(order) == Reached(E, s)
  {
    forall v ensures v in Elements(order) <==> v in Reached(E, s) {
      ReachedMeans(E, s, v);
    }
  }

  // ----- the graph -------------------------------------------------------------------------

  datatype Service = Service(name: string, tier: int)

  datatype Dependency = Dependency(upstream: Id, downstream: Id, critical: bool)

  datatype Graph = Graph(services: map<Id, Service>, dependsOn: Adjacency, dependents: Adjacency, criticalEdges: Edges)

  /** The dependency rows with both ends in the environment. */
  function Kept(services: map<Id, Service>, rows: seq<Dependency>): Edges {
    set r | r in rows && r.upstream in services && r.downstream in services :: (r.upstream, r.downstream)
  }

  function KeptCritical(services: map<Id, Service>, rows: seq<Dependency>): Edges {
    set r | r in rows && r.critical && r.upstream in services && r.downstream in services :: (r.upstream, r.downstream)
  }

  /** `dependents` is `depends_on` turned round. */
  ghost predicate Transposed(g: Graph) { EdgesOf(g.dependents) == Transpose(EdgesOf(g.dependsOn)) }

  /** One more neighbour of `k`. */
  function Link(adj: Adjacency, k: Id, v: Id): (r: Adjacency)
    ensures EdgesOf(r) == EdgesOf(adj) + {(k, v)}
  {
    adj[k := Neighbours(adj, k) + {v}]
  }

  function Inside(services: map<Id, Service>, e: Dependency): Edges {
    if e.upstream in services && e.downstream in services then {(e.upstream, e.downstream)} else {}
  }

  lemma KeptGrows(services: map<Id, Service>, rows: seq<Dependency>, i: nat)
    requires i < |rows|
    ensures Kept(services, rows[..i + 1]) == Kept(services, rows[..i]) + Inside(services, rows[i])
    ensures KeptCritical(services, rows[..i + 1])
         == KeptCritical(services, rows[..i]) + if rows[i].critical then Inside(services, rows[i]) else {}
  {
    assert rows[..i + 1] == rows[..i] + [rows[i]];
  }

  /** Adds one edge in both directions. */
  function LinkBoth(g: Graph, a: Id, b: Id): (r: Graph)
    requires Transposed(g)
    ensures Transposed(r) && EdgesOf(r.dependsOn) == EdgesOf(g.dependsOn) + {(a, b)}
  {
    g.(dependsOn := Link(g.dependsOn, a, b), dependents := Link(g.dependents, b, a))
  }

  ghost predicate Recorded(rows: seq<Dependency>, a: Id, b: Id) {
    exists r :: r in rows && r.upstream == a && r.downstream == b
  }

  ghost predicate CriticalRecorded(rows: seq<Dependency>, a: Id, b: Id) {
    exists r :: r in rows && r.critical && r.upstream == a && r.downstream == b
  }

  /** `load_graph`: exactly the edges inside the environment, in both directions. */
  method LoadGraph(services: map<Id, Service>, rows: seq<Dependency>) returns (g: Graph)
    ensures g.services == services && Transposed(g)
    ensures EdgesOf(g.dependsOn) == Kept(services, rows) && g.criticalEdges == KeptCritical(services, rows)
    ensures forall a, b :: a in g.dependsOn && b in g.dependsOn[a] <==>
              a in g.services && b in g.services && Recorded(rows, a, b)
    ensures forall a, b :: b in g.dependents && a in g.dependents[b] <==> a in g.dependsOn && b in g.dependsOn[a]
    ensures forall a, b :: (a, b) in g.criticalEdges <==>
              a in g.services && b in g.services && CriticalRecorded(rows, a, b)
  {
    g := LinkAll(services, rows);
    forall a, b
      ensures a in g.dependsOn && b in g.dependsOn[a] <==> a in g.services && b in g.services && Recorded(rows, a, b)
    {
      LoadedEdge(g, rows, a, b);
    }
    forall a, b
      ensures b in g.dependents && a in g.dependents[b] <==> a in g.dependsOn && b in g.dependsOn[a]
    {
      LoadedEdge(g, rows, a, b);
    }
    forall a, b
      ensures (a, b) in g.criticalEdges <==> a in g.services && b in g.services && CriticalRecorded(rows, a, b)
    {
      LoadedEdge(g, rows, a, b);
    }
  }

  method LinkAll(services: map<Id, Service>, rows: seq<Dependency>) returns (g: Graph)
    ensures g.services == services && Transposed(g)
    ensures EdgesOf(g.dependsOn) == Kept(services, rows) && g.criticalEdges == KeptCritical(services, rows)
  {
    g := Graph(services, map[], map[], {});
    for i := 0 to |rows|
      invariant g.services == services && Transposed(g)
      invariant EdgesOf(g.dependsOn) == Kept(services, rows[..i])
      invariant g.criticalEdges == KeptCritical(services, rows[..i])
    {
      var e := rows[i];
      KeptGrows(services, rows, i);
      if e.upstream !in services || e.downstream !in services {
        continue;
      }
      g := LinkBoth(g, e.upstream, e.downstream);
      if e.critical {
        g := g.(criticalEdges := g.criticalEdges + {(e.upstream, e.downstream)});
      }
    }
    assert rows[..|rows|] == rows;
  }

  /** What the graph of the rows records about one pair of services. */
  lemma LoadedEdge(g: Graph, rows: seq<Dependency>, a: Id, b: Id)
    requires Transposed(g) && EdgesOf(g.dependsOn) == Kept(g.services, rows)
    requires g.criticalEdges == KeptCritical(g.services, rows)
    ensures a in g.dependsOn && b in g.dependsOn[a] <==> a in g.services && b in g.services && Recorded(rows, a, b)
    ensures b in g.dependents && a in g.dependents[b] <==> a in g.dependsOn && b in g.dependsOn[a]
    ensures (a, b) in g.criticalEdges <==> a in g.services && b in g.services && CriticalRecorded(rows, a, b)
  {
    assert a in g.dependsOn && b in g.dependsOn[a] <==> (a, b) in EdgesOf(g.dependsOn);
    assert b in g.dependents && a in g.dependents[b] <==> (b, a) in EdgesOf(g.dependents);
    if (a, b) in Kept(g.services, rows) {
      var r :| r in rows && r.upstream in g.services && r.downstream in g.services && (r.upstream, r.downstream) == (a, b);
      assert r.upstream == a;
    }
    if (a, b) in KeptCritical(g.services, rows) {
      var r :| r in rows && r.critical && r.upstream in g.services && r.downstream in g.services
            && (r.upstream, r.downstream) == (a, b);
      assert r.upstream == a;
    }
  }

  /** y is in x's downstream closure exactly when x is in y's dependents closure. */
  lemma ClosuresDual(g: Graph, x: Id, y: Id)
    requires Transposed(g)
    ensures y in Reached(EdgesOf(g.dependsOn), x) <==> x in Reached(EdgesOf(g.dependents), y)
  {
    ReachedMeans(EdgesOf(g.dependsOn), x, y);
    ReachedMeans(EdgesOf(g.dependents), y, x);
    ReachesTransposed(EdgesOf(g.dependsOn), x, y);
  }

  // ----- blast radius ----------------------------------------------------------------------

  datatype BlastRadius = BlastRadius(
    direct: seq<Id>, indirect: seq<Id>, downstream: seq<Id>, userFacing: set<string>, total: nat)

  /**
   `Graph.blast_radius`, with ids where the source goes on to look up names. Direct and indirect dependents
   are disjoint and make up the closure; their sizes add up to the total exactly when the service does not
   depend on itself, which the catalogue refuses to record.
   */
  method ComputeBlastRadius(g: Graph, sid: Id) returns (r: BlastRadius)
    ensures Elements(r.direct) == Neighbours(g.dependents, sid) && Distinct(r.direct)
    ensures forall i, j :: 0 <= i < j < |r.direct| ==> r.direct[i] < r.direct[j]
    ensures Distinct(r.indirect) && Elements(r.direct) !! Elements(r.indirect)
    ensures Elements(r.direct) + Elements(r.indirect) - {sid} == Reached(EdgesOf(g.dependents), sid)
    ensures r.total == |Reached(EdgesOf(g.dependents), sid)|
    ensures |r.direct| + |r.indirect| == r.total <==> (sid, sid) !in EdgesOf(g.dependents)
    ensures Distinct(r.downstream) && Elements(r.downstream) == Reached(EdgesOf(g.dependsOn), sid)
    ensures forall name :: name in r.userFacing <==>
              (exists v ::
                 v in Reached(EdgesOf(g.dependents), sid) && v in g.services && g.services[v] == Service(name, 1))
  {
    var direct := Enumerate(Neighbours(g.dependents, sid));
    var sorted := SortBy(direct, v => v);
    SameElements(direct, sorted);
    var full := Bfs(sid, g.dependents);
    ReachedIs(EdgesOf(g.dependents), sid, full);
    var indirect := Without(full, sorted);
    var downstream := Bfs(sid, g.dependsOn);
    ReachedIs(EdgesOf(g.dependsOn), sid, downstream);
    PartsCover(EdgesOf(g.dependents), sid, sorted, indirect, full);
    DistinctSize(full);
    r := BlastRadius(sorted, indirect, downstream, UserFacing(g, full), |full|);
  }

  /** The names of the tier-1 services among `ids`. */
  function UserFacing(g: Graph, ids: seq<Id>): set<string> {
    set v | v in ids && v in g.services && g.services[v].tier == 1 :: g.services[v].name
  }

  /** The closure without the direct dependents, in its order. */
  method Without(full: seq<Id>, direct: seq<Id>) returns (indirect: seq<Id>)
    requires Distinct(full)
    ensures Distinct(indirect) && forall v :: v in indirect <==> v in full && v !in direct
  {
    indirect := [];
    for i := 0 to |full|
      invariant Distinct(indirect)
      invariant forall v :: v in indirect <==> v in full[..i] && v !in direct
    {
      assert full[i] !in full[..i];
      assert full[..i + 1] == full[..i] + [full[i]];
      if full[i] !in direct {
        AppendNew(indirect, full[i]);
        indirect := indirect + [full[i]];
      }
    }
    assert full[..|full|] == full;
  }

  lemma PartsCover(E: Edges, sid: Id, direct: seq<Id>, indirect: seq<Id>, full: seq<Id>)
    requires forall v :: v in Elements(direct) <==> (sid, v) in E
    requires Elements(full) == Reached(E, sid) && Distinct(direct) && Distinct(indirect) && Distinct(full)
    requires forall v :: v in indirect <==> v in full && v !in direct
    ensures Elements(direct) !! Elements(indirect)
    ensures Elements(direct) + Elements(indirect) - {sid} == Elements(full)
    ensures |direct| + |indirect| == |full| <==> (sid, sid) !in E
  {
    var D, I, F := Elements(direct), Elements(indirect), Elements(full);
    forall v | v in D && v != sid
      ensures v in F
    {
      EdgeReaches(E, sid, v);
      ReachedMeans(E, sid, v);
    }
    assert sid !in F by { ReachedMeans(E, sid, sid); }
    assert forall v :: v in I <==> v in F && v !in D;
    forall v ensures v in D + I - {sid} <==> v in F {
    }
    DistinctSize(direct);
    DistinctSize(indirect);
    DistinctSize(full);
    assert |D + I| == |D| + |I|;
    if sid in D {
      assert D + I == F + {sid};
    } else {
      assert D + I == F;
    }
  }
}
