/** The layered layout of the service graph: a memoised depth with a cycle cut, then columns and rows. */
module Layout {
  import opened Collections
  import opened Walks

  datatype Node = Node(id: Id, tier: int)

  datatype Edge = Edge(source: Id, target: Id)

  function EdgeSet(es: seq<Edge>): (E: Edges)
    ensures forall a, b :: (a, b) in E <==> Edge(a, b) in es
  {
    set e | e in es :: (e.source, e.target)
  }

  function Targets(es: seq<Edge>, id: Id): (ts: seq<Id>)
    ensures forall t :: t in ts <==> Edge(id, t) in es
  {
    if es == [] then []
    else
      var rest := Targets(es[..|es| - 1], id);
      assert forall t :: Edge(id, t) in es <==> Edge(id, t) in es[..|es| - 1] || es[|es| - 1] == Edge(id, t);
      if es[|es| - 1].source == id then rest + [es[|es| - 1].target] else rest
  }

  // ----- what the memo means -----------------------------------------------------------------

  /** `n` is the length of a walk from `a`. */
  ghost predicate SomeWalk(E: Edges, a: Id, n: nat) { exists b :: HasWalk(E, a, b, n) }

  /** No walk from `a` is longer than `n`. */
  ghost predicate NoLonger(E: Edges, a: Id, n: nat) {
    forall b, k: nat :: HasWalk(E, a, b, k) ==> k <= n
  }

  /** Every edge out of a settled node goes to a shallower settled node, or lies on a cycle. */
  ghost predicate Descends(E: Edges, depth: map<Id, nat>, visiting: set<Id>) {
    forall a, t :: a in depth && (a, t) in E ==>
      (t in depth && depth[t] < depth[a]) || (Reaches(E, t, a) && (t in depth || t in visiting))
  }

  /** No cycle can be reached from `a`. */
  ghost predicate AcyclicFrom(E: Edges, a: Id) { forall b :: b == a || Reaches(E, a, b) ==> !Reaches(E, b, b) }

  /** Depths are walk lengths; where no cycle can be reached, of the longest walk. */
  ghost predicate Measured(E: Edges, depth: map<Id, nat>) {
    forall a :: a in depth ==> SomeWalk(E, a, depth[a]) && (AcyclicFrom(E, a) ==> NoLonger(E, a, depth[a]))
  }

  lemma AcyclicBelow(E: Edges, id: Id, t: Id)
    requires (id, t) in E && AcyclicFrom(E, id)
    ensures AcyclicFrom(E, t) && !Reaches(E, t, id)
  {
    EdgeReaches(E, id, t);
    forall b | b == t || Reaches(E, t, b)
      ensures !Reaches(E, b, b)
    {
      if b != t {
        ReachesTransitive(E, id, t, b);
      }
    }
    if Reaches(E, t, id) {
      ReachesTransitive(E, id, t, id);
    }
  }

  predicate Extends(before: map<Id, nat>, after: map<Id, nat>) {
    forall a :: a in before ==> a in after && after[a] == before[a]
  }

  /** All nodes being visited lead to `id`. */
  ghost predicate Above(E: Edges, visiting: set<Id>, id: Id) { forall v :: v in visiting ==> Reaches(E, v, id) }

  lemma AboveMoves(E: Edges, visiting: set<Id>, id: Id, t: Id)
    requires Above(E, visiting, id) && (id, t) in E
    ensures Above(E, visiting + {id}, t)
  {
    EdgeReaches(E, id, t);
    forall v | v in visiting
      ensures Reaches(E, v, t)
    {
      ReachesTransitive(E, v, id, t);
    }
  }

  lemma WalkLonger(E: Edges, id: Id, t: Id, n: nat)
    requires (id, t) in E && SomeWalk(E, t, n)
    ensures SomeWalk(E, id, n + 1)
  {
    var b :| HasWalk(E, t, b, n);
    EdgeReaches(E, id, t);
    WalkConcat(E, id, t, b, 1, n);
  }

  /** If every target's walks are at most `n - 1` long, the node's own are at most `n` long. */
  lemma TargetsBound(E: Edges, id: Id, n: nat)
    requires forall t :: (id, t) in E ==> n > 0 && NoLonger(E, t, n - 1)
    ensures NoLonger(E, id, n)
  {
    forall b, k: nat | HasWalk(E, id, b, k)
      ensures k <= n
    {
      if k > 0 {
        var t := FirstEdge(E, id, b, k);
        assert NoLonger(E, t, n - 1);
      }
    }
  }

  /** The targets handled so far are settled below `val`, or are being visited. */
  ghost predicate Handled(E: Edges, id: Id, ts: seq<Id>, val: nat, depth: map<Id, nat>, visiting: set<Id>) {
    forall t :: t in ts ==>
      || (t in depth && depth[t] < val && (AcyclicFrom(E, t) ==> NoLonger(E, t, val - 1)))
      || (t in visiting && Reaches(E, t, id))
  }

  lemma Settle(E: Edges, id: Id, ts: seq<Id>, val: nat, depth: map<Id, nat>, visiting: set<Id>)
    requires Descends(E, depth, visiting + {id}) && Measured(E, depth) && id !in depth
    requires Handled(E, id, ts, val, depth, visiting + {id}) && SomeWalk(E, id, val)
    requires forall t :: t in ts <==> (id, t) in E
    ensures Descends(E, depth[id := val], visiting) && Measured(E, depth[id := val])
  {
    if AcyclicFrom(E, id) {
      forall t | (id, t) in E
        ensures val > 0 && NoLonger(E, t, val - 1)
      {
        assert t in ts;
        AcyclicBelow(E, id, t);
      }
      TargetsBound(E, id, val);
    }
    forall t | (id, t) in E
      ensures (t in depth[id := val] && depth[id := val][t] < val)
           || (Reaches(E, t, id) && (t in depth[id := val] || t in visiting))
    {
      assert t in ts;
    }
  }

  class Layering {
    const edges: seq<Edge>
    ghost const universe: set<Id>
    var depth: map<Id, nat>
    var visiting: set<Id>

    ghost predicate Valid()
      reads this
    {
      && (forall e :: e in edges ==> e.source in universe && e.target in universe)
      && visiting <= universe && depth.Keys !! visiting
      && Descends(EdgeSet(edges), depth, visiting) && Measured(EdgeSet(edges), depth)
    }

    constructor (edges: seq<Edge>, ghost ids: set<Id>)
      ensures Valid() && this.edges == edges && depth == map[] && visiting == {} && ids <= universe
    {
      this.edges := edges;
      universe := ids + (set e | e in edges :: e.source) + (set e | e in edges :: e.target);
      depth, visiting := map[], {};
    }

    /** Settles the listed nodes, one after the other. */
    method SettleAll(nodes: seq<Node>)
      requires Valid() && visiting == {} && forall n :: n in nodes ==> n.id in universe
      modifies this
      ensures Valid() && visiting == {} && forall n :: n in nodes ==> n.id in depth
    {
      for i := 0 to |nodes|
        invariant Valid() && visiting == {}
        invariant forall n :: n in nodes[..i] ==> n.id in depth
      {
        assert nodes[i] in nodes;
        assert nodes[..i + 1] == nodes[..i] + [nodes[i]];
        var _ := Depth(nodes[i].id);
      }
      assert nodes[..|nodes|] == nodes;
    }

    /** The inner `d`: it terminates on any graph, measured by the nodes not yet being visited. */
    method Depth(id: Id) returns (r: nat)
      requires Valid() && id in universe && Above(EdgeSet(edges), visiting, id)
      modifies this
      ensures Valid() && visiting == old(visiting) && Extends(old(depth), depth)
      ensures id in visiting ==> r == 0 && depth == old(depth)
      ensures id !in visiting ==> id in depth && depth[id] == r
      decreases universe - visiting
    {
      if id in depth {
        return depth[id];
      }
      if id in visiting {
        return 0;
      }
      ghost var E := EdgeSet(edges);
      visiting := visiting + {id};
      var outs := Targets(edges, id);
      var val := 0;
      assert HasWalk(E, id, id, 0);
      for k := 0 to |outs|
        invariant Valid() && visiting == old(visiting) + {id} && Extends(old(depth), depth)
        invariant Handled(E, id, outs[..k], val, depth, visiting) && SomeWalk(E, id, val)
      {
        assert outs[k] in outs;
        ghost var before, beforeVal := depth, val;
        AboveMoves(E, old(visiting), id, outs[k]);
        var x := Depth(outs[k]);
        if 1 + x > val {
          val := 1 + x;
        }
        HandledGrows(E, id, outs, k, x, beforeVal, val, before, depth, visiting);
      }
      assert outs[..|outs|] == outs;
      Settle(E, id, outs, val, depth, old(visiting));
      visiting := visiting - {id};
      depth := depth[id := val];
      assert visiting == old(visiting);
      return val;
    }
  }

  lemma HandledGrows(E: Edges, id: Id, outs: seq<Id>, k: nat, x: nat, val: nat, val': nat,
                     depth: map<Id, nat>, depth': map<Id, nat>, visiting: set<Id>)
    requires k < |outs| && (id, outs[k]) in E && val' == if 1 + x > val then 1 + x else val
    requires Handled(E, id, outs[..k], val, depth, visiting) && SomeWalk(E, id, val)
    requires Extends(depth, depth') && Measured(E, depth') && Above(E, visiting, outs[k])
    requires outs[k] in visiting ==> x == 0
    requires outs[k] !in visiting ==> outs[k] in depth' && depth'[outs[k]] == x
    requires id in visiting && forall v :: v in visiting ==> v == id || Reaches(E, v, id)
    ensures Handled(E, id, outs[..k + 1], val', depth', visiting) && SomeWalk(E, id, val')
  {
    var t := outs[k];
    if t in visiting {
      assert HasWalk(E, t, t, 0);
    }
    WalkLonger(E, id, t, x);
    assert outs[..k + 1] == outs[..k] + [t];
  }

  // ----- columns and rows --------------------------------------------------------------------

  const COLUMN_WIDTH := 210
  const ROW_HEIGHT := 92

  datatype Point = Point(x: int, y: int)

  predicate Before(a: Node, b: Node) { a.tier < b.tier || (a.tier == b.tier && a.id < b.id) }

  /** The last place of `id` in the list, or -1: rows are assigned in list order, the last assignment stays. */
  function Row(list: seq<Node>, id: Id): (r: int)
    ensures -1 <= r < |list| && (r >= 0 ==> list[r].id == id)
    ensures forall i :: r < i < |list| ==> list[i].id != id
  {
    if list == [] then -1
    else if list[|list| - 1].id == id then |list| - 1
    else Row(list[..|list| - 1], id)
  }

  function At(x: int, row: int): Point { Point(x, row * ROW_HEIGHT + 40) }

  method PlaceColumn(list: seq<Node>, x: int, pos: map<Id, Point>) returns (r: map<Id, Point>)
    ensures forall id :: id in r <==> id in pos || Row(list, id) >= 0
    ensures forall id :: id in r ==> r[id] == if Row(list, id) >= 0 then At(x, Row(list, id)) else pos[id]
  {
    r := pos;
    for i := 0 to |list|
      invariant forall id :: id in r <==> id in pos || Row(list[..i], id) >= 0
      invariant forall id :: id in r ==> r[id] == if Row(list[..i], id) >= 0 then At(x, Row(list[..i], id)) else pos[id]
    {
      assert list[..i + 1][..i] == list[..i];
      r := r[list[i].id := At(x, i)];
    }
    assert list[..|list|] == list;
  }

  // ----- the layout ----------------------------------------------------------------------------

  /** The nodes of `nodes` whose depth is `c`, in order. */
  function Column(nodes: seq<Node>, depth: map<Id, nat>, c: nat): (r: seq<Node>)
    ensures forall n :: n in r <==> n in nodes && n.id in depth && depth[n.id] == c
  {
    if nodes == [] then []
    else
      var front, n := nodes[..|nodes| - 1], nodes[|nodes| - 1];
      assert nodes == front + [n];
      if n.id in depth && depth[n.id] == c then Column(front, depth, c) + [n] else Column(front, depth, c)
  }

  function Ids(nodes: seq<Node>): set<Id> { set n | n in nodes :: n.id }

  predicate OneNodePerId(nodes: seq<Node>) { forall m, n :: m in nodes && n in nodes && m.id == n.id ==> m == n }

  predicate Apart(pos: map<Id, Point>) { forall a, b :: a in pos && b in pos && a != b ==> pos[a] != pos[b] }

  /** Every listed node shallower than `c` has its place: the column of its depth, and a row of its own. */
  ghost predicate PlacedBelow(nodes: seq<Node>, depth: map<Id, nat>, maxCol: nat, c: nat, pos: map<Id, Point>) {
    && (forall id :: id in pos <==> id in Ids(nodes) && id in depth && depth[id] < c)
    && (forall id :: id in pos ==> pos[id].x == (maxCol - depth[id]) * COLUMN_WIDTH + 40)
    && Apart(pos)
  }

  lemma ColumnIds(nodes: seq<Node>, depth: map<Id, nat>, c: nat, list: seq<Node>, id: Id)
    requires forall n :: n in list <==> n in Column(nodes, depth, c)
    ensures Row(list, id) >= 0 <==> id in Ids(nodes) && id in depth && depth[id] == c
  {
    if Row(list, id) >= 0 {
      assert list[Row(list, id)] in list;
    }
    if id in Ids(nodes) && id in depth && depth[id] == c {
      var n :| n in nodes && n.id == id;
      assert n in list;
    }
  }

  lemma ColumnPlaced(nodes: seq<Node>, depth: map<Id, nat>, maxCol: nat, c: nat, pos: map<Id, Point>,
                     list: seq<Node>, pos': map<Id, Point>)
    requires PlacedBelow(nodes, depth, maxCol, c, pos) && c <= maxCol
    requires forall n :: n in list <==> n in Column(nodes, depth, c)
    requires forall id :: id in pos' <==> id in pos || Row(list, id) >= 0
    requires forall id :: id in pos' ==>
      pos'[id] == if Row(list, id) >= 0 then At((maxCol - c) * COLUMN_WIDTH + 40, Row(list, id)) else pos[id]
    ensures PlacedBelow(nodes, depth, maxCol, c + 1, pos')
  {
    forall id
      ensures Row(list, id) >= 0 <==> id in Ids(nodes) && id in depth && depth[id] == c
    {
      ColumnIds(nodes, depth, c, list, id);
    }
    forall a, b | a in pos' && b in pos' && a != b
      ensures pos'[a] != pos'[b]
    {
      if depth[a] == c && depth[b] == c {
        assert list[Row(list, a)].id == a && list[Row(list, b)].id == b;
      }
    }
  }

  /** When ids are unique the row of a listed node is its own. */
  lemma RowIs(nodes: seq<Node>, list: seq<Node>, n: Node)
    requires OneNodePerId(nodes) && n in nodes && (forall m :: m in list ==> m in nodes) && Row(list, n.id) >= 0
    ensures list[Row(list, n.id)] == n
  {
    assert list[Row(list, n.id)] in list;
  }

  /** The nodes of column `c` that stand no later than `n`. */
  ghost function UpTo(depth: map<Id, nat>, c: nat, n: Node): Node -> bool {
    (m: Node) => m.id in depth && depth[m.id] == c && !Before(n, m)
  }

  lemma {:induction false} ColumnCounts(nodes: seq<Node>, depth: map<Id, nat>, c: nat, n: Node)
    ensures HowMany(Column(nodes, depth, c), (m: Node) => !Before(n, m)) == HowMany(nodes, UpTo(depth, c, n))
    decreases |nodes|
  {
    if nodes != [] {
      var front, last := nodes[..|nodes| - 1], nodes[|nodes| - 1];
      ColumnCounts(front, depth, c, n);
      assert (Column(front, depth, c) + [last])[..|Column(front, depth, c)|] == Column(front, depth, c);
    }
  }

  /** Up to its own row nothing stands later than `n`, and after it everything does. */
  lemma RowDivides(list: seq<Node>, n: Node, j: nat)
    requires Arranged(list, Before) && n in list && (forall m :: m in list && m.id == n.id ==> m == n) && j < |list|
    ensures !Before(n, list[j]) <==> j <= Row(list, n.id)
  {
    var r := Row(list, n.id);
    assert list[r] in list && list[r] == n;
    if j > r {
      assert !Before(list[j], list[r]);
    } else if j < r {
      assert !Before(list[r], list[j]);
    }
  }

  lemma RowCounts(list: seq<Node>, n: Node)
    requires Arranged(list, Before) && n in list && forall m :: m in list && m.id == n.id ==> m == n
    ensures HowMany(list, (m: Node) => !Before(n, m)) == Row(list, n.id) + 1
  {
    var r, holds := Row(list, n.id), (m: Node) => !Before(n, m);
    forall j | 0 <= j < |list|
      ensures holds(list[j]) <==> j <= r
    {
      RowDivides(list, n, j);
    }
    assert list == list[..r + 1] + list[r + 1..];
    HowManyConcat(list[..r + 1], list[r + 1..], holds);
    AllCount(list[..r + 1], holds);
    NoneCounts(list[r + 1..], holds);
  }

  /** The row of a placed node is the number of its column's nodes that stand no later, less one. */
  ghost predicate RowsCounted(nodes: seq<Node>, depth: map<Id, nat>, pos: map<Id, Point>) {
    forall n :: n in nodes && n.id in pos && n.id in depth ==>
      pos[n.id].y == (HowMany(nodes, UpTo(depth, depth[n.id], n)) - 1) * ROW_HEIGHT + 40
  }

  lemma ColumnCounted(nodes: seq<Node>, depth: map<Id, nat>, c: nat, pos: map<Id, Point>,
                      list: seq<Node>, x: int, pos': map<Id, Point>)
    requires OneNodePerId(nodes) && RowsCounted(nodes, depth, pos)
    requires list == Sort(Column(nodes, depth, c), Before)
    requires forall id :: id in pos' <==> id in pos || Row(list, id) >= 0
    requires forall id :: id in pos' ==> pos'[id] == if Row(list, id) >= 0 then At(x, Row(list, id)) else pos[id]
    ensures RowsCounted(nodes, depth, pos')
  {
    SameMembers(list, Column(nodes, depth, c));
    forall n | n in nodes && n.id in pos' && n.id in depth
      ensures pos'[n.id].y == (HowMany(nodes, UpTo(depth, depth[n.id], n)) - 1) * ROW_HEIGHT + 40
    {
      ColumnIds(nodes, depth, c, list, n.id);
      if Row(list, n.id) >= 0 {
        RowIs(nodes, list, n);
        RowCounts(list, n);
        SortCounts(Column(nodes, depth, c), Before, (m: Node) => !Before(n, m));
        ColumnCounts(nodes, depth, c, n);
      }
    }
  }

  /** Settles every listed node. */
  method ComputeDepths(nodes: seq<Node>, edges: seq<Edge>) returns (depth: map<Id, nat>)
    ensures Descends(EdgeSet(edges), depth, {}) && Measured(EdgeSet(edges), depth)
    ensures forall n :: n in nodes ==> n.id in depth
  {
    var layering := new Layering(edges, Ids(nodes));
    forall n | n in nodes ensures n.id in layering.universe {
      assert n.id in Ids(nodes);
    }
    layering.SettleAll(nodes);
    depth := layering.depth;
  }

  /** Each non-empty column is listed under its depth. */
  ghost predicate Grouped(cols: map<nat, seq<Node>>, nodes: seq<Node>, depth: map<Id, nat>) {
    forall c: nat :: Column(nodes, depth, c) == if c in cols then cols[c] else []
  }

  lemma GroupedGrows(cols: map<nat, seq<Node>>, nodes: seq<Node>, depth: map<Id, nat>, n: Node)
    requires Grouped(cols, nodes, depth) && n.id in depth
    ensures
      var c := depth[n.id];
      Grouped(cols[c := (if c in cols then cols[c] else []) + [n]], nodes + [n], depth)
  {
    assert (nodes + [n])[..|nodes|] == nodes;
  }

  /** `maxCol` is the largest depth of the nodes, 0 if there are none. */
  ghost predicate Deepest(nodes: seq<Node>, depth: map<Id, nat>, maxCol: nat) {
    && (forall n :: n in nodes ==> n.id in depth && depth[n.id] <= maxCol)
    && if nodes == [] then maxCol == 0 else exists n :: n in nodes && n.id in depth && depth[n.id] == maxCol
  }

  lemma DeepestGrows(nodes: seq<Node>, depth: map<Id, nat>, maxCol: nat, n: Node)
    requires Deepest(nodes, depth, maxCol) && n.id in depth
    ensures Deepest(nodes + [n], depth, if depth[n.id] > maxCol then depth[n.id] else maxCol)
  {
    assert n in nodes + [n];
    if nodes != [] {
      var m :| m in nodes && m.id in depth && depth[m.id] == maxCol;
      assert m in nodes + [n];
    }
  }

  method GroupByDepth(nodes: seq<Node>, depth: map<Id, nat>) returns (cols: map<nat, seq<Node>>, maxCol: nat)
    requires forall n :: n in nodes ==> n.id in depth
    ensures Grouped(cols, nodes, depth) && Deepest(nodes, depth, maxCol)
  {
    cols, maxCol := map[], 0;
    for i := 0 to |nodes|
      invariant Grouped(cols, nodes[..i], depth) && Deepest(nodes[..i], depth, maxCol)
    {
      var n := nodes[i];
      assert n in nodes;
      assert nodes[..i + 1] == nodes[..i] + [n];
      GroupedGrows(cols, nodes[..i], depth, n);
      DeepestGrows(nodes[..i], depth, maxCol, n);
      var c: nat := depth[n.id];
      cols := cols[c := (if c in cols then cols[c] else []) + [n]];
      if c > maxCol {
        maxCol := c;
      }
    }
    assert nodes[..|nodes|] == nodes;
  }

  /** No listed edge off the cycles points left or stays in its column. */
  ghost predicate LeftToRight(E: Edges, pos: map<Id, Point>) {
    forall a, t :: (a, t) in E && a in pos && t in pos && !Reaches(E, t, a) ==> pos[a].x < pos[t].x
  }

  /** The row of every placed node, as a number of positions of the list. */
  lemma RowsAre(nodes: seq<Node>, depth: map<Id, nat>, pos: map<Id, Point>, n: Node)
    requires RowsCounted(nodes, depth, pos) && n in nodes && n.id in pos
    requires forall m :: m in nodes ==> m.id in depth
    ensures pos[n.id].y ==
      92 * (|set i | 0 <= i < |nodes| && depth[nodes[i].id] == depth[n.id]
               && (nodes[i].tier < n.tier || (nodes[i].tier == n.tier && nodes[i].id <= n.id))| - 1) + 40
  {
    HowManyIs(nodes, UpTo(depth, depth[n.id], n),
              set i | 0 <= i < |nodes| && depth[nodes[i].id] == depth[n.id]
                && (nodes[i].tier < n.tier || (nodes[i].tier == n.tier && nodes[i].id <= n.id)));
  }

  /**
   `layout`: distinct nodes get distinct places, the column is the memoised depth counted from the right, the
   leftmost column is taken, rows follow tier and id without a gap, and on any graph an edge that lies on no
   cycle runs strictly left to right.
   */
  method LayoutGraph(nodes: seq<Node>, edges: seq<Edge>)
    returns (pos: map<Id, Point>, depth: map<Id, nat>, maxCol: nat)
    ensures pos.Keys == (set n | n in nodes :: n.id) && pos.Keys <= depth.Keys
    ensures forall id :: id in pos ==> depth[id] <= maxCol && pos[id].x == 210 * (maxCol - depth[id]) + 40
    ensures if nodes == [] then maxCol == 0 else exists n :: n in nodes && pos[n.id].x == 40
    ensures forall a, b :: a in pos && b in pos && a != b ==> pos[a] != pos[b]
    ensures OneNodePerId(nodes) ==> forall n :: n in nodes ==>
      pos[n.id].y ==
        92 * (|set i | 0 <= i < |nodes| && depth[nodes[i].id] == depth[n.id]
                 && (nodes[i].tier < n.tier || (nodes[i].tier == n.tier && nodes[i].id <= n.id))| - 1) + 40
    ensures Descends(EdgeSet(edges), depth, {}) && Measured(EdgeSet(edges), depth)
    ensures LeftToRight(EdgeSet(edges), pos)
  {
    depth := ComputeDepths(nodes, edges);
    var cols;
    cols, maxCol := GroupByDepth(nodes, depth);
    pos := PlaceColumns(nodes, depth, cols, maxCol);
    EdgesRunRight(nodes, EdgeSet(edges), depth, maxCol, pos);
    if OneNodePerId(nodes) {
      forall n | n in nodes
        ensures pos[n.id].y ==
          92 * (|set i | 0 <= i < |nodes| && depth[nodes[i].id] == depth[n.id]
                   && (nodes[i].tier < n.tier || (nodes[i].tier == n.tier && nodes[i].id <= n.id))| - 1) + 40
      {
        RowsAre(nodes, depth, pos, n);
      }
    }
  }

  method PlaceColumns(nodes: seq<Node>, depth: map<Id, nat>, cols: map<nat, seq<Node>>, maxCol: nat)
    returns (pos: map<Id, Point>)
    requires Grouped(cols, nodes, depth)
    ensures PlacedBelow(nodes, depth, maxCol, maxCol + 1, pos)
    ensures OneNodePerId(nodes) ==> RowsCounted(nodes, depth, pos)
  {
    pos := map[];
    for c := 0 to maxCol + 1
      invariant PlacedBelow(nodes, depth, maxCol, c, pos)
      invariant OneNodePerId(nodes) ==> RowsCounted(nodes, depth, pos)
    {
      var list: seq<Node> := [];
      if c in cols {
        list := Sort(cols[c], Before);
      }
      ghost var was := pos;
      pos := PlaceColumn(list, (maxCol - c) * COLUMN_WIDTH + 40, pos);
      SameMembers(list, Column(nodes, depth, c));
      ColumnPlaced(nodes, depth, maxCol, c, was, list, pos);
      if OneNodePerId(nodes) {
        ColumnCounted(nodes, depth, c, was, list, (maxCol - c) * COLUMN_WIDTH + 40, pos);
      }
    }
  }

  lemma EdgesRunRight(nodes: seq<Node>, E: Edges, depth: map<Id, nat>, maxCol: nat, pos: map<Id, Point>)
    requires PlacedBelow(nodes, depth, maxCol, maxCol + 1, pos) && Descends(E, depth, {})
    requires forall n :: n in nodes ==> n.id in depth && depth[n.id] <= maxCol
    ensures LeftToRight(E, pos) && pos.Keys == Ids(nodes)
  {
    forall id ensures id in pos <==> id in Ids(nodes) {
      assert id in Ids(nodes) ==> exists n :: n in nodes && n.id == id;
    }
    forall a, t | (a, t) in E && a in pos && t in pos && !Reaches(E, t, a)
      ensures pos[a].x < pos[t].x
    {
      assert depth[t] < depth[a];
    }
  }

  lemma {:induction false} WalkRunsRight(E: Edges, pos: map<Id, Point>, a: Id, b: Id, n: nat)
    requires forall u, v :: (u, v) in E ==> u in pos && v in pos && pos[u].x < pos[v].x
    requires HasWalk(E, a, b, n) && n > 0
    ensures a in pos && b in pos && pos[a].x < pos[b].x
    decreases n
  {
    var m :| HasWalk(E, a, m, n - 1) && (m, b) in E;
    if n > 1 {
      WalkRunsRight(E, pos, a, m, n - 1);
    }
  }

  /** When every endpoint is listed: all edges run strictly left to right exactly when there is no cycle. */
  lemma AllEdgesRightIffAcyclic(E: Edges, pos: map<Id, Point>)
    requires LeftToRight(E, pos) && forall u, v :: (u, v) in E ==> u in pos && v in pos
    ensures (forall u, v :: (u, v) in E ==> pos[u].x < pos[v].x) <==> Acyclic(E)
  {
    if Acyclic(E) {
      forall u, v | (u, v) in E
        ensures pos[u].x < pos[v].x
      {
        EdgeReaches(E, u, v);
        if Reaches(E, v, u) {
          ReachesTransitive(E, u, v, u);
        }
      }
    } else if forall u, v :: (u, v) in E ==> pos[u].x < pos[v].x {
      var a :| Reaches(E, a, a);
      var n :| n > 0 && HasWalk(E, a, a, n);
      WalkRunsRight(E, pos, a, a, n);
    }
  }
}
