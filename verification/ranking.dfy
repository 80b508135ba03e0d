/** `rank_probable_root`: the covers-minus-dependencies heuristic is an order theorem on any graph. */
module RootRanking {
  import opened Collections
  import opened Walks
  import opened DependencyGraph

  /** Twice the source's score `covers - 0.5 * depends_on_impacted`, which keeps it an integer. */
  ghost function Score(g: Graph, impacted: set<Id>, x: Id): int {
    2 * |impacted * Reached(EdgesOf(g.dependents), x)| - |impacted * Reached(EdgesOf(g.dependsOn), x)|
  }

  ghost predicate DependsOn(g: Graph, a: Id, b: Id) { a != b && Reaches(EdgesOf(g.dependsOn), a, b) }

  method ScoreOf(g: Graph, impacted: set<Id>, sid: Id) returns (s: int)
    ensures s == Score(g, impacted, sid)
  {
    var downstream := Bfs(sid, g.dependsOn);
    ReachedIs(EdgesOf(g.dependsOn), sid, downstream);
    var above := Bfs(sid, g.dependents);
    ReachedIs(EdgesOf(g.dependents), sid, above);
    s := 2 * |impacted * Elements(above)| - |impacted * Elements(downstream)|;
  }

  method ScoreAll(g: Graph, impacted: set<Id>, ids: seq<Id>) returns (score: map<Id, int>)
    ensures forall v :: v in ids ==> v in score && score[v] == Score(g, impacted, v)
  {
    score := map[];
    for i := 0 to |ids|
      invariant forall v :: v in ids[..i] ==> v in score && score[v] == Score(g, impacted, v)
    {
      assert ids[..i + 1] == ids[..i] + [ids[i]];
      var s := ScoreOf(g, impacted, ids[i]);
      var next := score[ids[i] := s];
      forall v | v in ids[..i + 1]
        ensures v in next && next[v] == Score(g, impacted, v)
      {
        assert v in ids[..i] || v == ids[i];
      }
      score := next;
    }
    assert ids[..|ids|] == ids;
  }

  /**
   The impacted services, each once, those first that count more: every impacted service that depends on one
   counts two for it, every one it depends on counts one against it.
   */
  method RankProbableRoot(g: Graph, impactedIds: seq<Id>) returns (ranked: seq<Id>)
    ensures Distinct(ranked) && Elements(ranked) == Elements(impactedIds)
    ensures HighestFirst(g, Elements(impactedIds), ranked)
    ensures Transposed(g) ==> forall i, j :: 0 <= i < j < |ranked| ==>
              2 * |set v | v in Elements(impactedIds) && DependsOn(g, v, ranked[i])|
                - |set v | v in Elements(impactedIds) && DependsOn(g, ranked[i], v)|
              >= 2 * |set v | v in Elements(impactedIds) && DependsOn(g, v, ranked[j])|
                - |set v | v in Elements(impactedIds) && DependsOn(g, ranked[j], v)|
  {
    var impacted := Elements(impactedIds);
    var ids := Enumerate(impacted);
    var score := ScoreAll(g, impacted, ids);
    var key := v => if v in score then -score[v] else 0;
    ranked := SortBy(ids, key);
    SameElements(ids, ranked);
    RankedByScore(g, impacted, ids, score, ranked);
    if Transposed(g) {
      forall i | 0 <= i < |ranked|
        ensures Score(g, impacted, ranked[i]) ==
          2 * |set v | v in impacted && DependsOn(g, v, ranked[i])| - |set v | v in impacted && DependsOn(g, ranked[i], v)|
      {
        ScoreCounts(g, impacted, ranked[i]);
      }
    }
  }

  /** The two closures of the score are the impacted services above and below. */
  lemma ScoreCounts(g: Graph, impacted: set<Id>, x: Id)
    requires Transposed(g)
    ensures Score(g, impacted, x) ==
      2 * |set v | v in impacted && DependsOn(g, v, x)| - |set v | v in impacted && DependsOn(g, x, v)|
  {
    var down, up := EdgesOf(g.dependsOn), EdgesOf(g.dependents);
    forall v
      ensures v in Reached(down, x) <==> DependsOn(g, x, v)
      ensures v in Reached(up, x) <==> DependsOn(g, v, x)
    {
      ReachedMeans(down, x, v);
      ReachedMeans(up, x, v);
      ReachesTransposed(down, v, x);
    }
    assert impacted * Reached(up, x) == set v | v in impacted && DependsOn(g, v, x);
    assert impacted * Reached(down, x) == set v | v in impacted && DependsOn(g, x, v);
  }

  /** One more service covered makes up for exactly two more dependencies. */
  lemma OneCoverWeighsTwo(g: Graph, impacted: set<Id>, a: Id, b: Id)
    requires Transposed(g)
    requires |set v | v in impacted && DependsOn(g, v, a)| == |set v | v in impacted && DependsOn(g, v, b)| + 1
    ensures Score(g, impacted, a) >= Score(g, impacted, b)
       <==> |set v | v in impacted && DependsOn(g, a, v)| <= |set v | v in impacted && DependsOn(g, b, v)| + 2
  {
    ScoreCounts(g, impacted, a);
    ScoreCounts(g, impacted, b);
  }

  ghost predicate HighestFirst(g: Graph, impacted: set<Id>, ranked: seq<Id>) {
    forall i, j :: 0 <= i < j < |ranked| ==> Score(g, impacted, ranked[i]) >= Score(g, impacted, ranked[j])
  }

  lemma RankedByScore(g: Graph, impacted: set<Id>, ids: seq<Id>, score: map<Id, int>, ranked: seq<Id>)
    requires forall v :: v in ids ==> v in score && score[v] == Score(g, impacted, v)
    requires Elements(ranked) == Elements(ids) && SortedBy(ranked, v => if v in score then -score[v] else 0)
    ensures HighestFirst(g, impacted, ranked)
  {
    var key := v => if v in score then -score[v] else 0;
    forall i, j | 0 <= i < j < |ranked|
      ensures Score(g, impacted, ranked[i]) >= Score(g, impacted, ranked[j])
    {
      assert ranked[i] in Elements(ranked) && ranked[j] in Elements(ranked);
      assert ranked[i] in ids && ranked[j] in ids;
      assert key(ranked[i]) <= key(ranked[j]);
    }
  }

  /** What is below (or above) b is below (or above) a, when a reaches b. */
  lemma ClosureShrinks(E: Edges, a: Id, b: Id)
    requires a != b && Reaches(E, a, b)
    ensures Reached(E, b) <= Reached(E, a) + {a}
    ensures b in Reached(E, a) && b !in Reached(E, b)
    ensures a in Reached(E, b) <==> Reaches(E, b, a)
  {
    forall v | v in Reached(E, b)
      ensures v in Reached(E, a) + {a}
    {
      ReachedMeans(E, b, v);
      ReachesTransitive(E, a, b, v);
      ReachedMeans(E, a, v);
    }
    ReachedMeans(E, a, b);
    ReachedMeans(E, b, b);
    ReachedMeans(E, b, a);
  }

  lemma StrictlyFewer(small: set<Id>, large: set<Id>, x: Id)
    requires small <= large && x in large && x !in small
    ensures |small| < |large|
  {
    Subset(small + {x}, large);
  }

  lemma {:induction false} Subset<T>(small: set<T>, large: set<T>)
    requires small <= large
    ensures |small| <= |large|
    decreases small
  {
    if small != {} {
      var x :| x in small;
      Subset(small - {x}, large - {x});
    }
  }

  /**
   If impacted `a` transitively depends on impacted `b` but not the other way round, `b` scores strictly
   higher, on any graph.
   */
  lemma DependencyScoresHigher(g: Graph, impacted: set<Id>, a: Id, b: Id)
    requires Transposed(g) && a in impacted && b in impacted
    requires DependsOn(g, a, b) && !DependsOn(g, b, a)
    ensures Score(g, impacted, b) > Score(g, impacted, a)
  {
    var down, up := EdgesOf(g.dependsOn), EdgesOf(g.dependents);
    ClosureShrinks(down, a, b);
    StrictlyFewer(impacted * Reached(down, b), impacted * Reached(down, a), b);
    ReachesTransposed(down, a, b);
    ReachesTransposed(down, b, a);
    ClosureShrinks(up, b, a);
    StrictlyFewer(impacted * Reached(up, a), impacted * Reached(up, b), a);
  }

  lemma MutualClosures(E: Edges, impacted: set<Id>, a: Id, b: Id)
    requires a in impacted && b in impacted && a != b && Reaches(E, a, b) && Reaches(E, b, a)
    ensures |impacted * Reached(E, a)| == |impacted * Reached(E, b)|
  {
    ClosureShrinks(E, a, b);
    ClosureShrinks(E, b, a);
    var A, B := impacted * Reached(E, a), impacted * Reached(E, b);
    assert A - {b} == B - {a};
    assert |A - {b}| == |A| - 1 && |B - {a}| == |B| - 1;
  }

  /** Mutually dependent services get equal scores. */
  lemma MutualScoresEqual(g: Graph, impacted: set<Id>, a: Id, b: Id)
    requires Transposed(g) && a in impacted && b in impacted
    requires DependsOn(g, a, b) && DependsOn(g, b, a)
    ensures Score(g, impacted, a) == Score(g, impacted, b)
  {
    var down, up := EdgesOf(g.dependsOn), EdgesOf(g.dependents);
    MutualClosures(down, impacted, a, b);
    ReachesTransposed(down, a, b);
    ReachesTransposed(down, b, a);
    MutualClosures(up, impacted, a, b);
  }

  /**
   In any ranking by score: a one-way dependency comes before its dependant, and the first suspect depends
   on another impacted service only if that service depends on it too.
   */
  lemma DependenciesRankFirst(g: Graph, impacted: set<Id>, ranked: seq<Id>, i: nat, j: nat)
    requires Transposed(g) && Elements(ranked) == impacted && HighestFirst(g, impacted, ranked)
    requires i < |ranked| && j < |ranked| && DependsOn(g, ranked[i], ranked[j])
    ensures DependsOn(g, ranked[j], ranked[i]) || j < i
    ensures i == 0 ==> DependsOn(g, ranked[j], ranked[i])
  {
    var a, b := ranked[i], ranked[j];
    assert a in Elements(ranked) && b in Elements(ranked);
    if !DependsOn(g, b, a) {
      DependencyScoresHigher(g, impacted, a, b);
      InOrder(g, impacted, ranked, i, j);
    }
  }

  lemma InOrder(g: Graph, impacted: set<Id>, ranked: seq<Id>, i: nat, j: nat)
    requires HighestFirst(g, impacted, ranked) && i < |ranked| && j < |ranked|
    requires Score(g, impacted, ranked[j]) > Score(g, impacted, ranked[i])
    ensures j < i
  {
  }
}
