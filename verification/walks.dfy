/** Walks over a finite edge set: reachability and distance, independent of any traversal. */
module Walks {
  type Id = int
  type Edges = set<(Id, Id)>

  /** There is a walk of exactly `n` edges from `a` to `b`. */
  ghost predicate HasWalk(E: Edges, a: Id, b: Id, n: nat)
    decreases n
  {
    if n == 0 then a == b
    else exists m :: HasWalk(E, a, m, n - 1) && (m, b) in E
  }

  /** A walk of at least one edge. */
  ghost predicate Reaches(E: Edges, a: Id, b: Id) { exists n :: n > 0 && HasWalk(E, a, b, n) }

  ghost predicate IsDistance(E: Edges, a: Id, b: Id, d: nat) {
    HasWalk(E, a, b, d) && forall k :: 0 <= k < d ==> !HasWalk(E, a, b, k)
  }

  ghost predicate Acyclic(E: Edges) { forall v :: !Reaches(E, v, v) }

  lemma EdgeReaches(E: Edges, a: Id, b: Id)
    requires (a, b) in E
    ensures HasWalk(E, a, b, 1) && Reaches(E, a, b)
  {
    assert HasWalk(E, a, a, 0);
    assert HasWalk(E, a, b, 1);
  }

  lemma {:induction false} WalkConcat(E: Edges, a: Id, b: Id, c: Id, m: nat, n: nat)
    requires HasWalk(E, a, b, m) && HasWalk(E, b, c, n)
    ensures HasWalk(E, a, c, m + n)
    decreases n
  {
    if n > 0 {
      var p :| HasWalk(E, b, p, n - 1) && (p, c) in E;
      WalkConcat(E, a, b, p, m, n - 1);
    }
  }

  lemma ReachesTransitive(E: Edges, a: Id, b: Id, c: Id)
    requires Reaches(E, a, b) && Reaches(E, b, c)
    ensures Reaches(E, a, c)
  {
    var m :| m > 0 && HasWalk(E, a, b, m);
    var n :| n > 0 && HasWalk(E, b, c, n);
    WalkConcat(E, a, b, c, m, n);
  }

  /** A walk of at least one edge starts with an edge. */
  lemma {:induction false} FirstEdge(E: Edges, a: Id, b: Id, n: nat) returns (t: Id)
    requires n > 0 && HasWalk(E, a, b, n)
    ensures (a, t) in E && HasWalk(E, t, b, n - 1)
    decreases n
  {
    var p :| HasWalk(E, a, p, n - 1) && (p, b) in E;
    if n == 1 {
      t := b;
    } else {
      t := FirstEdge(E, a, p, n - 1);
    }
  }

  /** The same edges, turned round. */
  function Transpose(E: Edges): (T: Edges)
    ensures forall a, b :: (a, b) in T <==> (b, a) in E
  {
    set e | e in E :: (e.1, e.0)
  }

  lemma {:induction false} WalkTransposed(E: Edges, a: Id, b: Id, n: nat)
    requires HasWalk(E, a, b, n)
    ensures HasWalk(Transpose(E), b, a, n)
    decreases n
  {
    if n > 0 {
      var p :| HasWalk(E, a, p, n - 1) && (p, b) in E;
      WalkTransposed(E, a, p, n - 1);
      EdgeReaches(Transpose(E), b, p);
      WalkConcat(Transpose(E), b, p, a, 1, n - 1);
    }
  }

  /** Reachability against the edges is reachability along the transposed edges. */
  lemma ReachesTransposed(E: Edges, a: Id, b: Id)
    ensures Reaches(E, a, b) <==> Reaches(Transpose(E), b, a)
  {
    if Reaches(E, a, b) {
      var n :| n > 0 && HasWalk(E, a, b, n);
      WalkTransposed(E, a, b, n);
    }
    if Reaches(Transpose(E), b, a) {
      var n :| n > 0 && HasWalk(Transpose(E), b, a, n);
      WalkTransposed(Transpose(E), b, a, n);
      assert Transpose(Transpose(E)) == E;
    }
  }
}
