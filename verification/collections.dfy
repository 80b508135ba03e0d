/** Enumerating, sorting and counting finite collections. */
module Collections {
  predicate Distinct<T(==)>(xs: seq<T>) { forall i, j :: 0 <= i < j < |xs| ==> xs[i] != xs[j] }

  function Elements<T(==)>(xs: seq<T>): set<T> { set x | x in xs }

  lemma Shrinks<K, V>(m: map<K, V>, k: K)
    requires k in m
    ensures |m - {k}| == |m| - 1
  {
    assert m.Keys == (m - {k}).Keys + {k};
    assert |m.Keys| == |(m - {k}).Keys| + 1;
  }

  lemma AppendNew<T>(xs: seq<T>, x: T)
    requires Distinct(xs) && x !in xs
    ensures Distinct(xs + [x]) && Elements(xs + [x]) == Elements(xs) + {x}
  {
  }

  /** An arbitrary enumeration of a set, as Python's iteration order is. */
  method Enumerate<T(==)>(s: set<T>) returns (xs: seq<T>)
    ensures Elements(xs) == s && Distinct(xs)
  {
    xs := [];
    var rest := s;
    while rest != {}
      invariant Elements(xs) + rest == s && Distinct(xs)
      invariant forall y :: y in xs ==> y !in rest
      decreases rest
    {
      var x :| x in rest;
      assert Elements(xs + [x]) == Elements(xs) + {x};
      xs, rest := xs + [x], rest - {x};
    }
  }

  lemma {:induction false} DistinctSize<T>(xs: seq<T>)
    requires Distinct(xs)
    ensures |Elements(xs)| == |xs|
  {
    if xs != [] {
      var front, last := xs[..|xs| - 1], xs[|xs| - 1];
      DistinctSize(front);
      assert last !in front;
      assert Elements(xs) == Elements(front) + {last};
    }
  }

  // ----- sorting ---------------------------------------------------------------------------

  /** A strict order in which not being before the other may be a tie. */
  ghost predicate WeakOrder<T(!new)>(before: (T, T) -> bool) {
    && (forall x, y :: before(x, y) ==> !before(y, x))
    && forall x, y, z :: !before(y, x) && !before(z, y) ==> !before(z, x)
  }

  predicate Arranged<T>(xs: seq<T>, before: (T, T) -> bool) { forall i, j :: 0 <= i < j < |xs| ==> !before(xs[j], xs[i]) }

  function Insert<T>(xs: seq<T>, x: T, before: (T, T) -> bool): seq<T> {
    if xs == [] || before(x, xs[0]) then [x] + xs else [xs[0]] + Insert(xs[1..], x, before)
  }

  lemma {:induction false} InsertMembers<T>(xs: seq<T>, x: T, before: (T, T) -> bool)
    ensures multiset(Insert(xs, x, before)) == multiset(xs) + multiset{x} && |Insert(xs, x, before)| == |xs| + 1
    decreases |xs|
  {
    if xs != [] {
      assert xs == [xs[0]] + xs[1..];
      InsertMembers(xs[1..], x, before);
    }
  }

  lemma {:induction false} InsertArranges<T(!new)>(xs: seq<T>, x: T, before: (T, T) -> bool)
    requires WeakOrder(before) && Arranged(xs, before)
    ensures Arranged(Insert(xs, x, before), before)
    decreases |xs|
  {
    if xs != [] && !before(x, xs[0]) {
      InsertArranges(xs[1..], x, before);
      InsertMembers(xs[1..], x, before);
      var tail := Insert(xs[1..], x, before);
      forall k | 0 <= k < |tail|
        ensures !before(tail[k], xs[0])
      {
        assert tail[k] in multiset(tail);
        assert tail[k] == x || tail[k] in xs[1..];
      }
    }
  }

  /** Insertion sort, standing for the stable sorts of Python and JavaScript. */
  function Sort<T(!new)>(xs: seq<T>, before: (T, T) -> bool): (ys: seq<T>)
    requires WeakOrder(before)
    ensures multiset(ys) == multiset(xs) && |ys| == |xs| && Arranged(ys, before)
  {
    if xs == [] then []
    else
      var front := xs[..|xs| - 1];
      assert xs == front + [xs[|xs| - 1]];
      InsertMembers(Sort(front, before), xs[|xs| - 1], before);
      InsertArranges(Sort(front, before), xs[|xs| - 1], before);
      Insert(Sort(front, before), xs[|xs| - 1], before)
  }

  predicate SortedBy(xs: seq<int>, key: int -> int) { forall i, j :: 0 <= i < j < |xs| ==> key(xs[i]) <= key(xs[j]) }

  function SortBy(xs: seq<int>, key: int -> int): (ys: seq<int>)
    ensures multiset(ys) == multiset(xs) && SortedBy(ys, key)
  {
    var before := (x, y) => key(x) < key(y);
    var ys := Sort(xs, before);
    assert forall i, j :: 0 <= i < j < |ys| ==> !before(ys[j], ys[i]);
    ys
  }

  lemma SameMembers<T>(xs: seq<T>, ys: seq<T>)
    requires multiset(xs) == multiset(ys)
    ensures forall v :: v in xs <==> v in ys
  {
    forall v ensures v in xs <==> v in ys {
      assert v in xs <==> v in multiset(xs);
    }
  }

  lemma SameElements(xs: seq<int>, ys: seq<int>)
    requires multiset(xs) == multiset(ys) && Distinct(xs)
    ensures Elements(xs) == Elements(ys) && Distinct(ys)
  {
    SameMembers(xs, ys);
    DistinctCounts(xs);
    forall i, j | 0 <= i < j < |ys|
      ensures ys[i] != ys[j]
    {
      CountPair(ys, i, j);
    }
  }

  lemma CountPair(ys: seq<int>, i: nat, j: nat)
    requires i < j < |ys|
    ensures ys[i] == ys[j] ==> multiset(ys)[ys[i]] >= 2
  {
    assert ys == ys[..i] + [ys[i]] + ys[i + 1..j] + [ys[j]] + ys[j + 1..];
  }

  lemma {:induction false} DistinctCounts(xs: seq<int>)
    requires Distinct(xs)
    ensures forall v :: multiset(xs)[v] <= 1
  {
    if xs != [] {
      DistinctCounts(xs[1..]);
      assert xs == [xs[0]] + xs[1..];
      assert xs[0] !in xs[1..];
    }
  }

  // ----- counting --------------------------------------------------------------------------

  function HowMany<T>(xs: seq<T>, holds: T -> bool): nat {
    if xs == [] then 0 else HowMany(xs[..|xs| - 1], holds) + if holds(xs[|xs| - 1]) then 1 else 0
  }

  lemma {:induction false} HowManyConcat<T>(xs: seq<T>, ys: seq<T>, holds: T -> bool)
    ensures HowMany(xs + ys, holds) == HowMany(xs, holds) + HowMany(ys, holds)
    decreases |ys|
  {
    if ys == [] {
      assert xs + ys == xs;
    } else {
      assert (xs + ys)[..|xs + ys| - 1] == xs + ys[..|ys| - 1];
      HowManyConcat(xs, ys[..|ys| - 1], holds);
    }
  }

  lemma Empty<T(!new)>(s: set<T>)
    requires forall x :: x !in s
    ensures |s| == 0
  {
  }

  lemma RemoveOne<T>(s: set<T>, x: T)
    ensures |s| == |s - {x}| + if x in s then 1 else 0
  {
    assert s == (s - {x}) + if x in s then {x} else {};
  }

  lemma {:induction false} HowManyIs<T>(xs: seq<T>, holds: T -> bool, found: set<int>)
    requires forall j :: j in found <==> 0 <= j < |xs| && holds(xs[j])
    ensures HowMany(xs, holds) == |found|
    decreases |xs|
  {
    if xs == [] {
      forall j: int ensures j !in found {
      }
      Empty(found);
    } else {
      var n := |xs| - 1;
      RemoveOne(found, n);
      HowManyIs(xs[..n], holds, found - {n});
    }
  }

  lemma {:induction false} AllCount<T>(xs: seq<T>, holds: T -> bool)
    requires forall j :: 0 <= j < |xs| ==> holds(xs[j])
    ensures HowMany(xs, holds) == |xs|
    decreases |xs|
  {
    if xs != [] {
      AllCount(xs[..|xs| - 1], holds);
    }
  }

  lemma {:induction false} NoneCounts<T>(xs: seq<T>, holds: T -> bool)
    requires forall j :: 0 <= j < |xs| ==> !holds(xs[j])
    ensures HowMany(xs, holds) == 0
    decreases |xs|
  {
    if xs != [] {
      NoneCounts(xs[..|xs| - 1], holds);
    }
  }

  lemma OneCounts<T>(x: T, holds: T -> bool)
    ensures HowMany([x], holds) == if holds(x) then 1 else 0
  {
    assert [x][..0] == [];
  }

  lemma {:induction false} InsertCounts<T>(xs: seq<T>, x: T, before: (T, T) -> bool, holds: T -> bool)
    ensures HowMany(Insert(xs, x, before), holds) == HowMany(xs, holds) + if holds(x) then 1 else 0
    decreases |xs|
  {
    OneCounts(x, holds);
    if xs == [] || before(x, xs[0]) {
      HowManyConcat([x], xs, holds);
    } else {
      InsertCounts(xs[1..], x, before, holds);
      HowManyConcat([xs[0]], Insert(xs[1..], x, before), holds);
      HowManyConcat([xs[0]], xs[1..], holds);
      assert xs == [xs[0]] + xs[1..];
    }
  }

  lemma {:induction false} SortCounts<T(!new)>(xs: seq<T>, before: (T, T) -> bool, holds: T -> bool)
    requires WeakOrder(before)
    ensures HowMany(Sort(xs, before), holds) == HowMany(xs, holds)
    decreases |xs|
  {
    if xs != [] {
      var front, last := xs[..|xs| - 1], xs[|xs| - 1];
      SortCounts(front, before, holds);
      InsertCounts(Sort(front, before), last, before, holds);
    }
  }
}
