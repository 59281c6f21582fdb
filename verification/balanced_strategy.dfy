/** Balanced assignment: each new segment goes to the R instances with the
    smallest load counters, ties broken by the deterministic pool order. */
module BalancedStrategy {
  import opened Seqs
  import opened Placement
  import opened Loads

  /** Pool position `i` is preferred to position `j`: lower load, or equal
      load and earlier in the pool. */
  ghost predicate PreferredOver(pool: seq<Instance>, load: Loads, i: nat, j: nat)
    requires i < |pool| && j < |pool|
  {
    LoadOf(load, pool[i]) < LoadOf(load, pool[j])
    || (LoadOf(load, pool[i]) == LoadOf(load, pool[j]) && i < j)
  }

  /** Every chosen pool instance is preferred to every unchosen one. */
  ghost predicate LeastLoadedSelection(pool: seq<Instance>, load: Loads, chosen: set<Instance>) {
    forall i, j :: 0 <= i < |pool| && 0 <= j < |pool| && pool[i] in chosen && pool[j] !in chosen ==>
      PreferredOver(pool, load, i, j)
  }

  /** The `n` least-loaded instances, picked one at a time. */
  function SelectLeastLoaded(pool: seq<Instance>, load: Loads, n: nat): (r: seq<Instance>)
    requires Distinct(pool)
    requires n <= |pool|
    ensures |r| == n
    ensures Distinct(r)
    ensures Elems(r) <= Elems(pool)
    ensures LeastLoadedSelection(pool, load, Elems(r))
    decreases n
  {
    if n == 0 then []
    else
      var prev := SelectLeastLoaded(pool, load, n - 1);
      NotCovered(pool, prev);
      var k := LeastFrom(pool, load, Elems(prev), 0);
      prev + [pool[k]]
  }

  /** The selection rule determines the chosen set: two selections of the same
      size that both obey it hold the same instances. */
  lemma SelectionUnique(pool: seq<Instance>, load: Loads, a: seq<Instance>, b: seq<Instance>)
    requires Distinct(a) && Distinct(b) && |a| == |b|
    requires Elems(a) <= Elems(pool) && Elems(b) <= Elems(pool)
    requires LeastLoadedSelection(pool, load, Elems(a))
    requires LeastLoadedSelection(pool, load, Elems(b))
    ensures Elems(a) == Elems(b)
  {
    if Elems(a) != Elems(b) {
      DistinctCard(a);
      DistinctCard(b);
      OutsideEachOther(Elems(a), Elems(b));
      assert false;
    }
  }

  /** Two different sets of the same size each have an element outside the other. */
  lemma OutsideEachOther<T>(x: set<T>, y: set<T>)
    requires |x| == |y| && x != y
    ensures exists e :: e in x - y
    ensures exists e :: e in y - x
  {
    assert x == (x * y) + (x - y);
    assert y == (x * y) + (y - x);
    assert x - y != {} || y - x != {};
  }

  /** Adding one to the counters of a least-loaded selection keeps every two
      pool instances within one of each other. */
  lemma BumpKeepsBalance(pool: seq<Instance>, load: Loads, chosen: set<Instance>)
    requires Balanced(pool, load)
    requires LeastLoadedSelection(pool, load, chosen)
    ensures Balanced(pool, Bump(load, chosen))
  {
    var after := Bump(load, chosen);
    forall a, b | a in pool && b in pool
      ensures LoadOf(after, a) <= LoadOf(after, b) + 1
    {
      if a in chosen && b !in chosen {
        var i :| 0 <= i < |pool| && pool[i] == a;
        var j :| 0 <= j < |pool| && pool[j] == b;
        assert PreferredOver(pool, load, i, j);
      }
    }
  }
}
