/** Per-instance load counters (the number of segments of the table each
    instance hosts), their sum over the pool, least-loaded selection with the
    pool order as tie-break, and the balance bound. */
module Loads {
  import opened Seqs
  import opened Placement

  type Loads = map<Instance, nat>

  /** The counter of `v`; an instance never counted has load 0. */
  function LoadOf(load: Loads, v: Instance): nat {
    if v in load then load[v] else 0
  }

  /** Increments the counter of every instance in `chosen` by one. */
  function Bump(load: Loads, chosen: set<Instance>): (r: Loads)
    ensures forall v {:trigger LoadOf(r, v)} :: LoadOf(r, v) == LoadOf(load, v) + (if v in chosen then 1 else 0)
  {
    map v | v in load.Keys + chosen :: LoadOf(load, v) + (if v in chosen then 1 else 0)
  }

  /** The total load over the pool. */
  function SumLoads(pool: seq<Instance>, load: Loads): nat {
    if pool == [] then 0 else LoadOf(load, pool[0]) + SumLoads(pool[1..], load)
  }

  /** With no counter set, the pool total is zero. */
  lemma {:induction false} SumOfNoLoads(pool: seq<Instance>)
    ensures SumLoads(pool, map[]) == 0
  {
    if pool != [] {
      SumOfNoLoads(pool[1..]);
    }
  }

  /** Bumping a set of instances raises the pool total by the number of them
      that are in the pool. */
  lemma {:induction false} SumAfterBump(pool: seq<Instance>, load: Loads, chosen: set<Instance>)
    requires Distinct(pool)
    ensures SumLoads(pool, Bump(load, chosen)) == SumLoads(pool, load) + |chosen * Elems(pool)|
  {
    if pool != [] {
      var a, rest := pool[0], pool[1..];
      assert Distinct(rest);
      SumAfterBump(rest, load, chosen);
      assert pool == [a] + rest;
      CountSplit(chosen, a, rest);
    }
  }

  /** Bumping pool instances raises the pool total by their number. */
  lemma SumAfterBumpWithin(pool: seq<Instance>, load: Loads, chosen: set<Instance>)
    requires Distinct(pool)
    requires chosen <= Elems(pool)
    ensures SumLoads(pool, Bump(load, chosen)) == SumLoads(pool, load) + |chosen|
  {
    SumAfterBump(pool, load, chosen);
    assert chosen * Elems(pool) == chosen;
  }

  lemma CountSplit(chosen: set<Instance>, a: Instance, rest: seq<Instance>)
    requires a !in rest
    ensures |chosen * Elems([a] + rest)| == (if a in chosen then 1 else 0) + |chosen * Elems(rest)|
  {
    var here, there := chosen * {a}, chosen * Elems(rest);
    assert chosen * Elems([a] + rest) == here + there by {
      assert Elems([a] + rest) == {a} + Elems(rest);
    }
    assert here !! there;
    if a in chosen {
      assert here == {a};
    } else {
      assert here == {};
    }
  }

  /** The total is at least the pool size times a lower bound on every load,
      plus the excess of any one instance over that bound. */
  lemma {:induction false} SumLowerBound(pool: seq<Instance>, load: Loads, lo: nat, w: Instance)
    requires forall v :: v in pool ==> lo <= LoadOf(load, v)
    requires w in pool
    ensures SumLoads(pool, load) >= |pool| * lo + (LoadOf(load, w) - lo)
  {
    assert |pool| * lo == lo + |pool[1..]| * lo;
    if pool[0] == w {
      SumAtLeast(pool[1..], load, lo);
    } else {
      SumLowerBound(pool[1..], load, lo, w);
    }
  }

  lemma {:induction false} SumAtLeast(pool: seq<Instance>, load: Loads, lo: nat)
    requires forall v :: v in pool ==> lo <= LoadOf(load, v)
    ensures SumLoads(pool, load) >= |pool| * lo
  {
    if pool != [] {
      SumAtLeast(pool[1..], load, lo);
      assert |pool| * lo == lo + |pool[1..]| * lo;
    }
  }

  /** The total is at most the pool size times an upper bound on every load,
      less the shortfall of any one instance under that bound. */
  lemma {:induction false} SumUpperBound(pool: seq<Instance>, load: Loads, hi: nat, w: Instance)
    requires forall v :: v in pool ==> LoadOf(load, v) <= hi
    requires w in pool
    ensures SumLoads(pool, load) + (hi - LoadOf(load, w)) <= |pool| * hi
  {
    assert |pool| * hi == hi + |pool[1..]| * hi;
    if pool[0] == w {
      SumAtMost(pool[1..], load, hi);
    } else {
      SumUpperBound(pool[1..], load, hi, w);
    }
  }

  lemma {:induction false} SumAtMost(pool: seq<Instance>, load: Loads, hi: nat)
    requires forall v :: v in pool ==> LoadOf(load, v) <= hi
    ensures SumLoads(pool, load) <= |pool| * hi
  {
    if pool != [] {
      SumAtMost(pool[1..], load, hi);
      assert |pool| * hi == hi + |pool[1..]| * hi;
    }
  }

  /** The position in `s[from..]` of the least-loaded instance not in
      `excluded`, the earliest such position on a tie; `|s|` when every
      instance from `from` on is excluded. */
  function LeastFrom(s: seq<Instance>, load: Loads, excluded: set<Instance>, from: nat): (r: nat)
    requires from <= |s|
    ensures from <= r <= |s|
    ensures r == |s| <==> forall j :: from <= j < |s| ==> s[j] in excluded
    ensures r < |s| ==> s[r] !in excluded
    ensures r < |s| ==> forall j :: from <= j < |s| && s[j] !in excluded ==> LoadOf(load, s[r]) <= LoadOf(load, s[j])
    ensures r < |s| ==> forall j :: from <= j < r && s[j] !in excluded ==> LoadOf(load, s[r]) < LoadOf(load, s[j])
    decreases |s| - from
  {
    if from == |s| then |s|
    else
      var rest := LeastFrom(s, load, excluded, from + 1);
      if s[from] in excluded then rest
      else if rest == |s| || LoadOf(load, s[from]) <= LoadOf(load, s[rest]) then from
      else rest
  }

  /** Every two instances of the pool differ in load by at most one. */
  ghost predicate Balanced(pool: seq<Instance>, load: Loads) {
    forall a, b :: a in pool && b in pool ==> LoadOf(load, a) <= LoadOf(load, b) + 1
  }

  lemma DivExact(total: nat, m: nat, q: nat)
    requires m > 0
    requires q * m <= total < q * m + m
    ensures total / m == q
  {
    var d, r := total / m, total % m;
    assert total == d * m + r;
    if d < q {
      assert (d + 1) * m <= q * m by { MulMono(d + 1, q, m); }
    } else if d > q {
      assert (q + 1) * m <= d * m by { MulMono(q + 1, d, m); }
    }
  }

  lemma MulMono(a: nat, b: nat, m: nat)
    requires a <= b
    ensures a * m <= b * m
  {
  }

  /** In a balanced pool carrying total load S over M instances, every
      instance carries at least S / M and at most S / M, plus one when M does
      not divide S. */
  lemma {:induction false} BalancedBounds(pool: seq<Instance>, load: Loads)
    requires |pool| > 0
    requires Balanced(pool, load)
    ensures var total := SumLoads(pool, load);
            var lo := total / |pool|;
            var hi := if lo * |pool| < total then lo + 1 else lo;
            forall v :: v in pool ==> lo <= LoadOf(load, v) <= hi
  {
    var total, m := SumLoads(pool, load), |pool|;
    var w := pool[LeastFrom(pool, load, {}, 0)];
    var mn := LoadOf(load, w);
    assert forall v :: v in pool ==> mn <= LoadOf(load, v) <= mn + 1;
    if exists u :: u in pool && LoadOf(load, u) == mn + 1 {
      var u :| u in pool && LoadOf(load, u) == mn + 1;
      SumLowerBound(pool, load, mn, u);
      SumUpperBound(pool, load, mn + 1, w);
      assert m * (mn + 1) == m * mn + m;
      DivExact(total, m, mn);
    } else {
      assert forall v :: v in pool ==> LoadOf(load, v) == mn;
      SumAtLeast(pool, load, mn);
      SumAtMost(pool, load, mn);
      DivExact(total, m, mn);
    }
  }
}
