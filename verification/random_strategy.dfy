/** Random assignment: R distinct instances drawn uniformly without
    replacement. The random source is a parameter: draw `j` is the natural
    `draws[j]` (zero once the draws run out), reduced modulo the number of
    instances still available. Every duplicate-free sequence of pool
    instances is the outcome of some draws, and nothing else is. */
module RandomStrategy {
  import opened Seqs
  import opened Placement

  /** `pool` with position `k` removed. */
  function RemoveAt(pool: seq<Instance>, k: nat): (rest: seq<Instance>)
    requires k < |pool|
    ensures |rest| == |pool| - 1
    ensures Distinct(pool) ==> Distinct(rest) && Elems(rest) == Elems(pool) - {pool[k]}
  {
    pool[..k] + pool[k + 1..]
  }

  /** The first draw, zero when none is left. */
  function FirstDraw(draws: seq<nat>): nat {
    if |draws| > 0 then draws[0] else 0
  }

  /** The draws after the first. */
  function LaterDraws(draws: seq<nat>): seq<nat> {
    if |draws| > 0 then draws[1..] else []
  }

  /** Draws `n` instances from `pool` without replacement. */
  function Sample(pool: seq<Instance>, draws: seq<nat>, n: nat): (r: seq<Instance>)
    requires Distinct(pool)
    requires n <= |pool|
    ensures |r| == n
    ensures Distinct(r)
    ensures Elems(r) <= Elems(pool)
    decreases n
  {
    if n == 0 then []
    else
      var k := FirstDraw(draws) % |pool|;
      var rest := Sample(RemoveAt(pool, k), LaterDraws(draws), n - 1);
      assert Elems([pool[k]] + rest) == {pool[k]} + Elems(rest);
      [pool[k]] + rest
  }

  /** Drawing the whole pool yields every instance: the draw is a permutation. */
  lemma SampleAllIsPermutation(pool: seq<Instance>, draws: seq<nat>)
    requires Distinct(pool)
    ensures Elems(Sample(pool, draws, |pool|)) == Elems(pool)
  {
    var r := Sample(pool, draws, |pool|);
    DistinctCard(r);
    DistinctCard(pool);
    assert Elems(pool) == Elems(r) + (Elems(pool) - Elems(r));
  }

  /** Every duplicate-free sequence of pool instances is drawn by some
      sequence of draws: no choice of R instances is ruled out. */
  lemma {:induction false} SampleReaches(pool: seq<Instance>, target: seq<Instance>)
    requires Distinct(pool) && Distinct(target) && Elems(target) <= Elems(pool)
    ensures |target| <= |pool|
    ensures exists draws :: Sample(pool, draws, |target|) == target
    decreases |target|
  {
    DrawableLength(pool, target);
    if |target| == 0 {
      assert Sample(pool, [], 0) == target;
    } else {
      var k := PositionOf(pool, target[0]);
      var rest := RemoveAt(pool, k);
      var tail := target[1..];
      TailDrawable(pool, target, k);
      SampleReaches(rest, tail);
      var d :| Sample(rest, d, |tail|) == tail;
      SampleFirst(pool, k, d, |tail|);
      assert [pool[k]] + tail == target;
      assert Sample(pool, [k] + d, |target|) == target;
    }
  }

  /** The position at which `x` occurs in `pool`. */
  lemma PositionOf(pool: seq<Instance>, x: Instance) returns (k: nat)
    requires x in Elems(pool)
    ensures k < |pool| && pool[k] == x
  {
    k :| 0 <= k < |pool| && pool[k] == x;
  }

  /** After drawing `target[0]` from position `k`, the rest of `target` is a
      duplicate-free sequence of the remaining instances. */
  lemma TailDrawable(pool: seq<Instance>, target: seq<Instance>, k: nat)
    requires Distinct(pool) && Distinct(target) && Elems(target) <= Elems(pool)
    requires |target| > 0 && k < |pool| && pool[k] == target[0]
    ensures Distinct(RemoveAt(pool, k)) && Distinct(target[1..])
    ensures Elems(target[1..]) <= Elems(RemoveAt(pool, k))
  {
    var tail := target[1..];
    forall x | x in Elems(tail)
      ensures x in Elems(RemoveAt(pool, k))
    {
      var j :| 0 <= j < |tail| && tail[j] == x;
      assert target[j + 1] == x;
    }
  }

  /** A first draw of `k` takes position `k`, then the later draws sample the
      rest of the pool. */
  lemma SampleFirst(pool: seq<Instance>, k: nat, d: seq<nat>, n: nat)
    requires Distinct(pool) && k < |pool| && n < |pool|
    ensures Sample(pool, [k] + d, n + 1) == [pool[k]] + Sample(RemoveAt(pool, k), d, n)
  {
    assert LaterDraws([k] + d) == d;
    assert FirstDraw([k] + d) == k;
    ModSmall(k, |pool|);
  }

  lemma DrawableLength(pool: seq<Instance>, target: seq<Instance>)
    requires Distinct(pool) && Distinct(target) && Elems(target) <= Elems(pool)
    ensures |target| <= |pool|
  {
    DistinctCard(pool);
    DistinctCard(target);
    SubsetCard(Elems(target), Elems(pool));
  }

  lemma ModSmall(k: nat, m: nat)
    requires k < m
    ensures k % m == k
  {
  }

  lemma SubsetCard<T>(a: set<T>, b: set<T>)
    requires a <= b
    ensures |a| <= |b|
  {
    assert b == a + (b - a);
  }
}
