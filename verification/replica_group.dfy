/** Replica-group mapping: partition number to replica group index to an
    ordered list of K instances, built by slicing the pool, and the
    per-segment choice of one instance from each group of a partition. */
module ReplicaGroups {
  import opened Seqs
  import opened Placement
  import opened Loads

  /** `mapping[p][g]` is the ordered instance list of group `g` of partition `p`. */
  type GroupMapping = seq<seq<seq<Instance>>>

  /** Reduces `x < 2m` into `[0, m)` by at most one subtraction. */
  function Wrap(x: nat, m: nat): (r: nat)
    requires x < 2 * m
    ensures r < m
    ensures x < m ==> r == x
    ensures x >= m ==> r == x - m
  {
    if x < m then x else x - m
  }

  /** The slicing offset of partition `p`: partition 0 starts at the head of
      the pool, and each later partition starts `width` instances after the
      previous one, wrapping around the end of the pool. */
  function Offset(p: nat, width: nat, m: nat): (o: nat)
    requires width <= m && m > 0
    ensures o < m
  {
    if p == 0 then 0 else Wrap(Offset(p - 1, width, m) + width, m)
  }

  /** The offset of partition `p` is `p * width` reduced modulo the pool
      size: the partitions' slices follow one another cyclically. */
  lemma {:induction false} OffsetClosed(p: nat, width: nat, m: nat)
    requires width <= m && m > 0
    ensures Offset(p, width, m) == (p * width) % m
  {
    if p > 0 {
      OffsetClosed(p - 1, width, m);
      ShiftMod((p - 1) * width, width, m);
      assert (p - 1) * width + width == p * width;
      WrapIsMod(Offset(p - 1, width, m) + width, m);
    }
  }

  /** Adding to a reduced value commutes with the reduction. */
  lemma ShiftMod(a: nat, w: nat, m: nat)
    requires m > 0
    ensures (a % m + w) % m == (a + w) % m
  {
    var y := a % m + w;
    var q := a / m;
    assert a + w == q * m + y;
    assert a + w == (q + y / m) * m + y % m;
    ModUnique(a + w, m, q + y / m, y % m);
  }

  /** A remainder in `[0, m)` of a division by `m` is the remainder. */
  lemma ModUnique(x: int, m: int, q: int, r: int)
    requires m > 0 && 0 <= r < m && x == q * m + r
    ensures x % m == r
  {
    var q0 := x / m;
    var r0 := x % m;
    assert x == q0 * m + r0;
    assert (q - q0) * m == r0 - r;
    if q > q0 {
      MulAtLeast(q - q0, m);
    } else if q < q0 {
      MulAtLeast(q0 - q, m);
    }
  }

  lemma MulAtLeast(t: int, m: int)
    requires t >= 1 && m > 0
    ensures t * m >= m
  {
    assert t * m == (t - 1) * m + m;
  }

  lemma WrapIsMod(x: nat, m: nat)
    requires x < 2 * m
    ensures Wrap(x, m) == x % m
  {
  }

  /** Advancing by the whole pool comes back to the head: with a pool of
      exactly `width` instances every partition starts at offset 0. */
  lemma {:induction false} OffsetOfExactPool(p: nat, m: nat)
    requires m > 0
    ensures Offset(p, m, m) == 0
  {
    if p > 0 {
      OffsetOfExactPool(p - 1, m);
    }
  }

  /** Position `g * k + i` of a group-major layout of `groups` lists of `k`. */
  lemma FlatIndexBound(g: nat, i: nat, groups: nat, k: nat)
    requires g < groups && i < k
    ensures g * k + i < groups * k
  {
    MulMono(g + 1, groups, k);
  }

  /** Distinct (group, index) pairs occupy distinct flat positions. */
  lemma FlatIndexInjective(g1: nat, i1: nat, g2: nat, i2: nat, k: nat)
    requires i1 < k && i2 < k
    requires g1 * k + i1 == g2 * k + i2
    ensures g1 == g2 && i1 == i2
  {
    if g1 < g2 {
      MulMono(g1 + 1, g2, k);
    } else if g2 < g1 {
      MulMono(g2 + 1, g1, k);
    }
  }

  /** The pool position of index `i` of group `g` of partition `p`. */
  function Slot(p: nat, g: nat, i: nat, numGroups: nat, k: nat, m: nat): (x: nat)
    requires numGroups * k <= m && m > 0
    requires g < numGroups && i < k
    ensures x < m
  {
    FlatIndexBound(g, i, numGroups, k);
    Wrap(Offset(p, numGroups * k, m) + (g * k + i), m)
  }

  /** Builds the mapping for `numPartitions` partitions of `numGroups` groups
      of `k` instances each. Partition `p`'s groups are consecutive blocks of
      `k` instances read from its offset; the pool must hold at least
      `numGroups * k` instances, and partitions beyond the first reuse
      instances cyclically once the pool is used up. */
  function BuildMapping(pool: seq<Instance>, numPartitions: nat, numGroups: nat, k: nat): (mapping: GroupMapping)
    requires |pool| > 0 && numGroups * k <= |pool|
    ensures |mapping| == numPartitions
    ensures forall p :: 0 <= p < numPartitions ==> |mapping[p]| == numGroups
    ensures forall p, g :: 0 <= p < numPartitions && 0 <= g < numGroups ==> |mapping[p][g]| == k
    ensures forall p, g, i :: 0 <= p < numPartitions && 0 <= g < numGroups && 0 <= i < k ==>
      mapping[p][g][i] == pool[Slot(p, g, i, numGroups, k, |pool|)]
  {
    seq(numPartitions, p requires 0 <= p < numPartitions =>
      seq(numGroups, g requires 0 <= g < numGroups =>
        seq(k, i requires 0 <= i < k => pool[Slot(p, g, i, numGroups, k, |pool|)])))
  }

  /** Within one partition no instance occurs twice across its groups. */
  ghost predicate PartitionInjective(groups: seq<seq<Instance>>) {
    forall g1, i1, g2, i2 ::
      (0 <= g1 < |groups| && 0 <= i1 < |groups[g1]| && 0 <= g2 < |groups| && 0 <= i2 < |groups[g2]|
       && groups[g1][i1] == groups[g2][i2]) ==> g1 == g2 && i1 == i2
  }

  /** Every partition has `numGroups` groups of `k` pool instances, none
      repeated within the partition. */
  ghost predicate WellFormedMapping(mapping: GroupMapping, pool: seq<Instance>, numGroups: nat, k: nat) {
    && (forall p :: 0 <= p < |mapping| ==> |mapping[p]| == numGroups)
    && (forall p, g :: 0 <= p < |mapping| && 0 <= g < |mapping[p]| ==> |mapping[p][g]| == k)
    && (forall p, g, i :: 0 <= p < |mapping| && 0 <= g < |mapping[p]| && 0 <= i < |mapping[p][g]| ==>
          mapping[p][g][i] in pool)
    && (forall p :: 0 <= p < |mapping| ==> PartitionInjective(mapping[p]))
  }

  /** A mapping built from a duplicate-free pool is well formed: groups of a
      partition are pairwise disjoint, even though partitions may share
      instances. */
  lemma BuildMappingWellFormed(pool: seq<Instance>, numPartitions: nat, numGroups: nat, k: nat)
    requires Distinct(pool)
    requires |pool| > 0 && numGroups * k <= |pool|
    ensures WellFormedMapping(BuildMapping(pool, numPartitions, numGroups, k), pool, numGroups, k)
  {
    var mapping := BuildMapping(pool, numPartitions, numGroups, k);
    forall p | 0 <= p < numPartitions
      ensures PartitionInjective(mapping[p])
    {
      forall g1, i1, g2, i2 |
        0 <= g1 < numGroups && 0 <= i1 < k && 0 <= g2 < numGroups && 0 <= i2 < k
        && mapping[p][g1][i1] == mapping[p][g2][i2]
        ensures g1 == g2 && i1 == i2
      {
        SlotInjective(p, g1, i1, g2, i2, numGroups, k, |pool|);
      }
    }
  }

  /** Distinct (group, index) pairs of one partition get distinct pool positions. */
  lemma SlotInjective(p: nat, g1: nat, i1: nat, g2: nat, i2: nat, numGroups: nat, k: nat, m: nat)
    requires numGroups * k <= m && m > 0
    requires g1 < numGroups && i1 < k && g2 < numGroups && i2 < k
    requires Slot(p, g1, i1, numGroups, k, m) == Slot(p, g2, i2, numGroups, k, m)
    ensures g1 == g2 && i1 == i2
  {
    FlatIndexBound(g1, i1, numGroups, k);
    FlatIndexBound(g2, i2, numGroups, k);
    FlatIndexInjective(g1, i1, g2, i2, k);
  }

  /** All instances listed by the groups of one partition. */
  function PartitionInstances(groups: seq<seq<Instance>>): set<Instance> {
    set g, i | 0 <= g < |groups| && 0 <= i < |groups[g]| :: groups[g][i]
  }

  /** Splits `x` into `g * k + i` with `i < k`. */
  lemma {:induction false} Decompose(x: nat, k: nat) returns (g: nat, i: nat)
    requires k > 0
    ensures i < k && x == g * k + i
    decreases x
  {
    if x < k {
      g, i := 0, x;
    } else {
      var g', i' := Decompose(x - k, k);
      g, i := g' + 1, i';
    }
  }

  /** When the pool holds exactly `numGroups * k` instances, partition 0's
      groups use up the whole pool. */
  lemma ExactPoolIsExhausted(pool: seq<Instance>, numPartitions: nat, numGroups: nat, k: nat)
    requires |pool| > 0 && numGroups * k == |pool| && numPartitions > 0
    ensures PartitionInstances(BuildMapping(pool, numPartitions, numGroups, k)[0]) == Elems(pool)
  {
    var groups := BuildMapping(pool, numPartitions, numGroups, k)[0];
    forall v | v in Elems(pool)
      ensures v in PartitionInstances(groups)
    {
      var x :| 0 <= x < |pool| && pool[x] == v;
      var g, i := Decompose(x, k);
      if g >= numGroups {
        MulMono(numGroups, g, k);
      }
      assert groups[g][i] == pool[Slot(0, g, i, numGroups, k, |pool|)];
    }
  }

  /** When the pool holds exactly `numGroups * k` instances, every partition
      reuses partition 0's groups. */
  lemma ExactPoolRepeats(pool: seq<Instance>, numPartitions: nat, numGroups: nat, k: nat, p: nat)
    requires |pool| > 0 && numGroups * k == |pool| && p < numPartitions
    ensures BuildMapping(pool, numPartitions, numGroups, k)[p] == BuildMapping(pool, numPartitions, numGroups, k)[0]
  {
    var mapping := BuildMapping(pool, numPartitions, numGroups, k);
    OffsetOfExactPool(p, |pool|);
    OffsetOfExactPool(0, |pool|);
    forall g | 0 <= g < numGroups
      ensures mapping[p][g] == mapping[0][g]
    {
      assert forall i :: 0 <= i < k ==> mapping[p][g][i] == mapping[0][g][i];
    }
  }

  /** The index-`i` instance of every group of a partition. */
  function Row(groups: seq<seq<Instance>>, i: nat): set<Instance> {
    set g | 0 <= g < |groups| && i < |groups[g]| :: groups[g][i]
  }

  /** Some instance of the group is among the hosts. */
  ghost predicate Meets(group: seq<Instance>, hosts: set<Instance>) {
    exists v :: v in hosts && v in group
  }

  /** The hosts include an instance of every group of the partition. */
  ghost predicate CoversGroups(groups: seq<seq<Instance>>, hosts: set<Instance>) {
    forall g :: 0 <= g < |groups| ==> Meets(groups[g], hosts)
  }

  /** `r` takes index `i` of every group. */
  ghost predicate AlignedAt(groups: seq<seq<Instance>>, r: seq<Instance>, i: nat) {
    |r| == |groups| && forall g :: 0 <= g < |groups| ==> i < |groups[g]| && r[g] == groups[g][i]
  }

  /** Mirrored choice: the least-loaded position of group 0, earliest on a
      tie, is taken in every group of the partition. */
  function PickMirrored(groups: seq<seq<Instance>>, load: Loads): (r: seq<Instance>)
    requires |groups| > 0 && |groups[0]| > 0
    requires forall g :: 0 <= g < |groups| ==> |groups[g]| == |groups[0]|
    ensures |r| == |groups|
    ensures exists i :: 0 <= i < |groups[0]| && AlignedAt(groups, r, i)
    ensures forall j :: 0 <= j < |groups[0]| ==> LoadOf(load, r[0]) <= LoadOf(load, groups[0][j])
  {
    var i := LeastFrom(groups[0], load, {}, 0);
    var r := seq(|groups|, g requires 0 <= g < |groups| => groups[g][i]);
    assert AlignedAt(groups, r, i);
    r
  }

  /** Independent choice: each group contributes its own least-loaded
      instance, earliest on a tie. */
  function PickIndependent(groups: seq<seq<Instance>>, load: Loads): (r: seq<Instance>)
    requires forall g :: 0 <= g < |groups| ==> |groups[g]| > 0
    ensures |r| == |groups|
    ensures forall g :: 0 <= g < |groups| ==> r[g] in groups[g]
    ensures forall g, j :: 0 <= g < |groups| && 0 <= j < |groups[g]| ==>
      LoadOf(load, r[g]) <= LoadOf(load, groups[g][j])
  {
    seq(|groups|, g requires 0 <= g < |groups| => groups[g][LeastFrom(groups[g], load, {}, 0)])
  }

  /** One instance from each group: the same position in every group under
      mirroring, otherwise each group's own least-loaded instance. */
  function PickInGroups(mirrored: bool, groups: seq<seq<Instance>>, load: Loads): (r: seq<Instance>)
    requires |groups| > 0 && |groups[0]| > 0
    requires forall g :: 0 <= g < |groups| ==> |groups[g]| == |groups[0]|
    ensures |r| == |groups|
    ensures forall g :: 0 <= g < |groups| ==> r[g] in groups[g]
    ensures mirrored ==> exists i :: 0 <= i < |groups[0]| && AlignedAt(groups, r, i)
  {
    if mirrored then
      var r := PickMirrored(groups, load);
      AlignedMembers(groups, r);
      r
    else PickIndependent(groups, load)
  }

  lemma AlignedMembers(groups: seq<seq<Instance>>, r: seq<Instance>)
    requires |groups| > 0
    requires exists i :: 0 <= i < |groups[0]| && AlignedAt(groups, r, i)
    ensures forall g :: 0 <= g < |groups| ==> r[g] in groups[g]
  {
    var i :| 0 <= i < |groups[0]| && AlignedAt(groups, r, i);
  }

  /** One instance taken from each group of a partition whose groups share no
      instance: no instance is taken twice, and every group is covered. */
  lemma OnePerGroup(groups: seq<seq<Instance>>, r: seq<Instance>)
    requires PartitionInjective(groups)
    requires |r| == |groups|
    requires forall g :: 0 <= g < |groups| ==> r[g] in groups[g]
    ensures Distinct(r)
    ensures CoversGroups(groups, Elems(r))
  {
    forall a, b | 0 <= a < b < |r|
      ensures r[a] != r[b]
    {
      var ia :| 0 <= ia < |groups[a]| && groups[a][ia] == r[a];
      var ib :| 0 <= ib < |groups[b]| && groups[b][ib] == r[b];
    }
    forall g | 0 <= g < |groups|
      ensures Meets(groups[g], Elems(r))
    {
      assert r[g] in Elems(r);
    }
  }
}
