/** What an operator observes after registering a table and uploading a batch
    of segments into it: the per-segment replica count, the per-server load
    bound, replica-group coverage and mirroring as seen through the
    server-to-segments index, and how the server pool sizes the mapping. */
module Outcomes {
  import opened Results
  import opened Seqs
  import opened Placement
  import opened Partition
  import opened Loads
  import opened ReplicaGroups
  import opened SegmentAssignment

  /** The names of a batch of uploads, in upload order. */
  function Names(metas: seq<SegmentMetadata>): (r: seq<SegmentName>)
    ensures |r| == |metas|
    ensures forall k :: 0 <= k < |metas| ==> r[k] == metas[k].name
  {
    seq(|metas|, k requires 0 <= k < |metas| => metas[k].name)
  }

  /** Every upload of the batch resolves to a partition of a table whose
      mapping has `numPartitions` partitions. */
  ghost predicate AllResolve(column: Option<string>, numPartitions: nat, metas: seq<SegmentMetadata>) {
    forall k :: 0 <= k < |metas| ==> ResolvePartition(column, numPartitions, metas[k]).Ok?
  }

  /** The random draws of the uploads after the first. */
  function Later(rng: nat -> seq<nat>): nat -> seq<nat> {
    i => rng(i + 1)
  }

  /** Uploads a batch of segments one after another; the first failure stops
      the batch. Upload `k` takes its random draws from `rng(k)`. */
  function AddSegments(cfg: TableConfig, st: TableState, metas: seq<SegmentMetadata>, rng: nat -> seq<nat>)
    : (r: Result<TableState>)
    requires Valid(cfg, st)
    ensures r.Ok? ==> Valid(cfg, r.value)
    ensures r.Ok? ==> r.value.pool == st.pool && r.value.mapping == st.mapping
    ensures r.Ok? ==> Fresh(st.view, metas)
    ensures r.Ok? ==> r.value.view.Keys == st.view.Keys + Elems(Names(metas))
    ensures r.Ok? ==> Keeps(st, r.value)
    ensures r.Ok? && cfg.strategy.ReplicaGroupAssignment? ==>
      PlacedAsResolved(cfg.strategy.replicaGroup.partitionColumn, |st.mapping|, metas, r.value.partitionOf)
    decreases |metas|
  {
    if |metas| == 0 then
      assert Names(metas) == [];
      Ok(st)
    else
      var next :- AddSegment(cfg, st, metas[0], rng(0));
      var rest :- AddSegments(cfg, next, metas[1..], Later(rng));
      BatchStep(st, next, rest, metas);
      if cfg.strategy.ReplicaGroupAssignment? then
        BatchPartitions(cfg.strategy.replicaGroup.partitionColumn, |st.mapping|, metas,
                        next.partitionOf, rest.partitionOf);
        Ok(rest)
      else Ok(rest)
  }

  /** The names of the batch are pairwise distinct and none is placed yet. */
  ghost predicate Fresh(view: View, metas: seq<SegmentMetadata>) {
    Distinct(Names(metas)) && forall k :: 0 <= k < |metas| ==> metas[k].name !in view
  }

  /** Every segment of `st` stays where it was, in the same partition. */
  ghost predicate Keeps(st: TableState, after: TableState) {
    && (forall s :: s in st.view ==> s in after.view && after.view[s] == st.view[s])
    && (forall s :: s in st.partitionOf ==> s in after.partitionOf && after.partitionOf[s] == st.partitionOf[s])
  }

  /** Every upload of the batch resolved, and its segment was recorded in the
      partition it resolved to. */
  ghost predicate PlacedAsResolved(column: Option<string>, numPartitions: nat, metas: seq<SegmentMetadata>,
                                   partitionOf: map<SegmentName, nat>) {
    forall k :: 0 <= k < |metas| ==>
      var resolved := ResolvePartition(column, numPartitions, metas[k]);
      resolved.Ok? && metas[k].name in partitionOf && partitionOf[metas[k].name] == resolved.value
  }

  /** One upload followed by the rest of the batch adds the whole batch. */
  lemma BatchStep(st: TableState, next: TableState, rest: TableState, metas: seq<SegmentMetadata>)
    requires |metas| > 0
    requires Extends(st, next, metas[0].name) && metas[0].name !in st.view
    requires metas[0].name !in st.partitionOf
    requires Fresh(next.view, metas[1..])
    requires rest.view.Keys == next.view.Keys + Elems(Names(metas[1..]))
    requires Keeps(next, rest)
    ensures Fresh(st.view, metas)
    ensures rest.view.Keys == st.view.Keys + Elems(Names(metas))
    ensures Keeps(st, rest)
  {
    var names := Names(metas);
    assert names[1..] == Names(metas[1..]);
    assert Elems(names) == {names[0]} + Elems(names[1..]);
    forall k | 1 <= k < |metas|
      ensures metas[k].name !in st.view && metas[k].name != metas[0].name
    {
      assert metas[1..][k - 1] == metas[k];
    }
  }

  /** The first upload's recorded partition survives the rest of the batch. */
  lemma BatchPartitions(column: Option<string>, numPartitions: nat, metas: seq<SegmentMetadata>,
                        next: map<SegmentName, nat>, rest: map<SegmentName, nat>)
    requires |metas| > 0
    requires ResolvePartition(column, numPartitions, metas[0]).Ok?
    requires metas[0].name in next && next[metas[0].name] == ResolvePartition(column, numPartitions, metas[0]).value
    requires forall s :: s in next ==> s in rest && rest[s] == next[s]
    requires PlacedAsResolved(column, numPartitions, metas[1..], rest)
    ensures PlacedAsResolved(column, numPartitions, metas, rest)
  {
    forall k | 1 <= k < |metas|
      ensures ResolvePartition(column, numPartitions, metas[k]).Ok?
      ensures metas[k].name in rest && rest[metas[k].name] == ResolvePartition(column, numPartitions, metas[k]).value
    {
      assert metas[1..][k - 1] == metas[k];
    }
  }

  // ----- completion -----

  /** The capacity a strategy needs to place any fresh segment: R pool
      instances for random and balanced tables, a resolvable partition for
      every upload of a replica-group table. */
  ghost predicate CanPlace(cfg: TableConfig, st: TableState, metas: seq<SegmentMetadata>) {
    if cfg.strategy.ReplicaGroupAssignment? then
      AllResolve(cfg.strategy.replicaGroup.partitionColumn, |st.mapping|, metas)
    else |st.pool| >= cfg.numReplicas
  }

  /** A batch of fresh, pairwise distinct names is placed in full when the
      table can place each of them. */
  lemma {:induction false} AddSegmentsSucceeds(cfg: TableConfig, st: TableState, metas: seq<SegmentMetadata>,
                                               rng: nat -> seq<nat>)
    requires Valid(cfg, st)
    requires Fresh(st.view, metas)
    requires CanPlace(cfg, st, metas)
    ensures AddSegments(cfg, st, metas, rng).Ok?
    decreases |metas|
  {
    if |metas| > 0 {
      FirstPlaced(cfg, st, metas, rng(0));
      AddSegmentsSucceeds(cfg, AddSegment(cfg, st, metas[0], rng(0)).value, metas[1..], Later(rng));
    }
  }

  /** The first upload of a placeable batch is placed, and the rest of the
      batch stays fresh and placeable. */
  lemma FirstPlaced(cfg: TableConfig, st: TableState, metas: seq<SegmentMetadata>, draws: seq<nat>)
    requires Valid(cfg, st)
    requires |metas| > 0 && Fresh(st.view, metas)
    requires CanPlace(cfg, st, metas)
    ensures AddSegment(cfg, st, metas[0], draws).Ok?
    ensures Fresh(AddSegment(cfg, st, metas[0], draws).value.view, metas[1..])
    ensures CanPlace(cfg, AddSegment(cfg, st, metas[0], draws).value, metas[1..])
  {
    TailPlaceable(cfg, st, AddSegment(cfg, st, metas[0], draws).value, metas);
  }

  lemma TailPlaceable(cfg: TableConfig, st: TableState, next: TableState, metas: seq<SegmentMetadata>)
    requires |metas| > 0 && Fresh(st.view, metas)
    requires CanPlace(cfg, st, metas)
    requires Extends(st, next, metas[0].name)
    ensures Fresh(next.view, metas[1..])
    ensures CanPlace(cfg, next, metas[1..])
  {
    var tail := metas[1..];
    forall k | 0 <= k < |tail|
      ensures tail[k].name !in next.view
    {
      assert tail[k] == metas[k + 1];
      assert Names(metas)[k + 1] != Names(metas)[0];
    }
    assert Names(tail) == Names(metas)[1..];
    assert forall k :: 0 <= k < |tail| ==> tail[k] == metas[k + 1];
  }

  /** The scenario every outcome is about: register a table over a pool of
      eligible instances, then upload a batch of segments into it. */
  function Upload(cfg: TableConfig, pool: seq<Instance>, metas: seq<SegmentMetadata>, rng: nat -> seq<nat>)
    : (r: Result<TableState>)
    requires Distinct(pool)
    ensures r.Ok? ==> AddTable(cfg, pool).Ok? && r.value.mapping == AddTable(cfg, pool).value.mapping
    ensures r.Ok? ==> Valid(cfg, r.value) && r.value.pool == pool
    ensures r.Ok? ==> Distinct(Names(metas)) && r.value.view.Keys == Elems(Names(metas))
    ensures r.Ok? && cfg.strategy.ReplicaGroupAssignment? ==>
      PlacedAsResolved(cfg.strategy.replicaGroup.partitionColumn, |r.value.mapping|, metas, r.value.partitionOf)
  {
    var st :- AddTable(cfg, pool);
    AddSegments(cfg, st, metas, rng)
  }

  /** The scenario completes when the table registers, the names are
      distinct, and the table can place every upload. */
  lemma UploadSucceeds(cfg: TableConfig, pool: seq<Instance>, metas: seq<SegmentMetadata>, rng: nat -> seq<nat>)
    requires Distinct(pool) && Distinct(Names(metas))
    requires AddTable(cfg, pool).Ok?
    requires CanPlace(cfg, AddTable(cfg, pool).value, metas)
    ensures Upload(cfg, pool, metas, rng).Ok?
  {
    AddSegmentsSucceeds(cfg, AddTable(cfg, pool).value, metas, rng);
  }

  /** A batch whose names are pairwise distinct places exactly that many
      segments. */
  lemma BatchSize(metas: seq<SegmentMetadata>, view: View)
    requires Distinct(Names(metas))
    requires view.Keys == Elems(Names(metas))
    ensures |view| == |metas|
  {
    DistinctCard(Names(metas));
  }

  // ----- random assignment -----

  /** Random assignment, R <= |pool|: after any batch of distinct uploads the
      table holds one entry per upload, each on exactly R distinct pool
      instances, whatever the random draws. */
  lemma RandomAssignmentOutcome(cfg: TableConfig, pool: seq<Instance>, metas: seq<SegmentMetadata>,
                                rng: nat -> seq<nat>)
    requires cfg.strategy.RandomAssignment? && cfg.numReplicas >= 1
    requires Distinct(pool) && |pool| >= cfg.numReplicas
    requires Distinct(Names(metas))
    ensures var r := Upload(cfg, pool, metas, rng);
      && r.Ok?
      && |r.value.view| == |metas|
      && forall s :: s in r.value.view ==> |r.value.view[s]| == cfg.numReplicas && r.value.view[s] <= Elems(pool)
  {
    UploadSucceeds(cfg, pool, metas, rng);
    var after := Upload(cfg, pool, metas, rng).value;
    BatchSize(metas, after.view);
  }

  // ----- balanced assignment -----

  /** The segments an instance hosts never leave the bounds set by the even
      share of R copies per segment: at least total / M and at most one
      more, and exactly the share when M divides the total. */
  ghost predicate WithinEvenShare(pool: seq<Instance>, view: View, total: int)
    requires |pool| > 0
  {
    var lo := total / |pool|;
    var hi := if lo * |pool| < total then lo + 1 else lo;
    forall v :: v in pool ==> lo <= |Hosted(view, v)| <= hi
  }

  /** A valid balanced table with `n` segments keeps every instance within
      the even share of its `n * R` copies. */
  lemma BalancedTableShare(cfg: TableConfig, st: TableState, n: nat)
    requires Valid(cfg, st) && cfg.strategy.BalanceNumSegment?
    requires |st.pool| > 0 && |st.view| == n
    ensures WithinEvenShare(st.pool, st.view, n * cfg.numReplicas)
  {
    assert SumLoads(st.pool, st.load) == n * cfg.numReplicas;
    BalancedBounds(st.pool, st.load);
    assert forall v :: v in st.pool ==> LoadOf(st.load, v) == |Hosted(st.view, v)|;
  }

  /** Balanced assignment keeps every instance's segment count within one of
      the even share, after any batch of distinct uploads. */
  lemma BalancedAssignmentOutcome(cfg: TableConfig, pool: seq<Instance>, metas: seq<SegmentMetadata>,
                                  rng: nat -> seq<nat>)
    requires cfg.strategy.BalanceNumSegment? && cfg.numReplicas >= 1
    requires Distinct(pool) && |pool| >= cfg.numReplicas
    requires Distinct(Names(metas))
    ensures var r := Upload(cfg, pool, metas, rng);
      r.Ok? && WithinEvenShare(pool, r.value.view, |metas| * cfg.numReplicas)
  {
    UploadSucceeds(cfg, pool, metas, rng);
    var after := Upload(cfg, pool, metas, rng).value;
    BatchSize(metas, after.view);
    BalancedTableShare(cfg, after, |metas|);
  }

  /** Twenty segments at three replicas over six servers: ten per server. */
  lemma BalancedTwentySegmentsOnSixServers(cfg: TableConfig, pool: seq<Instance>, metas: seq<SegmentMetadata>,
                                           rng: nat -> seq<nat>)
    requires cfg.strategy.BalanceNumSegment? && cfg.numReplicas == 3
    requires Distinct(pool) && |pool| == 6
    requires Distinct(Names(metas)) && |metas| == 20
    ensures var r := Upload(cfg, pool, metas, rng);
      r.Ok? && forall v :: v in pool ==> |Hosted(r.value.view, v)| == 10
  {
    BalancedAssignmentOutcome(cfg, pool, metas, rng);
  }

  // ----- replica groups -----

  /** In a valid replica-group table every segment reaches, through the
      server-to-segments index, every replica group of its partition. */
  lemma ReplicaGroupCoverage(cfg: TableConfig, st: TableState, s: SegmentName, g: nat)
    requires Valid(cfg, st) && cfg.strategy.ReplicaGroupAssignment?
    requires s in st.view
    requires st.partitionOf[s] < |st.mapping| && g < |st.mapping[st.partitionOf[s]]|
    ensures s in GroupSegments(InverseIndex(st.pool, st.view), st.mapping[st.partitionOf[s]][g])
  {
    var group := st.mapping[st.partitionOf[s]][g];
    assert Meets(group, st.view[s]);
    var v :| v in st.view[s] && v in group;
    InverseIndexIff(st.pool, st.view, v, s);
  }

  /** Within a partition whose groups share no instance and have equal size,
      position `i` of group `g` is in row `j` exactly when `i == j`. */
  lemma RowMember(groups: seq<seq<Instance>>, g: nat, i: nat, j: nat)
    requires PartitionInjective(groups)
    requires g < |groups| && i < |groups[g]| && j < |groups[g]|
    requires forall h :: 0 <= h < |groups| ==> |groups[h]| == |groups[g]|
    ensures groups[g][i] in Row(groups, j) <==> i == j
  {
    if groups[g][i] in Row(groups, j) {
      var h :| 0 <= h < |groups| && j < |groups[h]| && groups[h][j] == groups[g][i];
    }
  }

  /** The groups of one partition: equally sized, of pool instances, sharing
      no instance. */
  ghost predicate GroupsOfPool(groups: seq<seq<Instance>>, pool: seq<Instance>, k: nat) {
    && PartitionInjective(groups)
    && (forall g :: 0 <= g < |groups| ==> |groups[g]| == k)
    && (forall g, i :: 0 <= g < |groups| && 0 <= i < k ==> groups[g][i] in pool)
  }

  /** Under mirroring, the instance at position `i` of a group hosts exactly
      the segments placed on row `i` of the partition. */
  lemma MirroredHosting(groups: seq<seq<Instance>>, pool: seq<Instance>, k: nat, view: View, g: nat, i: nat)
    requires GroupsOfPool(groups, pool, k)
    requires forall s :: s in view ==> MirroredHosts(groups, k, view[s])
    requires g < |groups| && i < k
    ensures Hosted(view, groups[g][i]) == set s | s in view && view[s] == Row(groups, i)
  {
    forall s | s in view
      ensures groups[g][i] in view[s] <==> view[s] == Row(groups, i)
    {
      var j :| 0 <= j < k && view[s] == Row(groups, j);
      RowMember(groups, g, i, j);
    }
  }

  /** The segment sets, as the server-to-segments index shows them, of the
      servers at position `i` of each group. */
  function MirrorImage(index: ServerIndex, groups: seq<seq<Instance>>, i: nat): set<set<SegmentName>> {
    set g | 0 <= g < |groups| && i < |groups[g]| && groups[g][i] in index :: index[groups[g][i]]
  }

  /** In a valid table-level table every group holds every segment. */
  lemma TableLevelCoverage(cfg: TableConfig, st: TableState, g: nat)
    requires Valid(cfg, st) && cfg.strategy.ReplicaGroupAssignment?
    requires |st.mapping| == 1 && g < cfg.numReplicas
    ensures st.view.Keys <= GroupSegments(InverseIndex(st.pool, st.view), st.mapping[0][g])
  {
    forall s | s in st.view
      ensures s in GroupSegments(InverseIndex(st.pool, st.view), st.mapping[0][g])
    {
      assert st.partitionOf[s] == 0;
      ReplicaGroupCoverage(cfg, st, s, g);
    }
  }

  /** Under mirroring, the servers at position `i` of every group show one
      and the same segment set. */
  lemma MirroredPosition(groups: seq<seq<Instance>>, pool: seq<Instance>, k: nat, view: View, i: nat)
    requires GroupsOfPool(groups, pool, k) && |groups| > 0
    requires forall s :: s in view ==> MirroredHosts(groups, k, view[s])
    requires i < k
    ensures |MirrorImage(InverseIndex(pool, view), groups, i)| == 1
  {
    var index := InverseIndex(pool, view);
    forall g | 0 <= g < |groups|
      ensures groups[g][i] in index && index[groups[g][i]] == index[groups[0][i]]
    {
      MirroredHosting(groups, pool, k, view, g, i);
      MirroredHosting(groups, pool, k, view, 0, i);
    }
    assert MirrorImage(index, groups, i) == {index[groups[0][i]]};
  }

  /** What mirroring gives a valid table-level table: the single partition's
      groups are R groups of k pool instances sharing none, and every segment
      sits on one row of them. */
  lemma MirroredTableFacts(cfg: TableConfig, st: TableState)
    requires Valid(cfg, st) && cfg.strategy.ReplicaGroupAssignment?
    requires cfg.strategy.replicaGroup.mirrorAssignmentAcrossReplicaGroups
    requires |st.mapping| == 1
    ensures |st.mapping[0]| == cfg.numReplicas
    ensures GroupsOfPool(st.mapping[0], st.pool, cfg.strategy.replicaGroup.numInstancesPerPartition)
    ensures forall s :: s in st.view ==>
      MirroredHosts(st.mapping[0], cfg.strategy.replicaGroup.numInstancesPerPartition, st.view[s])
  {
    TableGroups(cfg, st);
    MirroredRows(cfg, st);
  }

  lemma TableGroups(cfg: TableConfig, st: TableState)
    requires Valid(cfg, st) && cfg.strategy.ReplicaGroupAssignment?
    requires |st.mapping| == 1
    ensures |st.mapping[0]| == cfg.numReplicas
    ensures GroupsOfPool(st.mapping[0], st.pool, cfg.strategy.replicaGroup.numInstancesPerPartition)
  {
  }

  lemma MirroredRows(cfg: TableConfig, st: TableState)
    requires Valid(cfg, st) && cfg.strategy.ReplicaGroupAssignment?
    requires cfg.strategy.replicaGroup.mirrorAssignmentAcrossReplicaGroups
    requires |st.mapping| == 1
    ensures forall s :: s in st.view ==>
      MirroredHosts(st.mapping[0], cfg.strategy.replicaGroup.numInstancesPerPartition, st.view[s])
  {
    forall s | s in st.view
      ensures MirroredHosts(st.mapping[0], cfg.strategy.replicaGroup.numInstancesPerPartition, st.view[s])
    {
      assert st.partitionOf[s] == 0;
    }
  }

  /** Table-level replica groups with mirroring, R groups of k instances and
      a pool of at least R * k: after any batch of distinct uploads every
      group holds every segment, and the servers at the same position of
      every group host one and the same set of segments. */
  lemma TableLevelMirrorOutcome(cfg: TableConfig, pool: seq<Instance>, metas: seq<SegmentMetadata>,
                                rng: nat -> seq<nat>)
    requires cfg.strategy.ReplicaGroupAssignment?
    requires cfg.strategy.replicaGroup.mirrorAssignmentAcrossReplicaGroups
    requires cfg.strategy.replicaGroup.partitionColumn.None?
    requires cfg.numReplicas >= 1 && cfg.strategy.replicaGroup.numInstancesPerPartition >= 1
    requires Distinct(pool) && |pool| >= cfg.numReplicas * cfg.strategy.replicaGroup.numInstancesPerPartition
    requires Distinct(Names(metas))
    ensures var r := Upload(cfg, pool, metas, rng);
      && r.Ok?
      && var index := InverseIndex(pool, r.value.view);
      && (forall g :: 0 <= g < cfg.numReplicas ==> Elems(Names(metas)) <= GroupSegments(index, r.value.mapping[0][g]))
      && (forall i :: 0 <= i < cfg.strategy.replicaGroup.numInstancesPerPartition ==>
            |MirrorImage(index, r.value.mapping[0], i)| == 1)
  {
    AddTableSucceeds(cfg, pool);
    UploadSucceeds(cfg, pool, metas, rng);
    var after := Upload(cfg, pool, metas, rng).value;
    forall g | 0 <= g < cfg.numReplicas
      ensures Elems(Names(metas)) <= GroupSegments(InverseIndex(pool, after.view), after.mapping[0][g])
    {
      TableLevelCoverage(cfg, after, g);
    }
    MirroredTableFacts(cfg, after);
    forall i | 0 <= i < cfg.strategy.replicaGroup.numInstancesPerPartition
      ensures |MirrorImage(InverseIndex(pool, after.view), after.mapping[0], i)| == 1
    {
      MirroredPosition(after.mapping[0], pool, cfg.strategy.replicaGroup.numInstancesPerPartition, after.view, i);
    }
  }

  /** The i-th upload of the partition-level scenario: its metadata records
      the single-value range `i % numPartitions` for the partition column. */
  ghost predicate ModuloUploads(column: string, numPartitions: nat, metas: seq<SegmentMetadata>)
    requires numPartitions > 0
  {
    forall i :: 0 <= i < |metas| ==> metas[i] == SegmentWithPartition(metas[i].name, Some(column), i % numPartitions)
  }

  /** The segments of a batch uploaded for partition `p`. */
  function UploadedFor(metas: seq<SegmentMetadata>, numPartitions: nat, p: nat): set<SegmentName>
    requires numPartitions > 0
  {
    set i | 0 <= i < |metas| && i % numPartitions == p :: metas[i].name
  }

  /** A valid replica-group table holds every segment placed in partition
      `p` in every group of `p`. */
  lemma PartitionedTableView(cfg: TableConfig, st: TableState, p: nat, g: nat, segments: set<SegmentName>)
    requires Valid(cfg, st) && cfg.strategy.ReplicaGroupAssignment?
    requires p < |st.mapping| && g < cfg.numReplicas
    requires forall s :: s in segments ==> s in st.view && st.partitionOf[s] == p
    ensures segments <= GroupSegments(InverseIndex(st.pool, st.view), st.mapping[p][g])
  {
    forall s | s in segments
      ensures s in GroupSegments(InverseIndex(st.pool, st.view), st.mapping[p][g])
    {
      ReplicaGroupCoverage(cfg, st, s, g);
    }
  }

  /** Partition-level replica groups over P partitions of a column, uploads
      tagged with partition `i % P`: after the batch, every replica group of
      partition `p` holds every segment uploaded for `p`. */
  lemma PartitionLevelOutcome(cfg: TableConfig, pool: seq<Instance>, column: string, metas: seq<SegmentMetadata>,
                              rng: nat -> seq<nat>)
    requires cfg.strategy.ReplicaGroupAssignment?
    requires cfg.strategy.replicaGroup.partitionColumn == Some(column)
    requires column in cfg.segmentPartitionConfig && cfg.segmentPartitionConfig[column].numPartitions >= 1
    requires cfg.numReplicas >= 1 && cfg.strategy.replicaGroup.numInstancesPerPartition >= 1
    requires Distinct(pool) && |pool| >= cfg.numReplicas * cfg.strategy.replicaGroup.numInstancesPerPartition
    requires Distinct(Names(metas))
    requires ModuloUploads(column, cfg.segmentPartitionConfig[column].numPartitions, metas)
    ensures var numPartitions := cfg.segmentPartitionConfig[column].numPartitions;
      var r := Upload(cfg, pool, metas, rng);
      && r.Ok?
      && |r.value.mapping| == numPartitions
      && var index := InverseIndex(pool, r.value.view);
      forall p, g :: 0 <= p < numPartitions && 0 <= g < cfg.numReplicas ==>
        UploadedFor(metas, numPartitions, p) <= GroupSegments(index, r.value.mapping[p][g])
  {
    var numPartitions := cfg.segmentPartitionConfig[column].numPartitions;
    AddTableSucceeds(cfg, pool);
    ModuloUploadsResolve(column, numPartitions, metas);
    UploadSucceeds(cfg, pool, metas, rng);
    var after := Upload(cfg, pool, metas, rng).value;
    forall p, g | 0 <= p < numPartitions && 0 <= g < cfg.numReplicas
      ensures UploadedFor(metas, numPartitions, p) <= GroupSegments(InverseIndex(pool, after.view), after.mapping[p][g])
    {
      forall s | s in UploadedFor(metas, numPartitions, p)
        ensures s in after.view && after.partitionOf[s] == p
      {
        var i :| 0 <= i < |metas| && i % numPartitions == p && metas[i].name == s;
        assert Names(metas)[i] == s;
      }
      PartitionedTableView(cfg, after, p, g, UploadedFor(metas, numPartitions, p));
    }
  }

  /** Every upload tagged with `i % P` resolves to partition `i % P`. */
  lemma ModuloUploadsResolve(column: string, numPartitions: nat, metas: seq<SegmentMetadata>)
    requires numPartitions > 0
    requires ModuloUploads(column, numPartitions, metas)
    ensures forall i :: 0 <= i < |metas| ==>
      ResolvePartition(Some(column), numPartitions, metas[i]) == Ok(i % numPartitions)
  {
    forall i | 0 <= i < |metas|
      ensures ResolvePartition(Some(column), numPartitions, metas[i]) == Ok(i % numPartitions)
    {
      ModuloSegmentResolves(metas[i].name, column, numPartitions, i);
    }
  }

  // ----- pool sizing -----

  /** A replica-group table registers exactly when its configuration is
      valid and the pool holds R groups of k instances; a smaller pool is
      refused as insufficient. */
  lemma AddTableSucceeds(cfg: TableConfig, pool: seq<Instance>)
    requires Distinct(pool)
    requires cfg.strategy.ReplicaGroupAssignment?
    requires cfg.numReplicas >= 1 && cfg.strategy.replicaGroup.numInstancesPerPartition >= 1
    requires PartitionCount(cfg.segmentPartitionConfig, cfg.strategy.replicaGroup.partitionColumn).Ok?
    ensures AddTable(cfg, pool).Ok? <==>
      |pool| >= cfg.numReplicas * cfg.strategy.replicaGroup.numInstancesPerPartition
    ensures AddTable(cfg, pool).Err? ==> AddTable(cfg, pool).error == InsufficientInstances
  {
  }

  /** A pool of exactly R * k instances is used up by the first partition:
      every instance belongs to one of its groups, and every other partition
      repeats the first one's groups. */
  lemma ExactPoolSizing(cfg: TableConfig, pool: seq<Instance>)
    requires Distinct(pool)
    requires cfg.strategy.ReplicaGroupAssignment?
    requires cfg.numReplicas >= 1 && cfg.strategy.replicaGroup.numInstancesPerPartition >= 1
    requires PartitionCount(cfg.segmentPartitionConfig, cfg.strategy.replicaGroup.partitionColumn).Ok?
    requires |pool| == cfg.numReplicas * cfg.strategy.replicaGroup.numInstancesPerPartition
    ensures AddTable(cfg, pool).Ok?
    ensures var mapping := AddTable(cfg, pool).value.mapping;
      && PartitionInstances(mapping[0]) == Elems(pool)
      && forall p :: 0 <= p < |mapping| ==> mapping[p] == mapping[0]
  {
    AddTableSucceeds(cfg, pool);
    var rg := cfg.strategy.replicaGroup;
    var numPartitions := PartitionCount(cfg.segmentPartitionConfig, rg.partitionColumn).value;
    MulMono(1, cfg.numReplicas, rg.numInstancesPerPartition);
    ExactPoolIsExhausted(pool, numPartitions, cfg.numReplicas, rg.numInstancesPerPartition);
    forall p | 0 <= p < numPartitions
      ensures BuildMapping(pool, numPartitions, cfg.numReplicas, rg.numInstancesPerPartition)[p]
        == BuildMapping(pool, numPartitions, cfg.numReplicas, rg.numInstancesPerPartition)[0]
    {
      ExactPoolRepeats(pool, numPartitions, cfg.numReplicas, rg.numInstancesPerPartition, p);
    }
  }
}
