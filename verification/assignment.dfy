/** The placement engine of one table: its configuration, its state (the
    committed placement, the load counters, the partition of each segment and
    the replica-group mapping), table registration and segment addition
    dispatched over the three strategies. */
module SegmentAssignment {
  import opened Results
  import opened Seqs
  import opened Placement
  import opened Partition
  import opened Loads
  import opened RandomStrategy
  import opened BalancedStrategy
  import opened ReplicaGroups

  datatype ReplicaGroupStrategyConfig = ReplicaGroupStrategyConfig(
    numInstancesPerPartition: int,
    mirrorAssignmentAcrossReplicaGroups: bool,
    partitionColumn: Option<string>)

  /** The closed set of strategies, selected per table. */
  datatype AssignmentStrategy =
    | RandomAssignment
    | BalanceNumSegment
    | ReplicaGroupAssignment(replicaGroup: ReplicaGroupStrategyConfig)

  datatype TableConfig = TableConfig(
    numReplicas: int,
    strategy: AssignmentStrategy,
    segmentPartitionConfig: map<string, ColumnPartitionConfig>)

  /** The per-table state owned by the engine. `pool` is the deterministic
      list of eligible instances, `view` the committed placement, `load` the
      running per-instance counters, `partitionOf` the partition each segment
      was placed in, `mapping` the replica-group mapping (empty for the other
      strategies). */
  datatype TableState = TableState(
    pool: seq<Instance>,
    view: View,
    load: Loads,
    partitionOf: map<SegmentName, nat>,
    mapping: GroupMapping)

  /** The number of partitions a replica-group table is mapped over: one
      without a partition column, otherwise the column's configured count. */
  function PartitionCount(partitionConfig: map<string, ColumnPartitionConfig>, column: Option<string>): (r: Result<nat>)
    ensures r.Ok? ==> r.value >= 1
    ensures column.None? ==> r == Ok(1)
    ensures column.Some? && column.value !in partitionConfig ==> r == Err(ConfigurationError)
    ensures column.Some? && column.value in partitionConfig ==>
      var configured := partitionConfig[column.value].numPartitions;
      && (r.Ok? <==> configured >= 1)
      && (r.Ok? ==> r.value == configured)
      && (r.Err? ==> r.error == ConfigurationError)
  {
    match column
    case None => Ok(1)
    case Some(c) =>
      if c in partitionConfig && partitionConfig[c].numPartitions >= 1
      then Ok(partitionConfig[c].numPartitions)
      else Err(ConfigurationError)
  }

  // ----- invariants -----

  /** Every placed segment has exactly R pool instances, the counters equal
      the number of segments each pool instance hosts, and they sum to R per
      segment. */
  ghost predicate CommonValid(r: nat, st: TableState) {
    && r >= 1
    && Distinct(st.pool)
    && st.partitionOf.Keys == st.view.Keys
    && HostsValid(r, st.pool, st.view)
    && LoadsMatchView(st.pool, st.load, st.view)
    && SumLoads(st.pool, st.load) == r * |st.view|
  }

  ghost predicate HostsValid(r: nat, pool: seq<Instance>, view: View) {
    forall s :: s in view ==> view[s] <= Elems(pool) && |view[s]| == r
  }

  ghost predicate LoadsMatchView(pool: seq<Instance>, load: Loads, view: View) {
    forall v :: v in pool ==> LoadOf(load, v) == |Hosted(view, v)|
  }

  /** The hosts of a segment are the index-`i` instances of every group, for
      one index `i`. */
  ghost predicate MirroredHosts(groups: seq<seq<Instance>>, k: nat, hosts: set<Instance>) {
    exists i :: 0 <= i < k && hosts == Row(groups, i)
  }

  /** The mapping is well formed and covers the partitions; each segment holds
      one instance of every group of its partition and no other instance, and
      under mirroring the same index in every group. */
  ghost predicate ReplicaGroupValid(rg: ReplicaGroupStrategyConfig, r: nat, st: TableState) {
    && rg.numInstancesPerPartition >= 1
    && st.partitionOf.Keys == st.view.Keys
    && |st.mapping| >= 1
    && (rg.partitionColumn.None? ==> |st.mapping| == 1)
    && WellFormedMapping(st.mapping, st.pool, r, rg.numInstancesPerPartition)
    && (forall s :: s in st.view ==> st.partitionOf[s] < |st.mapping|)
    && (forall s :: s in st.view ==> CoversGroups(st.mapping[st.partitionOf[s]], st.view[s]))
    && (forall s :: s in st.view ==> st.view[s] <= PartitionInstances(st.mapping[st.partitionOf[s]]))
    && (rg.mirrorAssignmentAcrossReplicaGroups ==>
          forall s :: s in st.view ==>
            MirroredHosts(st.mapping[st.partitionOf[s]], rg.numInstancesPerPartition, st.view[s]))
  }

  ghost predicate Valid(cfg: TableConfig, st: TableState) {
    && cfg.numReplicas >= 1
    && CommonValid(cfg.numReplicas, st)
    && match cfg.strategy
       case RandomAssignment => true
       case BalanceNumSegment => Balanced(st.pool, st.load)
       case ReplicaGroupAssignment(rg) => ReplicaGroupValid(rg, cfg.numReplicas, st)
  }

  // ----- table registration -----

  function EmptyTable(pool: seq<Instance>, mapping: GroupMapping): (st: TableState)
    ensures st.pool == pool && st.view == map[] && st.mapping == mapping
    ensures Distinct(pool) ==> CommonValid(1, st)
  {
    SumOfNoLoads(pool);
    TableState(pool, map[], map[], map[], mapping)
  }

  /** Registers a table over a duplicate-free pool. Replica-group tables get
      their mapping here: R groups of K instances per partition. */
  function AddTable(cfg: TableConfig, pool: seq<Instance>): (r: Result<TableState>)
    requires Distinct(pool)
    ensures r.Ok? ==> Valid(cfg, r.value) && r.value.pool == pool && r.value.view == map[]
    ensures cfg.numReplicas < 1 ==> r == Err(ConfigurationError)
    ensures cfg.numReplicas >= 1 && !cfg.strategy.ReplicaGroupAssignment? ==> r.Ok?
    ensures cfg.numReplicas >= 1 && cfg.strategy.ReplicaGroupAssignment? ==>
      (cfg.strategy.replicaGroup.numInstancesPerPartition < 1 ==> r == Err(ConfigurationError))
    ensures r.Ok? && cfg.strategy.ReplicaGroupAssignment? ==>
      var rg := cfg.strategy.replicaGroup;
      && |pool| >= cfg.numReplicas * rg.numInstancesPerPartition
      && Ok(|r.value.mapping|) == PartitionCount(cfg.segmentPartitionConfig, rg.partitionColumn)
  {
    if cfg.numReplicas < 1 then Err(ConfigurationError)
    else
      match cfg.strategy
      case RandomAssignment => Ok(EmptyTable(pool, []))
      case BalanceNumSegment =>
        SumOfNoLoads(pool);
        Ok(EmptyTable(pool, []))
      case ReplicaGroupAssignment(rg) =>
        if rg.numInstancesPerPartition < 1 then Err(ConfigurationError)
        else
          var numPartitions :- PartitionCount(cfg.segmentPartitionConfig, rg.partitionColumn);
          if |pool| < cfg.numReplicas * rg.numInstancesPerPartition then Err(InsufficientInstances)
          else
            BuildMappingWellFormed(pool, numPartitions, cfg.numReplicas, rg.numInstancesPerPartition);
            Ok(EmptyTable(pool, BuildMapping(pool, numPartitions, cfg.numReplicas, rg.numInstancesPerPartition)))
  }

  // ----- segment addition -----

  /** Records the placement of a fresh segment and counts it on its hosts. */
  function Commit(st: TableState, name: SegmentName, partition: nat, chosen: seq<Instance>): TableState {
    st.(view := st.view[name := Elems(chosen)],
        load := Bump(st.load, Elems(chosen)),
        partitionOf := st.partitionOf[name := partition])
  }

  /** Committing R distinct pool instances for a fresh segment keeps the
      counters equal to the placement and their sum at R per segment. */
  lemma CommitKeepsCommon(r: nat, st: TableState, name: SegmentName, partition: nat, chosen: seq<Instance>)
    requires CommonValid(r, st)
    requires name !in st.view
    requires Distinct(chosen) && |chosen| == r && Elems(chosen) <= Elems(st.pool)
    ensures CommonValid(r, Commit(st, name, partition, chosen))
  {
    var hosts := Elems(chosen);
    DistinctCard(chosen);
    CommitKeepsHosts(r, st.pool, st.view, name, hosts);
    CommitKeepsLoads(st.pool, st.load, st.view, name, hosts);
    CommitKeepsSum(r, st.pool, st.load, st.view, name, hosts);
    CommitKeepsKeys(st.partitionOf, st.view, name, partition, hosts);
  }

  lemma CommitKeepsHosts(r: nat, pool: seq<Instance>, view: View, name: SegmentName, hosts: set<Instance>)
    requires HostsValid(r, pool, view)
    requires hosts <= Elems(pool) && |hosts| == r
    ensures HostsValid(r, pool, view[name := hosts])
  {
  }

  lemma CommitKeepsLoads(pool: seq<Instance>, load: Loads, view: View, name: SegmentName, hosts: set<Instance>)
    requires LoadsMatchView(pool, load, view)
    requires name !in view
    ensures LoadsMatchView(pool, Bump(load, hosts), view[name := hosts])
  {
    forall v | v in pool
      ensures LoadOf(Bump(load, hosts), v) == |Hosted(view[name := hosts], v)|
    {
      HostedAfterAdd(view, name, hosts, v);
    }
  }

  lemma CommitKeepsKeys(partitionOf: map<SegmentName, nat>, view: View, name: SegmentName,
                        partition: nat, hosts: set<Instance>)
    requires partitionOf.Keys == view.Keys
    ensures partitionOf[name := partition].Keys == view[name := hosts].Keys
  {
  }

  lemma CommitKeepsSum(r: nat, pool: seq<Instance>, load: Loads, view: View, name: SegmentName, hosts: set<Instance>)
    requires Distinct(pool)
    requires SumLoads(pool, load) == r * |view|
    requires name !in view
    requires |hosts| == r && hosts <= Elems(pool)
    ensures SumLoads(pool, Bump(load, hosts)) == r * |view[name := hosts]|
  {
    SumAfterBumpWithin(pool, load, hosts);
    MapAddCard(view, name, hosts);
    MulSucc(r, |view|);
  }

  lemma MulSucc(r: nat, n: nat)
    ensures r * (n + 1) == r * n + r
  {
  }

  lemma MapAddCard(view: View, name: SegmentName, hosts: set<Instance>)
    requires name !in view
    ensures |view[name := hosts]| == |view| + 1
  {
    assert view[name := hosts].Keys == view.Keys + {name};
  }

  /** The replica-group invariant survives committing one instance of each
      group of the segment's partition (the same index in each under
      mirroring). */
  lemma CommitKeepsReplicaGroups(rg: ReplicaGroupStrategyConfig, r: nat, st: TableState,
                                 name: SegmentName, p: nat, chosen: seq<Instance>)
    requires ReplicaGroupValid(rg, r, st)
    requires name !in st.view
    requires p < |st.mapping|
    requires PartitionInjective(st.mapping[p])
    requires |chosen| == |st.mapping[p]|
    requires forall g :: 0 <= g < |chosen| ==> chosen[g] in st.mapping[p][g]
    requires rg.mirrorAssignmentAcrossReplicaGroups ==>
      exists i :: 0 <= i < rg.numInstancesPerPartition && AlignedAt(st.mapping[p], chosen, i)
    ensures ReplicaGroupValid(rg, r, Commit(st, name, p, chosen))
  {
    var groups := st.mapping[p];
    var after := Commit(st, name, p, chosen);
    OnePerGroup(groups, chosen);
    OnePerGroupWithin(groups, chosen);
    var mirrored := rg.mirrorAssignmentAcrossReplicaGroups;
    if mirrored {
      var i :| 0 <= i < rg.numInstancesPerPartition && AlignedAt(groups, chosen, i);
      AlignedIsRow(groups, chosen, i);
    }
    forall s | s in after.view
      ensures after.partitionOf[s] < |after.mapping|
      ensures CoversGroups(after.mapping[after.partitionOf[s]], after.view[s])
      ensures after.view[s] <= PartitionInstances(after.mapping[after.partitionOf[s]])
      ensures mirrored ==>
        MirroredHosts(after.mapping[after.partitionOf[s]], rg.numInstancesPerPartition, after.view[s])
    {
      if s != name {
        assert after.view[s] == st.view[s] && after.partitionOf[s] == st.partitionOf[s];
      }
    }
  }

  /** One instance from each group lies among the partition's instances. */
  lemma OnePerGroupWithin(groups: seq<seq<Instance>>, chosen: seq<Instance>)
    requires |chosen| == |groups|
    requires forall g :: 0 <= g < |chosen| ==> chosen[g] in groups[g]
    ensures Elems(chosen) <= PartitionInstances(groups)
  {
    forall v | v in Elems(chosen)
      ensures v in PartitionInstances(groups)
    {
      var g :| 0 <= g < |chosen| && chosen[g] == v;
      var i :| 0 <= i < |groups[g]| && groups[g][i] == v;
    }
  }

  /** Taking index `i` of every group takes exactly row `i`. */
  lemma AlignedIsRow(groups: seq<seq<Instance>>, chosen: seq<Instance>, i: nat)
    requires AlignedAt(groups, chosen, i)
    ensures Elems(chosen) == Row(groups, i)
  {
    forall v | v in Row(groups, i)
      ensures v in Elems(chosen)
    {
      var g :| 0 <= g < |groups| && i < |groups[g]| && groups[g][i] == v;
      assert chosen[g] == v;
    }
  }

  /** `after` is `st` with segment `name` added and nothing else changed. */
  ghost predicate Extends(st: TableState, after: TableState, name: SegmentName) {
    && after.pool == st.pool
    && after.mapping == st.mapping
    && name in after.view
    && after.view == st.view[name := after.view[name]]
    && name in after.partitionOf
    && after.partitionOf == st.partitionOf[name := after.partitionOf[name]]
  }

  /** Random placement of a fresh segment: R instances sampled without
      replacement, failing when the pool holds fewer than R. */
  function AssignRandom(cfg: TableConfig, st: TableState, name: SegmentName, draws: seq<nat>): (r: Result<TableState>)
    requires Valid(cfg, st) && cfg.strategy.RandomAssignment? && name !in st.view
    ensures r.Ok? <==> |st.pool| >= cfg.numReplicas
    ensures r.Err? ==> r.error == InsufficientInstances
    ensures r.Ok? ==> Valid(cfg, r.value) && Extends(st, r.value, name)
  {
    var replicas: nat := cfg.numReplicas;
    if |st.pool| < replicas then Err(InsufficientInstances)
    else
      var chosen := Sample(st.pool, draws, replicas);
      CommitKeepsCommon(replicas, st, name, 0, chosen);
      Ok(Commit(st, name, 0, chosen))
  }

  /** Balanced placement of a fresh segment: the R least-loaded instances,
      failing when the pool holds fewer than R. */
  function AssignBalanced(cfg: TableConfig, st: TableState, name: SegmentName): (r: Result<TableState>)
    requires Valid(cfg, st) && cfg.strategy.BalanceNumSegment? && name !in st.view
    ensures r.Ok? <==> |st.pool| >= cfg.numReplicas
    ensures r.Err? ==> r.error == InsufficientInstances
    ensures r.Ok? ==> Valid(cfg, r.value) && Extends(st, r.value, name)
    ensures r.Ok? ==> LeastLoadedSelection(st.pool, st.load, r.value.view[name])
  {
    var replicas: nat := cfg.numReplicas;
    if |st.pool| < replicas then Err(InsufficientInstances)
    else
      var chosen := SelectLeastLoaded(st.pool, st.load, replicas);
      CommitKeepsCommon(replicas, st, name, 0, chosen);
      BumpKeepsBalance(st.pool, st.load, Elems(chosen));
      Ok(Commit(st, name, 0, chosen))
  }

  /** The groups of any partition of a valid replica-group table: R groups
      of the same positive size, sharing no instance. */
  lemma PartitionGroups(cfg: TableConfig, st: TableState, p: nat)
    requires Valid(cfg, st) && cfg.strategy.ReplicaGroupAssignment? && p < |st.mapping|
    ensures |st.mapping[p]| == cfg.numReplicas >= 1
    ensures |st.mapping[p][0]| == cfg.strategy.replicaGroup.numInstancesPerPartition >= 1
    ensures forall g :: 0 <= g < |st.mapping[p]| ==> |st.mapping[p][g]| == |st.mapping[p][0]|
    ensures PartitionInjective(st.mapping[p])
    ensures PartitionInstances(st.mapping[p]) <= Elems(st.pool)
  {
    forall v | v in PartitionInstances(st.mapping[p])
      ensures v in Elems(st.pool)
    {
      var g, i :| 0 <= g < |st.mapping[p]| && 0 <= i < |st.mapping[p][g]| && st.mapping[p][g][i] == v;
    }
  }

  /** Committing one instance of each group of partition `p` (aligned under
      mirroring) keeps a replica-group table valid. */
  lemma ReplicaCommitValid(cfg: TableConfig, st: TableState, name: SegmentName, p: nat, chosen: seq<Instance>)
    requires Valid(cfg, st) && cfg.strategy.ReplicaGroupAssignment? && name !in st.view
    requires p < |st.mapping|
    requires |chosen| == |st.mapping[p]|
    requires forall g :: 0 <= g < |chosen| ==> chosen[g] in st.mapping[p][g]
    requires cfg.strategy.replicaGroup.mirrorAssignmentAcrossReplicaGroups ==>
      exists i :: 0 <= i < |st.mapping[p][0]| && AlignedAt(st.mapping[p], chosen, i)
    ensures Valid(cfg, Commit(st, name, p, chosen))
    ensures Extends(st, Commit(st, name, p, chosen), name)
  {
    var rg := cfg.strategy.replicaGroup;
    var groups := st.mapping[p];
    PartitionGroups(cfg, st, p);
    OnePerGroup(groups, chosen);
    OnePerGroupWithin(groups, chosen);
    assert Elems(chosen) <= Elems(st.pool);
    CommitKeepsCommon(cfg.numReplicas, st, name, p, chosen);
    CommitKeepsReplicaGroups(rg, cfg.numReplicas, st, name, p, chosen);
  }

  /** Replica-group placement of a fresh segment: resolve its partition, then
      take one instance from each of the partition's groups. */
  function AssignReplicaGroup(cfg: TableConfig, st: TableState, meta: SegmentMetadata): (r: Result<TableState>)
    requires Valid(cfg, st) && cfg.strategy.ReplicaGroupAssignment? && meta.name !in st.view
    ensures r.Ok? ==> Valid(cfg, r.value) && Extends(st, r.value, meta.name)
    ensures var resolved := ResolvePartition(cfg.strategy.replicaGroup.partitionColumn, |st.mapping|, meta);
      && (r.Ok? <==> resolved.Ok?)
      && (r.Err? ==> r.error == resolved.error)
      && (r.Ok? ==> r.value.partitionOf[meta.name] == resolved.value)
  {
    var rg := cfg.strategy.replicaGroup;
    var p :- ResolvePartition(rg.partitionColumn, |st.mapping|, meta);
    PartitionGroups(cfg, st, p);
    var chosen := PickInGroups(rg.mirrorAssignmentAcrossReplicaGroups, st.mapping[p], st.load);
    ReplicaCommitValid(cfg, st, meta.name, p, chosen);
    Ok(Commit(st, meta.name, p, chosen))
  }

  /** Places a segment. A name already placed fails; random and balanced
      placement need at least R pool instances; replica-group placement needs
      the segment's partition to resolve. Nothing placed earlier moves. */
  function AddSegment(cfg: TableConfig, st: TableState, meta: SegmentMetadata, draws: seq<nat>): (r: Result<TableState>)
    requires Valid(cfg, st)
    ensures r.Ok? ==> Valid(cfg, r.value) && Extends(st, r.value, meta.name)
    ensures meta.name in st.view ==> r == Err(SegmentExists)
    ensures !cfg.strategy.ReplicaGroupAssignment? ==>
      (r.Ok? <==> meta.name !in st.view && |st.pool| >= cfg.numReplicas)
    ensures !cfg.strategy.ReplicaGroupAssignment? && meta.name !in st.view && |st.pool| < cfg.numReplicas ==>
      r == Err(InsufficientInstances)
    ensures cfg.strategy.ReplicaGroupAssignment? ==>
      var resolved := ResolvePartition(cfg.strategy.replicaGroup.partitionColumn, |st.mapping|, meta);
      && (r.Ok? <==> meta.name !in st.view && resolved.Ok?)
      && (r.Ok? ==> r.value.partitionOf[meta.name] == resolved.value)
      && (meta.name !in st.view && resolved.Err? ==> r == Err(resolved.error))
  {
    if meta.name in st.view then Err(SegmentExists)
    else
      match cfg.strategy
      case RandomAssignment => AssignRandom(cfg, st, meta.name, draws)
      case BalanceNumSegment => AssignBalanced(cfg, st, meta.name)
      case ReplicaGroupAssignment(_) => AssignReplicaGroup(cfg, st, meta)
  }
}
