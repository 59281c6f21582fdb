# Segment assignment in Pinot, modelled in Dafny

This project models how a Pinot controller places the segments of an offline
table on server instances. It also proves the outcomes that
`SegmentAssignmentStrategyTest` asserts about that placement.

A table is registered with a replication factor R and one of three
strategies:

- **Random assignment.** Every new segment gets R distinct instances, drawn
  without replacement. The random source is a parameter: a sequence of
  natural-number draws.
- **Balanced assignment.** Every new segment goes to the R instances with the
  fewest segments so far. Ties are broken by the fixed order of the pool.
- **Replica-group assignment.** Registering the table builds a mapping from
  partition to R replica groups of k instances each.
  - With no partition column there is a single partition, 0.
  - Otherwise there are as many partitions as the column's partition
    configuration says.
  - Each segment resolves its partition from the single-value partition range
    its metadata records. It then takes one instance from every group of that
    partition, and under mirroring the same position in every group.

The table state (`SegmentAssignment.TableState`) holds:

- the pool of eligible instances;
- the committed placement (segment to instance set: the external view);
- per-instance counters of hosted segments;
- the partition each segment was placed in;
- the replica-group mapping.

`SegmentAssignment.Valid` is the invariant that registration establishes and
that every upload keeps:

- every segment is on exactly R pool instances;
- the counters equal the hosted-segment counts and sum to R per segment;
- balanced tables keep any two counters within one of each other;
- replica-group tables keep every segment on one instance of each group of
  its partition, and, under mirroring, on one row of that partition.

The two replica-group tests read the placement through `getServersToSegmentsMapping`, an
inverse index from server to hosted segments. This is modelled as a method
(`Placement.ServersToSegments`) and proved equal to a reference definition
(`Placement.InverseIndex`). The outcome lemmas in module `Outcomes` hold for
any batch of uploads with distinct names:

- random placement gives exactly R hosts per segment;
- balanced placement keeps every server's count within the even share;
- every replica group of a partition holds all of that partition's segments;
- in a table-level (single-partition) mirrored table, mirrored positions
  host identical segment sets.

The test checks only containment (`containsAll`, line 348), so `Outcomes.PartitionLevelOutcome` states containment. Equality would not hold anyway:

- with a pool of exactly R·k instances, both partitions share the same groups (`ReplicaGroups.ExactPoolRepeats`);
- so a group also holds the other partition's segments.

Files: `results.dfy` (Option/Result and errors), `seqs.dfy` (sequence
helpers), `placement.dfy`, `partition.dfy`, `loads.dfy`,
`random_strategy.dfy`, `balanced_strategy.dfy`, `replica_group.dfy`,
`assignment.dfy`, `outcomes.dfy`.

All paths below are under
`pinot-controller/src/test/java/com/linkedin/pinot/controller/helix/sharding/`.

## Model

| member | source | states |
|---|---|---|
| Placement.HostedAfterAdd | pinot-controller/src/test/java/com/linkedin/pinot/controller/helix/sharding/SegmentAssignmentStrategyTest.java:374-377 | placing a fresh segment adds it to the hosted set of each chosen instance, raising that set's size by one, and leaves every other instance's set unchanged |
| Placement.InverseIndexIff | pinot-controller/src/test/java/com/linkedin/pinot/controller/helix/sharding/SegmentAssignmentStrategyTest.java:370-378 | every listed server has an entry, and segment s is in server v's set exactly when v hosts s |
| Placement.ServersToSegments | pinot-controller/src/test/java/com/linkedin/pinot/controller/helix/sharding/SegmentAssignmentStrategyTest.java:363-380 | the loop-built server-to-segments map succeeds exactly when every hosting server is listed (an unlisted one is the null lookup), is keyed by the listed servers, and equals the reference inverse index |
| Partition.ResolvePartition | pinot-controller/src/test/java/com/linkedin/pinot/controller/helix/sharding/SegmentAssignmentStrategyTest.java:390-397 | with no partition column a segment is in partition 0; with one, metadata lacking the column fails, a single-value range naming a partition below the count resolves to that partition, and any success means the column records exactly such a range |
| Partition.ResolveSegmentWithPartition | pinot-controller/src/test/java/com/linkedin/pinot/controller/helix/sharding/SegmentAssignmentStrategyTest.java:388-398 | resolution inverts metadata construction: a segment built for partition p resolves to p, and to 0 when the table has no column |
| Partition.ModuloSegmentResolves | pinot-controller/src/test/java/com/linkedin/pinot/controller/helix/sharding/SegmentAssignmentStrategyTest.java:314-318 | the i-th upload tagged with i % P resolves to partition i % P |
| RandomStrategy.RemoveAt | pinot-controller/src/test/java/com/linkedin/pinot/controller/helix/sharding/SegmentAssignmentStrategyTest.java:122 | removing a drawn instance leaves a duplicate-free pool without exactly that instance |
| RandomStrategy.Sample | pinot-controller/src/test/java/com/linkedin/pinot/controller/helix/sharding/SegmentAssignmentStrategyTest.java:147-149 | a draw of n instances yields n distinct pool instances, whatever the draws |
| RandomStrategy.SampleAllIsPermutation | pinot-controller/src/test/java/com/linkedin/pinot/controller/helix/sharding/SegmentAssignmentStrategyTest.java:122 | drawing the whole pool yields every instance |
| RandomStrategy.SampleReaches | pinot-controller/src/test/java/com/linkedin/pinot/controller/helix/sharding/SegmentAssignmentStrategyTest.java:122 | every duplicate-free sequence of pool instances is the result of some draws, so random placement rules no choice out |
| Loads.Bump | pinot-controller/src/test/java/com/linkedin/pinot/controller/helix/sharding/SegmentAssignmentStrategyTest.java:184-188 | counting a placement raises the counter of each host by one and no other counter |
| Loads.SumAfterBumpWithin | pinot-controller/src/test/java/com/linkedin/pinot/controller/helix/sharding/SegmentAssignmentStrategyTest.java:189 | counting a placement on c distinct pool instances raises the counters' total by c, so the total is segments times replicas |
| Loads.LeastFrom | pinot-controller/src/test/java/com/linkedin/pinot/controller/helix/sharding/SegmentAssignmentStrategyTest.java:161 | the position found is not excluded, carries the least counter among non-excluded positions, and is the earliest such position |
| Loads.BalancedBounds | pinot-controller/src/test/java/com/linkedin/pinot/controller/helix/sharding/SegmentAssignmentStrategyTest.java:189-200 | when any two counters are within one, every counter is at least total / M and at most that plus one, the plus one only when M does not divide the total |
| BalancedStrategy.SelectLeastLoaded | pinot-controller/src/test/java/com/linkedin/pinot/controller/helix/sharding/SegmentAssignmentStrategyTest.java:161 | the selection is n distinct pool instances, each preferred (lower count, or equal count and earlier in the pool) to every unselected instance |
| BalancedStrategy.SelectionUnique | pinot-controller/src/test/java/com/linkedin/pinot/controller/helix/sharding/SegmentAssignmentStrategyTest.java:161 | the preference rule determines the selected set: two selections of the same size that obey it are the same set |
| BalancedStrategy.BumpKeepsBalance | pinot-controller/src/test/java/com/linkedin/pinot/controller/helix/sharding/SegmentAssignmentStrategyTest.java:195-200 | counting a least-loaded selection keeps every two counters within one of each other |
| ReplicaGroups.BuildMapping | pinot-controller/src/test/java/com/linkedin/pinot/controller/helix/sharding/SegmentAssignmentStrategyTest.java:247-253 | the mapping has one entry per partition, R groups per partition and k pool instances per group, at the documented pool positions |
| ReplicaGroups.OffsetClosed | pinot-controller/src/test/java/com/linkedin/pinot/controller/helix/sharding/SegmentAssignmentStrategyTest.java:275-276 | partition p's slice starts at position (p·R·k) mod the pool size, so partitions follow one another around the pool |
| ReplicaGroups.BuildMappingWellFormed | pinot-controller/src/test/java/com/linkedin/pinot/controller/helix/sharding/SegmentAssignmentStrategyTest.java:207-219 | over a duplicate-free pool no instance occurs twice within one partition's groups |
| ReplicaGroups.ExactPoolIsExhausted | pinot-controller/src/test/java/com/linkedin/pinot/controller/helix/sharding/SegmentAssignmentStrategyTest.java:207-219 | when the pool holds exactly R times k instances, partition 0's groups use every pool instance |
| ReplicaGroups.ExactPoolRepeats | pinot-controller/src/test/java/com/linkedin/pinot/controller/helix/sharding/SegmentAssignmentStrategyTest.java:275-276 | when the pool holds exactly R times k instances, every partition reuses partition 0's groups |
| ReplicaGroups.PickMirrored | pinot-controller/src/test/java/com/linkedin/pinot/controller/helix/sharding/SegmentAssignmentStrategyTest.java:261-270 | the choice takes one shared position of every group, least loaded within group 0 |
| ReplicaGroups.PickIndependent | pinot-controller/src/test/java/com/linkedin/pinot/controller/helix/sharding/SegmentAssignmentStrategyTest.java:339-350 | the choice takes one instance of each group, least loaded within that group |
| ReplicaGroups.PickInGroups | pinot-controller/src/test/java/com/linkedin/pinot/controller/helix/sharding/SegmentAssignmentStrategyTest.java:207-210 | one instance of each group, at one shared position under mirroring |
| ReplicaGroups.AlignedMembers | pinot-controller/src/test/java/com/linkedin/pinot/controller/helix/sharding/SegmentAssignmentStrategyTest.java:264-267 | a choice aligned on one position takes an instance of each group |
| ReplicaGroups.OnePerGroup | pinot-controller/src/test/java/com/linkedin/pinot/controller/helix/sharding/SegmentAssignmentStrategyTest.java:251-258 | one instance taken from each group of a partition gives R distinct hosts, and they meet every group |
| SegmentAssignment.PartitionCount | pinot-controller/src/test/java/com/linkedin/pinot/controller/helix/sharding/SegmentAssignmentStrategyTest.java:283-289 | a table without a partition column has one partition; a configured column yields exactly its configured count (2 for the test's modulo column), succeeding exactly when that count is at least one; a column missing from the configuration or a count below one is a configuration error |
| SegmentAssignment.AddTable | pinot-controller/src/test/java/com/linkedin/pinot/controller/helix/sharding/SegmentAssignmentStrategyTest.java:301-302 | a registered table starts valid and empty over the given pool; R below one or a replica-group k below one is a configuration error; a replica-group table registers only over at least R times k instances, with one mapping entry per partition |
| SegmentAssignment.CommitKeepsCommon | pinot-controller/src/test/java/com/linkedin/pinot/controller/helix/sharding/SegmentAssignmentStrategyTest.java:147-149 | placing a fresh segment on R distinct pool instances keeps every segment at R hosts and the counters equal to the hosted counts, summing to R per segment |
| SegmentAssignment.CommitKeepsHosts | pinot-controller/src/test/java/com/linkedin/pinot/controller/helix/sharding/SegmentAssignmentStrategyTest.java:149 | a placement of R pool instances keeps every segment on R pool instances |
| SegmentAssignment.CommitKeepsLoads | pinot-controller/src/test/java/com/linkedin/pinot/controller/helix/sharding/SegmentAssignmentStrategyTest.java:184-188 | counting a fresh placement keeps each counter equal to its instance's hosted-segment count |
| SegmentAssignment.CommitKeepsSum | pinot-controller/src/test/java/com/linkedin/pinot/controller/helix/sharding/SegmentAssignmentStrategyTest.java:189 | counting a fresh placement of R instances keeps the counters' total at R per segment |
| SegmentAssignment.CommitKeepsReplicaGroups | pinot-controller/src/test/java/com/linkedin/pinot/controller/helix/sharding/SegmentAssignmentStrategyTest.java:251-270 | placing a segment on one instance of each group of its partition, aligned under mirroring, keeps the replica-group invariant |
| SegmentAssignment.OnePerGroupWithin | pinot-controller/src/test/java/com/linkedin/pinot/controller/helix/sharding/SegmentAssignmentStrategyTest.java:253-256 | a choice of one instance per group stays within the partition's instances |
| SegmentAssignment.AlignedIsRow | pinot-controller/src/test/java/com/linkedin/pinot/controller/helix/sharding/SegmentAssignmentStrategyTest.java:264-267 | a choice aligned on position i holds exactly row i of the partition |
| SegmentAssignment.PartitionGroups | pinot-controller/src/test/java/com/linkedin/pinot/controller/helix/sharding/SegmentAssignmentStrategyTest.java:341-343 | each partition of a valid table has R groups of k pool instances sharing none |
| SegmentAssignment.ReplicaCommitValid | pinot-controller/src/test/java/com/linkedin/pinot/controller/helix/sharding/SegmentAssignmentStrategyTest.java:251-270 | placing one instance per group of the segment's partition, aligned under mirroring, keeps a replica-group table valid and adds only that segment |
| SegmentAssignment.AssignRandom | pinot-controller/src/test/java/com/linkedin/pinot/controller/helix/sharding/SegmentAssignmentStrategyTest.java:132-150 | random placement succeeds exactly when the pool holds R instances, fails as insufficient otherwise, and keeps the table valid |
| SegmentAssignment.AssignBalanced | pinot-controller/src/test/java/com/linkedin/pinot/controller/helix/sharding/SegmentAssignmentStrategyTest.java:166-169 | balanced placement succeeds exactly when the pool holds R instances, keeps the table valid and balanced, and picks a least-loaded selection |
| SegmentAssignment.AssignReplicaGroup | pinot-controller/src/test/java/com/linkedin/pinot/controller/helix/sharding/SegmentAssignmentStrategyTest.java:314-318 | replica-group placement succeeds exactly when the partition resolves, fails with the resolution's error otherwise, and records the resolved partition |
| SegmentAssignment.AddSegment | pinot-controller/src/test/java/com/linkedin/pinot/controller/helix/sharding/SegmentAssignmentStrategyTest.java:382-386 | a placed name fails with SegmentExists; otherwise random and balanced placement succeed exactly when the pool holds R instances and fail as insufficient otherwise, and replica-group placement succeeds exactly when the partition resolves and otherwise returns the resolution's error; the table stays valid and only the new segment is added |
| Outcomes.AddSegments | pinot-controller/src/test/java/com/linkedin/pinot/controller/helix/sharding/SegmentAssignmentStrategyTest.java:132-133 | a completed batch leaves the table valid, had fresh pairwise distinct names, adds exactly those names, moves no earlier segment, and records each upload's resolved partition |
| Outcomes.BatchStep | pinot-controller/src/test/java/com/linkedin/pinot/controller/helix/sharding/SegmentAssignmentStrategyTest.java:132-133 | one upload followed by the rest of the batch adds the whole batch and keeps every earlier placement |
| Outcomes.BatchPartitions | pinot-controller/src/test/java/com/linkedin/pinot/controller/helix/sharding/SegmentAssignmentStrategyTest.java:314-318 | the first upload's recorded partition survives the rest of the batch |
| Outcomes.AddSegmentsSucceeds | pinot-controller/src/test/java/com/linkedin/pinot/controller/helix/sharding/SegmentAssignmentStrategyTest.java:167-169 | a batch of fresh distinct names completes when the table can place each upload |
| Outcomes.FirstPlaced | pinot-controller/src/test/java/com/linkedin/pinot/controller/helix/sharding/SegmentAssignmentStrategyTest.java:133 | the first upload of a placeable batch is placed, and the rest stays fresh and placeable |
| Outcomes.TailPlaceable | pinot-controller/src/test/java/com/linkedin/pinot/controller/helix/sharding/SegmentAssignmentStrategyTest.java:231-234 | after the first upload, the remaining uploads are still fresh and placeable |
| Outcomes.Upload | pinot-controller/src/test/java/com/linkedin/pinot/controller/helix/sharding/SegmentAssignmentStrategyTest.java:120-133 | registering a table and uploading a batch yields a valid table over the same pool whose segments are exactly the batch's distinct names |
| Outcomes.UploadSucceeds | pinot-controller/src/test/java/com/linkedin/pinot/controller/helix/sharding/SegmentAssignmentStrategyTest.java:120-133 | the scenario completes when the table registers, the names are distinct and every upload can be placed |
| Outcomes.BatchSize | pinot-controller/src/test/java/com/linkedin/pinot/controller/helix/sharding/SegmentAssignmentStrategyTest.java:147 | a batch of distinct names yields one placed segment per upload |
| Outcomes.RandomAssignmentOutcome | pinot-controller/src/test/java/com/linkedin/pinot/controller/helix/sharding/SegmentAssignmentStrategyTest.java:132-150 | with R at most the pool size, any batch gives one segment per upload, each on exactly R distinct pool instances |
| Outcomes.BalancedTableShare | pinot-controller/src/test/java/com/linkedin/pinot/controller/helix/sharding/SegmentAssignmentStrategyTest.java:189-200 | a valid balanced table with n segments keeps every instance between n·R / M and that plus one, the plus one only when M does not divide n·R |
| Outcomes.BalancedAssignmentOutcome | pinot-controller/src/test/java/com/linkedin/pinot/controller/helix/sharding/SegmentAssignmentStrategyTest.java:166-200 | after any batch of distinct uploads, every instance's hosted-segment count lies within the test's minimum and maximum |
| Outcomes.BalancedTwentySegmentsOnSixServers | pinot-controller/src/test/java/com/linkedin/pinot/controller/helix/sharding/SegmentAssignmentStrategyTest.java:189-200 | twenty segments at three replicas over six servers place exactly ten on each server |
| Outcomes.ReplicaGroupCoverage | pinot-controller/src/test/java/com/linkedin/pinot/controller/helix/sharding/SegmentAssignmentStrategyTest.java:252-258 | every segment shows up, through the server-to-segments index, in every group of its partition |
| Outcomes.RowMember | pinot-controller/src/test/java/com/linkedin/pinot/controller/helix/sharding/SegmentAssignmentStrategyTest.java:262-267 | within a partition whose groups share no instance, position i of a group is in row j exactly when i equals j |
| Outcomes.MirroredHosting | pinot-controller/src/test/java/com/linkedin/pinot/controller/helix/sharding/SegmentAssignmentStrategyTest.java:262-267 | under mirroring, the server at position i of any group hosts exactly the segments placed on row i |
| Outcomes.TableLevelCoverage | pinot-controller/src/test/java/com/linkedin/pinot/controller/helix/sharding/SegmentAssignmentStrategyTest.java:251-259 | in a single-partition table every group holds every segment |
| Outcomes.MirroredPosition | pinot-controller/src/test/java/com/linkedin/pinot/controller/helix/sharding/SegmentAssignmentStrategyTest.java:261-270 | under mirroring, the set of the segment sets of the servers at position i of each group has size one |
| Outcomes.MirroredTableFacts | pinot-controller/src/test/java/com/linkedin/pinot/controller/helix/sharding/SegmentAssignmentStrategyTest.java:207-210 | a valid mirrored single-partition table has R groups of k pool instances sharing none, and every segment sits on one row |
| Outcomes.TableGroups | pinot-controller/src/test/java/com/linkedin/pinot/controller/helix/sharding/SegmentAssignmentStrategyTest.java:253 | a valid single-partition table has R groups of k pool instances sharing none |
| Outcomes.MirroredRows | pinot-controller/src/test/java/com/linkedin/pinot/controller/helix/sharding/SegmentAssignmentStrategyTest.java:210 | under mirroring every segment of a single-partition table sits on one row |
| Outcomes.TableLevelMirrorOutcome | pinot-controller/src/test/java/com/linkedin/pinot/controller/helix/sharding/SegmentAssignmentStrategyTest.java:229-270 | table-level groups with mirroring over at least R·k instances: after any batch every group holds every uploaded segment, and the servers at each position of every group show one segment set |
| Outcomes.PartitionedTableView | pinot-controller/src/test/java/com/linkedin/pinot/controller/helix/sharding/SegmentAssignmentStrategyTest.java:339-350 | every group of partition p holds every segment placed in p |
| Outcomes.ModuloUploadsResolve | pinot-controller/src/test/java/com/linkedin/pinot/controller/helix/sharding/SegmentAssignmentStrategyTest.java:314-318 | uploads tagged i % P resolve to partition i % P |
| Outcomes.PartitionLevelOutcome | pinot-controller/src/test/java/com/linkedin/pinot/controller/helix/sharding/SegmentAssignmentStrategyTest.java:313-350 | partition-level groups over P partitions and uploads tagged i % P: the mapping has P partitions, and every group of partition p holds every segment uploaded for p |
| Outcomes.AddTableSucceeds | pinot-controller/src/test/java/com/linkedin/pinot/controller/helix/sharding/SegmentAssignmentStrategyTest.java:207-222 | a well-configured replica-group table registers exactly when the pool holds R·k instances, and a smaller pool is refused as insufficient |
| Outcomes.ExactPoolSizing | pinot-controller/src/test/java/com/linkedin/pinot/controller/helix/sharding/SegmentAssignmentStrategyTest.java:275-276 | over exactly R·k instances (6 = 2·3 in the test), partition 0's groups use the whole pool and every partition repeats them |

## Left out

- The strategy classes (`RandomAssignmentStrategy`, `BalanceNumSegmentAssignmentStrategy`, `ReplicaGroupSegmentAssignmentStrategy`), `PinotHelixResourceManager` and `ZKMetadataProvider` are not part of this model.
  - The placement rules here are witnesses: least-loaded with pool-order tie-break, one position per group, a cyclic mapping layout. They are chosen to meet the test's assertions and are not transcriptions of that code.
- The mapping layout is a modelling choice. Partition p's groups are consecutive blocks of k instances starting at offset (p·R·k) mod |pool| (`ReplicaGroups.OffsetClosed`), wrapping around the pool. With the test's 6 instances and 2 partitions this makes both partitions share the same groups.
- Mirroring is proved only for a table-level (single-partition) table, the case the test checks (lines 204-271). Under this layout, a mirrored partition-level table whose pool is larger than R·k lets partitions overlap. A segment of one partition can then shift another partition's positions, so mirroring across positions is not promised there.
- ZooKeeper and Helix setup and teardown, tenant tagging, cluster bootstrap, and the `Thread.sleep` polling on the external view are left out as I/O and cluster plumbing. The committed placement is taken to be the converged external view, and the pool stands for the tagged server instances of the tenant.
- The Mockito construction of segment metadata is not modelled. Only the segment name and the per-column partition ranges are kept (`Partition.SegmentMetadata`).
- The random distribution is not modelled, because a proof cannot state it. Only the guarantees that hold for every draw are kept: R distinct instances, and every such choice is reachable (`RandomStrategy.SampleReaches`).
- Table drop (line 201), persistence of the mapping to the property store, and concurrent uploads are left out.
- Segment names are abstract. Any duplicate-free batch of names stands for `"segment" + i` and for the generated names of `SimpleSegmentMetadata`.
- Re-uploading a name that is already placed fails with `SegmentExists` in the model. Refreshing a segment is outside this model.
- The partition function's name (`"modulo"`) is carried but not evaluated. The partition a segment records in its metadata is trusted.
- Counters and sizes are unbounded integers. Java's 32-bit `int` cannot overflow at the test's sizes.
- Placement.GroupSegments skips servers missing from the index. The test would throw there, because `addAll(null)` at line 256 fails.
- Outcomes.MirrorImage skips servers missing from the index. At line 267 the test instead adds `null` to its set, and that entry counts toward `size()`.
  - Neither difference arises in the outcome lemmas: all group servers are pool servers, and every pool server is listed.
