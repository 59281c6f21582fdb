/** Partition resolution: the partition number a segment belongs to, read from
    the partition ranges its metadata records for the partition column. */
module Partition {
  import opened Results
  import opened Placement

  /** A closed range of partition numbers, as recorded in column metadata. */
  datatype IntRange = IntRange(min: int, max: int)

  /** What the engine reads of a segment's metadata: its name and, per column,
      the partition ranges of the values the segment holds. */
  datatype SegmentMetadata = SegmentMetadata(name: SegmentName, partitionRanges: map<string, seq<IntRange>>)

  /** A column's partition function and partition count. */
  datatype ColumnPartitionConfig = ColumnPartitionConfig(functionName: string, numPartitions: int)

  /** Metadata for a segment whose partition column values all fall into one
      partition; with no column the segment records no partition ranges. */
  function SegmentWithPartition(name: SegmentName, column: Option<string>, partition: int): (m: SegmentMetadata)
    ensures m.name == name
    ensures column.None? ==> m.partitionRanges == map[]
    ensures column.Some? ==> m.partitionRanges == map[column.value := [IntRange(partition, partition)]]
  {
    match column
    case None => SegmentMetadata(name, map[])
    case Some(c) => SegmentMetadata(name, map[c := [IntRange(partition, partition)]])
  }

  /** The partition number of a segment. Without a partition column every
      segment is in partition 0; otherwise the column's ranges must be one
      single-value range naming a partition below `numPartitions`. */
  function ResolvePartition(column: Option<string>, numPartitions: nat, meta: SegmentMetadata): (r: Result<nat>)
    ensures column.None? ==> r == Ok(0)
    ensures r.Ok? ==> r.value < numPartitions || column.None?
    ensures column.Some? && r.Ok? ==>
      column.value in meta.partitionRanges && meta.partitionRanges[column.value] == [IntRange(r.value, r.value)]
    ensures column.Some? && column.value !in meta.partitionRanges ==> r == Err(MissingPartitionMetadata)
    ensures column.Some? && column.value in meta.partitionRanges ==>
      var ranges := meta.partitionRanges[column.value];
      |ranges| == 1 && ranges[0].min == ranges[0].max && 0 <= ranges[0].min < numPartitions ==>
        r == Ok(ranges[0].min)
  {
    match column
    case None => Ok(0)
    case Some(c) =>
      if c !in meta.partitionRanges then Err(MissingPartitionMetadata)
      else
        var ranges := meta.partitionRanges[c];
        if |ranges| != 1 || ranges[0].min != ranges[0].max || ranges[0].min < 0 then Err(AmbiguousPartition)
        else if ranges[0].min >= numPartitions then Err(PartitionOutOfRange)
        else Ok(ranges[0].min)
  }

  /** Resolution inverts metadata construction: a segment built for partition
      `p` of the column resolves to `p`, and to 0 when the table has no column. */
  lemma ResolveSegmentWithPartition(name: SegmentName, column: Option<string>, numPartitions: nat, p: nat)
    requires column.None? || p < numPartitions
    ensures ResolvePartition(column, numPartitions, SegmentWithPartition(name, column, p))
      == Ok(if column.None? then 0 else p)
  {
  }

  /** With the modulo function over `numPartitions` partitions, the i-th
      uploaded segment records the single-value range `i % numPartitions` and
      resolves to that partition. */
  lemma ModuloSegmentResolves(name: SegmentName, column: string, numPartitions: nat, i: nat)
    requires numPartitions > 0
    ensures ResolvePartition(Some(column), numPartitions,
                             SegmentWithPartition(name, Some(column), i % numPartitions))
      == Ok(i % numPartitions)
  {
    ResolveSegmentWithPartition(name, Some(column), numPartitions, i % numPartitions);
  }
}
