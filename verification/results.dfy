/** Failure-carrying results of the placement engine. Each error names one of
    the ways a table registration, a segment addition or the server-to-segments
    inversion can fail. */
module Results {

  /** The conventional optional value. */
  datatype Option<+T> = None | Some(value: T)

  datatype Error =
    | ConfigurationError        // replication, instances per partition or partition count below 1
    | InsufficientInstances     // the eligible pool is smaller than the strategy needs
    | MissingPartitionMetadata  // the segment carries no ranges for the partition column
    | AmbiguousPartition        // the ranges do not name exactly one partition
    | PartitionOutOfRange       // the named partition has no replica groups
    | SegmentExists             // a segment of that name is already placed
    | UnknownServer             // a segment is hosted on a server outside the listed ones

  /** Success with a value, or failure with an error; usable with `:-`. */
  datatype Result<+T> = Ok(value: T) | Err(error: Error) {

    predicate IsFailure() {
      Err?
    }

    function PropagateFailure<U>(): Result<U>
      requires Err?
    {
      Err(error)
    }

    function Extract(): T
      requires Ok?
    {
      value
    }
  }
}
