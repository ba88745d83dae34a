/**
 Admin-partition naming rules the gateway key relies on. The `acl` package
 that owns them is not part of this model; this module fixes the behaviour
 the snapshot assumes of it: the empty name and the default name both denote
 the default partition, and two names are equal once the empty name is read
 as the default one.
 */
module Partitions {

  const DefaultPartitionName: string := "default"

  /** `acl.IsDefaultPartition`. */
  predicate IsDefaultPartition(p: string) {
    p == "" || p == DefaultPartitionName
  }

  /** The canonical spelling of a partition name: the empty name becomes the default name. */
  function PartitionOrDefault(p: string): (r: string)
    ensures IsDefaultPartition(p) <==> r == DefaultPartitionName
    ensures !IsDefaultPartition(p) ==> r == p
  {
    if p == "" then DefaultPartitionName else p
  }

  /** `acl.EqualPartitions`: equality up to the empty-means-default rule. */
  predicate EqualPartitions(a: string, b: string) {
    PartitionOrDefault(a) == PartitionOrDefault(b)
  }
}
