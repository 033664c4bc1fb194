/** Cluster membership: which replicas host a partition, and whether they are healthy
    (graph-cluster's lib.rs). */
module Membership {
  import opened Basics
  import opened GraphModel

  datatype ReplicaEndpoint = ReplicaEndpoint(replica: string, healthy: bool)

  type PartitionMap = map<PartitionId, seq<ReplicaEndpoint>>

  function FirstHealthy(replicas: seq<ReplicaEndpoint>): Option<ReplicaEndpoint> {
    if replicas == [] then None
    else if replicas[0].healthy then Some(replicas[0])
    else FirstHealthy(replicas[1..])
  }

  function PickReplica(partitions: PartitionMap, p: PartitionId): Option<ReplicaEndpoint> {
    if p in partitions then FirstHealthy(partitions[p]) else None
  }

  lemma {:induction false} FirstHealthyLaws(replicas: seq<ReplicaEndpoint>)
    ensures FirstHealthy(replicas).Some? <==> exists r :: r in replicas && r.healthy
    ensures FirstHealthy(replicas).Some? ==>
      exists i :: 0 <= i < |replicas| && replicas[i] == FirstHealthy(replicas).value && replicas[i].healthy
                  && forall j :: 0 <= j < i ==> !replicas[j].healthy
  {
    if replicas != [] {
      FirstHealthyLaws(replicas[1..]);
      assert replicas == [replicas[0]] + replicas[1..];
      if !replicas[0].healthy && FirstHealthy(replicas).Some? {
        var i :| 0 <= i < |replicas[1..]| && replicas[1..][i] == FirstHealthy(replicas).value && replicas[1..][i].healthy
                 && forall j :: 0 <= j < i ==> !replicas[1..][j].healthy;
        forall j | 0 <= j < i + 1
          ensures !replicas[j].healthy
        {
          if j > 0 { assert replicas[j] == replicas[1..][j - 1]; }
        }
        assert replicas[i + 1] == FirstHealthy(replicas).value;
      }
    }
  }

  ghost function Live(partitions: PartitionMap): set<PartitionId> {
    set p | p in partitions && exists r :: r in partitions[p] && r.healthy
  }
}
