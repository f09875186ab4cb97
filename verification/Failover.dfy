/** The key ring and the replication together: what a node that takes over a key knows of it. */
module Failover {
  import opened GossipNodes
  import Ring
  import Replication

  /** Nothing waits in the backlog and nothing is on its way. */
  predicate Quiet(w: Replication.World) {
    w.master.backlog == map[] && w.todo == {}
  }

  /** The node has the master's latest value and metadata of the key. */
  ghost predicate HasLatest(w: Replication.World, key: string, node: Ring.Name) {
    && node in w.replicas && key in w.master.data && key in w.master.metas
    && Replication.Holds(w.replicas[node], key, Replication.Latest(w, key))
  }

  lemma ReplicaHasLatest(names: set<Ring.Name>, steps: seq<Replication.Step>, key: string, node: Ring.Name)
    requires var w := Replication.Run(Replication.Init(names), steps); Quiet(w) && key in w.master.data
    requires node in names
    ensures HasLatest(Replication.Run(Replication.Init(names), steps), key, node)
  {
    hide Replication.Run;
    Replication.QuietReplicasAgree(names, steps, node);
  }

  /** A node sends its keys to its replicas. After any run that ends with nothing pending, up to that many owners of
      a key may go, one after the other: the node that then owns the key has its latest value and metadata. */
  lemma OwnersAfterLossesHaveTheKey(ring: seq<Ring.Name>, idx: nat, replicats: nat, losses: nat,
                                    steps: seq<Replication.Step>, key: string, hkey: Ring.Name)
    requires Ring.Sorted(ring) && idx < |ring| && Ring.IsOwner(Ring.Elements(ring), hkey, ring[idx])
    requires 1 <= losses <= replicats && losses < |ring|
    requires var w := Replication.Run(Replication.Init(Ring.Elements(Ring.Replicas(ring, idx, replicats))), steps);
             Quiet(w) && key in w.master.data
    ensures var left := Ring.AfterLosses(ring, hkey, losses);
            HasLatest(Replication.Run(Replication.Init(Ring.Elements(Ring.Replicas(ring, idx, replicats))), steps), key,
                      left[Ring.OwnerIndex(left, hkey)])
  {
    hide Ring.Before, Ring.IsOwner, Ring.Sorted, Replication.Run, HasLatest, Ring.Replicas;
    Ring.OwnerOfRing(ring, hkey);
    Ring.OwnerIsUnique(Ring.Elements(ring), hkey, ring[idx], ring[Ring.OwnerIndex(ring, hkey)]);
    Ring.PositionIsUnique(ring, idx);
    Ring.KeyStaysOnAReplica(ring, hkey, replicats, losses);
    var r := Ring.Replicas(ring, idx, replicats);
    ReplicaHasLatest(Ring.Elements(r), steps, key, r[|r| - losses]);
  }

  /** With one replica, as the agents run: when the owner of a key dies or leaves with nothing pending, whatever
      node the lookup then finds, on the table without the owner, has the latest value and metadata of the key. */
  lemma FoundNodeHasTheKey(table: map<Ring.Name, Ring.Member>, group: string, owner: Ring.Name, gone: State,
                           ring: seq<Ring.Name>, idx: nat, steps: seq<Replication.Step>, key: string,
                           hkey: Ring.Name, found: Ring.Name)
    requires Ring.IsOwner(Ring.GroupMembers(table, group), hkey, owner) && gone in {Dead, Leave} && owner in table
    requires Ring.Sorted(ring) && Ring.Elements(ring) == Ring.GroupMembers(table, group) && |ring| >= 2
    requires idx < |ring| && ring[idx] == owner
    requires Ring.IsOwner(Ring.GroupMembers(table[owner := table[owner].(state := gone)], group), hkey, found)
    requires var w := Replication.Run(Replication.Init(Ring.Elements(Ring.Replicas(ring, idx, 1))), steps);
             Quiet(w) && key in w.master.data
    ensures HasLatest(Replication.Run(Replication.Init(Ring.Elements(Ring.Replicas(ring, idx, 1))), steps), key, found)
  {
    hide Ring.Before, Ring.IsOwner, Ring.Sorted, Replication.Run, HasLatest, Ring.Replicas;
    Ring.FailoverFindsTheReplica(table, group, hkey, owner, gone, ring, idx, found);
    assert found in Ring.Elements([found]);
    ReplicaHasLatest(Ring.Elements(Ring.Replicas(ring, idx, 1)), steps, key, found);
  }
}
