/** The configuration that a server builds from its topology, and when its write quorum can be reached. */
module Deployment {
  import opened Types
  import opened Seqs
  import opened Chunker
  import opened ChunkStores
  import opened Placement
  import opened Histories
  import opened Proximity
  import opened HashRings
  import opened Replication
  import opened Coordinators
  import opened Metadata
  import opened MetadataStores
  import opened TokenBuckets
  import opened RateLimiters
  import opened StoreSystem
  import opened Servers
  import opened Cleanup

  /** Every node of the topology is added in turn. */
  function Additions(nodeIds: seq<NodeId>): (cs: seq<Change>)
    ensures |cs| == |nodeIds|
  {
    seq(|nodeIds|, i requires 0 <= i < |nodeIds| => Add(nodeIds[i]))
  }

  /** Replication factor and write quorum are cut to the number of nodes. */
  function FromTopology(nodeIds: seq<NodeId>, l: Layout, replicationFactor: nat, writeQuorum: nat,
                        size: nat, sha: Bytes -> Hash): Config {
    var ring := After(EMPTY, Additions(nodeIds), l).ring;
    Config(sha, (h: Hash) => Prefs(ring, l.positionFor(h), Smaller(replicationFactor, |nodeIds|)),
           Elems(nodeIds), Smaller(writeQuorum, |nodeIds|), size)
  }

  lemma {:induction false} AddedNodes(nodeIds: seq<NodeId>, l: Layout)
    ensures After(EMPTY, Additions(nodeIds), l).nodes == Elems(nodeIds)
  {
    if nodeIds == [] {
    } else {
      var before, x := nodeIds[..|nodeIds| - 1], nodeIds[|nodeIds| - 1];
      AddedNodes(before, l);
      assert Additions(nodeIds)[..|nodeIds| - 1] == Additions(before);
      assert nodeIds == before + [x];
      assert Elems(nodeIds) == Elems(before) + {x};
    }
  }

  /** buildServer, given the topology and the two configured numbers: the ring of its nodes, a coordinator with both
      numbers cut to the size of the topology, an empty metadata store, and the rate limiter. */
  method BuildServer(nodeIds: seq<NodeId>, layout: Layout, replicationFactor: nat, writeQuorum: nat,
                     sha: Bytes -> Hash, cluster: Cluster)
    returns (server: Server, limiter: RateLimiter)
    ensures fresh(server) && server.Valid() && server.store.View() == NO_META
    ensures server.Describes(FromTopology(nodeIds, layout, replicationFactor, writeQuorum, DEFAULT_CHUNK_SIZE, sha))
    ensures server.coordinator.cluster == cluster && server.coordinator.ring.nodes == Elems(nodeIds)
    ensures limiter.Valid() && limiter.View() == map[] && limiter.policy == Policy(500.0, 300.0)
  {
    var ring := new HashRing(layout);
    for i := 0 to |nodeIds|
      invariant fresh(ring) && ring.Valid() && ring.layout == layout
      invariant Members(ring.ring, ring.nodes) == After(EMPTY, Additions(nodeIds[..i]), layout)
    {
      assert Additions(nodeIds[..i + 1])[..i] == Additions(nodeIds[..i]);
      ring.AddNode(nodeIds[i]);
    }
    assert nodeIds[..|nodeIds|] == nodeIds;
    AddedNodes(nodeIds, layout);
    var coordinator := new Coordinator(ring, Smaller(replicationFactor, |nodeIds|), Smaller(writeQuorum, |nodeIds|),
                                       sha, cluster);
    var store := new MetadataStore();
    server := new Server(coordinator, store);
    limiter := new RateLimiter(Policy(500.0, 300.0));
  }

  /** Every chunk has as many distinct replicas as the factor and the distinct nodes allow. */
  lemma ListsAreFull(nodeIds: seq<NodeId>, l: Layout, replicationFactor: nat, writeQuorum: nat,
                     size: nat, sha: Bytes -> Hash, h: Hash)
    requires l.vnodesPerNode > 0
    ensures var list := FromTopology(nodeIds, l, replicationFactor, writeQuorum, size, sha).lists(h);
            && NoDup(list) && Elems(list) <= Elems(nodeIds)
            && |list| == Smaller(replicationFactor, |Elems(nodeIds)|)
  {
    var m := After(EMPTY, Additions(nodeIds), l);
    AfterIsWellFormed(EMPTY, Additions(nodeIds), l);
    AddedNodes(nodeIds, l);
    EveryMemberHasPoints(m, l);
    NoDupCard(nodeIds);
    PrefsAreNearest(m.ring, l.positionFor(h), Smaller(replicationFactor, |nodeIds|));
  }

  /** With at least one point for each node, every write can reach its quorum exactly when the quorum, cut to the
      number of entries of the topology, is at most the replication factor, cut to the number of distinct nodes. */
  lemma QuorumIsReachableIff(nodeIds: seq<NodeId>, l: Layout, replicationFactor: nat, writeQuorum: nat,
                             size: nat, sha: Bytes -> Hash)
    requires l.vnodesPerNode > 0 && size > 0
    requires forall b :: ValidName(sha(b))
    ensures Ample(FromTopology(nodeIds, l, replicationFactor, writeQuorum, size, sha)) <==>
            Smaller(writeQuorum, |nodeIds|) <= Smaller(replicationFactor, |Elems(nodeIds)|)
  {
    var c := FromTopology(nodeIds, l, replicationFactor, writeQuorum, size, sha);
    forall h: Hash ensures NoDup(c.lists(h)) && Elems(c.lists(h)) <= c.nodes
      ensures |c.lists(h)| == Smaller(replicationFactor, |Elems(nodeIds)|)
    {
      ListsAreFull(nodeIds, l, replicationFactor, writeQuorum, size, sha, h);
    }
    assert c.Valid();
    assert |c.lists("")| == Smaller(replicationFactor, |Elems(nodeIds)|);
  }
}
