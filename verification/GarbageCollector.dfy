/** The garbage collector's sweep, run against the metadata store and the coordinator. */
module GarbageCollector {
  import opened Types
  import opened Seqs
  import opened Metadata
  import opened MetadataStores
  import opened Replication
  import opened Coordinators
  import opened Placement

  datatype Report = Report(scanned: nat, reclaimedChunks: nat, reclaimedBytes: nat)

  /** The nodes after the chunks of a set are deleted wherever they are listed and reached. */
  function Swept(c: Cluster, hashes: set<Hash>, lists: Hash -> seq<NodeId>, reachable: Hash -> set<NodeId>): Cluster {
    map d | d in c :: c[d] - set h | h in hashes && d in lists(h) && d in reachable(h)
  }

  /** The chunks of a set that at least one replica was reached for. */
  function Reclaimed(c: Cluster, hashes: set<Hash>, lists: Hash -> seq<NodeId>,
                     reachable: Hash -> set<NodeId>): set<Hash> {
    set h | h in hashes && Coordinators.Reached(c, lists(h), reachable(h)) != {}
  }

  // The sweep as the loop performs it, one chunk of the orphan list after another.

  function SweptInOrder(c: Cluster, order: seq<Hash>, lists: Hash -> seq<NodeId>,
                        reachable: Hash -> set<NodeId>): (r: Cluster)
    ensures r.Keys == c.Keys
  {
    if order == [] then c
    else
      var h := order[|order| - 1];
      ClusterAfterDelete(SweptInOrder(c, order[..|order| - 1], lists, reachable), lists(h), h, reachable(h))
  }

  function ReclaimedInOrder(c: Cluster, order: seq<Hash>, lists: Hash -> seq<NodeId>,
                            reachable: Hash -> set<NodeId>): nat {
    if order == [] then 0
    else
      var h := order[|order| - 1];
      ReclaimedInOrder(c, order[..|order| - 1], lists, reachable)
        + if |Coordinators.Reached(c, lists(h), reachable(h))| > 0 then 1 else 0
  }

  function ReapedInOrder(m: Meta, order: seq<Hash>): Meta {
    if order == [] then m else Reap(ReapedInOrder(m, order[..|order| - 1]), order[|order| - 1])
  }

  lemma SweepOneMore(c: Cluster, hashes: set<Hash>, h: Hash, lists: Hash -> seq<NodeId>, reachable: Hash -> set<NodeId>)
    ensures ClusterAfterDelete(Swept(c, hashes, lists, reachable), lists(h), h, reachable(h))
         == Swept(c, hashes + {h}, lists, reachable)
  {
    var swept, more := Swept(c, hashes, lists, reachable), Swept(c, hashes + {h}, lists, reachable);
    forall d | d in c ensures ClusterAfterDelete(swept, lists(h), h, reachable(h))[d] == more[d] {
      assert more[d].Keys == if d in lists(h) && d in reachable(h) then swept[d].Keys - {h} else swept[d].Keys;
    }
  }

  lemma {:induction false} SweepInAnyOrder(c: Cluster, order: seq<Hash>, lists: Hash -> seq<NodeId>,
                                           reachable: Hash -> set<NodeId>)
    ensures SweptInOrder(c, order, lists, reachable) == Swept(c, Elems(order), lists, reachable)
  {
    if order == [] {
      var swept := Swept(c, {}, lists, reachable);
      assert Elems(order) == {};
      forall d | d in c ensures swept[d] == c[d] {
        assert swept[d].Keys == c[d].Keys;
      }
    } else {
      var t, h := order[..|order| - 1], order[|order| - 1];
      assert order == t + [h];
      assert Elems(order) == Elems(t) + {h};
      SweepInAnyOrder(c, t, lists, reachable);
      SweepOneMore(c, Elems(t), h, lists, reachable);
    }
  }

  lemma ReclaimOneMore(c: Cluster, hashes: set<Hash>, h: Hash, lists: Hash -> seq<NodeId>,
                       reachable: Hash -> set<NodeId>)
    ensures Reclaimed(c, hashes + {h}, lists, reachable)
         == Reclaimed(c, hashes, lists, reachable)
              + if Coordinators.Reached(c, lists(h), reachable(h)) != {} then {h} else {}
    ensures h !in hashes ==> h !in Reclaimed(c, hashes, lists, reachable)
  {
  }

  lemma {:induction false} ReclaimInAnyOrder(c: Cluster, order: seq<Hash>, lists: Hash -> seq<NodeId>,
                                             reachable: Hash -> set<NodeId>)
    requires NoDup(order)
    ensures ReclaimedInOrder(c, order, lists, reachable) == |Reclaimed(c, Elems(order), lists, reachable)|
  {
    if order == [] {
    } else {
      var t, h := order[..|order| - 1], order[|order| - 1];
      assert order == t + [h];
      assert Elems(order) == Elems(t) + {h} && h !in Elems(t);
      ReclaimInAnyOrder(c, t, lists, reachable);
      ReclaimOneMore(c, Elems(t), h, lists, reachable);
      AddedOnce(Reclaimed(c, Elems(t), lists, reachable), h, Coordinators.Reached(c, lists(h), reachable(h)));
    }
  }

  lemma AddedOnce(hashes: set<Hash>, h: Hash, nodes: set<NodeId>)
    requires h !in hashes
    ensures |hashes + if nodes != {} then {h} else {}| == |hashes| + if |nodes| > 0 then 1 else 0
  {
    assert nodes != {} <==> |nodes| > 0;
    assert hashes + {} == hashes;
  }

  lemma {:induction false} ReapInAnyOrder(m: Meta, order: seq<Hash>)
    ensures ReapedInOrder(m, order) == m.(refcounts := m.refcounts - Elems(order))
  {
    if order == [] {
      assert m.refcounts - {} == m.refcounts;
    } else {
      var t, h := order[..|order| - 1], order[|order| - 1];
      assert order == t + [h];
      ReapInAnyOrder(m, t);
      assert m.refcounts - Elems(t) - {h} == m.refcounts - Elems(order);
    }
  }

  /** The report misses nothing: every chunk that loses a copy to the sweep is among those counted as reclaimed; and
      nothing is counted that no listed node was reached for. */
  lemma ReportCoversDeletions(c: Cluster, hashes: set<Hash>, lists: Hash -> seq<NodeId>,
                              reachable: Hash -> set<NodeId>, h: Hash)
    ensures (exists d :: d in c && h in c[d] && h !in Swept(c, hashes, lists, reachable)[d]) ==>
              h in Reclaimed(c, hashes, lists, reachable)
    ensures h in Reclaimed(c, hashes, lists, reachable) ==>
              h in hashes && exists d :: d in lists(h) && d in c && d in reachable(h)
  {
    if d :| d in c && h in c[d] && h !in Swept(c, hashes, lists, reachable)[d] {
      assert d in Coordinators.Reached(c, lists(h), reachable(h));
    }
    if h in Reclaimed(c, hashes, lists, reachable) {
      var d :| d in Coordinators.Reached(c, lists(h), reachable(h));
    }
  }

  lemma ReachedByNodesOnly(c: Cluster, now: Cluster, list: seq<NodeId>, reachable: set<NodeId>)
    requires now.Keys == c.Keys
    ensures Coordinators.Reached(now, list, reachable) == Coordinators.Reached(c, list, reachable)
  {
  }

  lemma OneMoreTimes(k: nat, size: nat)
    ensures (k + 1) * size == k * size + size
  {
  }

  /** One turn of the loop: the chunk is deleted wherever it is listed and reached, and its row reaped. */
  method SweepChunk(store: MetadataStore, coordinator: Coordinator, list: seq<NodeId>, hash: Hash,
                    reachable: set<NodeId>)
    returns (deletedFromReplicas: nat)
    requires store.Valid() && coordinator.Valid() && list == coordinator.Replicas(hash)
    modifies store, coordinator
    ensures store.Valid() && coordinator.Valid()
    ensures store.View() == Reap(old(store.View()), hash)
    ensures coordinator.cluster == ClusterAfterDelete(old(coordinator.cluster), list, hash, reachable)
    ensures deletedFromReplicas == |Coordinators.Reached(old(coordinator.cluster), list, reachable)|
  {
    deletedFromReplicas := coordinator.DeleteChunk(hash, reachable);
    store.ReapOrphanedChunk(hash);
  }

  /** runGarbageCollection. reachable says which deletes arrive. Rows are reaped whether or not any did. */
  method RunGarbageCollection(store: MetadataStore, coordinator: Coordinator, lists: Hash -> seq<NodeId>,
                              reachable: Hash -> set<NodeId>, chunkSizeHint: Option<nat>)
    returns (report: Report)
    requires store.Valid() && coordinator.Valid()
    requires forall h :: lists(h) == coordinator.Replicas(h)
    modifies store, coordinator
    ensures store.Valid() && coordinator.Valid()
    ensures store.View() == old(store.View()).(refcounts := old(store.View()).refcounts - old(Orphans(store.View())))
    ensures coordinator.cluster == Swept(old(coordinator.cluster), old(Orphans(store.View())), lists, reachable)
    ensures report.scanned == |old(Orphans(store.View()))|
    ensures report.reclaimedChunks
        == |Reclaimed(old(coordinator.cluster), old(Orphans(store.View())), lists, reachable)|
    ensures report.reclaimedBytes == if chunkSizeHint.Some? then report.reclaimedChunks * chunkSizeHint.value else 0
  {
    hide Join, RowsMatch, Prefs, WellFormed;
    var orphaned := store.ListOrphanedChunks();
    var reclaimedChunks: nat, reclaimedBytes: nat := 0, 0;
    ghost var c, m := coordinator.cluster, store.View();
    for i := 0 to |orphaned|
      invariant store.Valid() && coordinator.Valid()
      invariant store.View() == ReapedInOrder(m, orphaned[..i])
      invariant coordinator.cluster == SweptInOrder(c, orphaned[..i], lists, reachable)
      invariant reclaimedChunks == ReclaimedInOrder(c, orphaned[..i], lists, reachable)
      invariant reclaimedBytes == if chunkSizeHint.Some? then reclaimedChunks * chunkSizeHint.value else 0
    {
      var hash := orphaned[i];
      assert orphaned[..i + 1][..i] == orphaned[..i];
      ReachedByNodesOnly(c, coordinator.cluster, lists(hash), reachable(hash));
      var deletedFromReplicas := SweepChunk(store, coordinator, lists(hash), hash, reachable(hash));
      if deletedFromReplicas > 0 {
        if chunkSizeHint.Some? {
          OneMoreTimes(reclaimedChunks, chunkSizeHint.value);
        }
        reclaimedChunks := reclaimedChunks + 1;
        if chunkSizeHint.Some? {
          reclaimedBytes := reclaimedBytes + chunkSizeHint.value;
        }
      }
    }
    assert orphaned[..|orphaned|] == orphaned;
    NoDupCard(orphaned);
    SweepInAnyOrder(c, orphaned, lists, reachable);
    ReclaimInAnyOrder(c, orphaned, lists, reachable);
    ReapInAnyOrder(m, orphaned);
    report := Report(|orphaned|, reclaimedChunks, reclaimedBytes);
  }
}
