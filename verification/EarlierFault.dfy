/** A fault from before a version was written excuses nothing: a run in which a sweep takes the version's whole
    quorum. */
module EarlierFault {
  import opened Types
  import opened Seqs
  import opened Metadata
  import opened ChunkStores
  import opened Replication
  import opened StoreSystem
  import opened Reliance
  import opened Holding
  import opened Overlap

  /** A quorum of one, a body of one chunk, and two replicas. */
  ghost predicate Twin(c: Config, d: NodeId, e: NodeId, body: Bytes) {
    Single(c, body) && d in c.nodes && e in c.nodes && d != e && c.lists(c.sha(body)) == [d, e]
  }

  /** Two replicas store the chunk of version 1. */
  function BothStore(d: NodeId, e: NodeId, body: Bytes): seq<Event> {
    [StartPost(0, body), ReplicaPut(0, d, true, true), ReplicaPut(0, e, true, true)]
  }

  /** Version 1 is committed, a fault takes e's copy, an update orphans the chunk, and a sweep lists it. */
  function UpToSweep(h: Hash, d: NodeId, e: NodeId, body: Bytes): seq<Event> {
    BothStore(d, e, body) + [PutDone(0), Commit(0, "f", "v1")] + [Fault(e, h, None)] + Orphaning(1)
        + [StartSweep(2, [h])]
  }

  /** The bytes are posted again: d has them, e cannot be reached. The post commits, and the sweep's delete reaches d.
      */
  function ThenOverlap(es: seq<Event>, d: NodeId, e: NodeId, body: Bytes): seq<Event> {
    es + [StartPost(3, body)] + [ReplicaPut(3, d, true, true)] + [ReplicaPut(3, e, false, false)]
    + [PutDone(3), Commit(3, "g", "v3")] + [ReplicaDelete(2, d, true)]
  }

  lemma OverlapHasNoFault(es: seq<Event>, d: NodeId, e: NodeId, body: Bytes)
    ensures var run := ThenOverlap(es, d, e, body);
            |es| <= |run| && run[..|es|] == es && forall j :: |es| <= j < |run| ==> !run[j].Fault?
  {
  }

  lemma AfterStart(c: Config, es: seq<Event>, s: State, t: TaskId, d: NodeId, e: NodeId, body: Bytes)
    requires Twin(c, d, e, body) && Exec(c, es) == Some(s) && t !in s.tasks
    ensures Exec(c, es + [StartPost(t, body)]) == Some(s.(tasks := s.tasks[t := Uploading(body, 0, {d, e}, {})]))
  {
    OneChunk(c, body);
    assert Elems([d, e]) == {d, e};
    Then(c, es, s, StartPost(t, body), s.(tasks := s.tasks[t := Uploading(body, 0, {d, e}, {})]));
  }

  lemma AfterAck(c: Config, es: seq<Event>, s: State, t: TaskId, n: NodeId, body: Bytes,
                 waiting: set<NodeId>, acks: set<NodeId>)
    requires Single(c, body) && Exec(c, es) == Some(s) && t in s.tasks && n in s.disks && n in waiting
    requires s.tasks[t] == Uploading(body, 0, waiting, acks)
    ensures Exec(c, es + [ReplicaPut(t, n, true, true)]) ==
            Some(s.(tasks := s.tasks[t := Uploading(body, 0, waiting - {n}, acks + {n})],
                    disks := WithCopy(s.disks, n, c.sha(body), body)))
  {
    OneChunk(c, body);
    var after := s.(tasks := s.tasks[t := Uploading(body, 0, waiting - {n}, acks + {n})],
                    disks := WithCopy(s.disks, n, c.sha(body), body));
    assert ValidName(c.sha(body)) && s.disks[n := s.disks[n]] == s.disks;
    Then(c, es, s, ReplicaPut(t, n, true, true), after);
  }

  lemma AfterSilence(c: Config, es: seq<Event>, s: State, t: TaskId, n: NodeId, body: Bytes,
                     waiting: set<NodeId>, acks: set<NodeId>)
    requires Single(c, body) && Exec(c, es) == Some(s) && t in s.tasks && n in s.disks && n in waiting
    requires s.tasks[t] == Uploading(body, 0, waiting, acks)
    ensures Exec(c, es + [ReplicaPut(t, n, false, false)]) ==
            Some(s.(tasks := s.tasks[t := Uploading(body, 0, waiting - {n}, acks)]))
  {
    OneChunk(c, body);
    Then(c, es, s, ReplicaPut(t, n, false, false), s.(tasks := s.tasks[t := Uploading(body, 0, waiting - {n}, acks)]));
  }

  function BothHold(c: Config, d: NodeId, e: NodeId, body: Bytes): Cluster
    requires d in c.nodes && e in c.nodes
  {
    Initial(c).disks[d := map[c.sha(body) := body]][e := map[c.sha(body) := body]]
  }

  function OneHolds(c: Config, d: NodeId, body: Bytes): Cluster
    requires d in c.nodes
  {
    Initial(c).disks[d := map[c.sha(body) := body]]
  }

  lemma OneStored(c: Config, d: NodeId, e: NodeId, body: Bytes)
    requires Twin(c, d, e, body)
    ensures Exec(c, [StartPost(0, body)] + [ReplicaPut(0, d, true, true)]) ==
            Some(Initial(c).(tasks := map[0 := Uploading(body, 0, {e}, {d})], disks := OneHolds(c, d, body)))
  {
    var s := Initial(c);
    AfterStart(c, [], s, 0, d, e, body);
    var started := s.(tasks := map[0 := Uploading(body, 0, {d, e}, {})]);
    assert [] + [StartPost(0, body)] == [StartPost(0, body)];
    AfterAck(c, [StartPost(0, body)], started, 0, d, body, {d, e}, {});
    assert {d, e} - {d} == {e} && {} + {d} == {d};
    assert started.tasks[0 := Uploading(body, 0, {e}, {d})] == map[0 := Uploading(body, 0, {e}, {d})];
    assert WithCopy(s.disks, d, c.sha(body), body) == OneHolds(c, d, body);
  }

  lemma BothStored(c: Config, d: NodeId, e: NodeId, body: Bytes)
    requires Twin(c, d, e, body)
    ensures Exec(c, BothStore(d, e, body)) ==
            Some(Initial(c).(tasks := map[0 := Uploading(body, 0, {}, {d, e})], disks := BothHold(c, d, e, body)))
  {
    OneStored(c, d, e, body);
    var acked := Initial(c).(tasks := map[0 := Uploading(body, 0, {e}, {d})], disks := OneHolds(c, d, body));
    AfterAck(c, [StartPost(0, body)] + [ReplicaPut(0, d, true, true)], acked, 0, e, body, {e}, {d});
    assert {e} - {e} == {} && {d} + {e} == {d, e};
    assert acked.tasks[0 := Uploading(body, 0, {}, {d, e})] == map[0 := Uploading(body, 0, {}, {d, e})];
    assert WithCopy(acked.disks, e, c.sha(body), body) == BothHold(c, d, e, body);
    assert BothStore(d, e, body)
        == [StartPost(0, body)] + [ReplicaPut(0, d, true, true)] + [ReplicaPut(0, e, true, true)];
  }

  function Committed1(c: Config, disks: Cluster, body: Bytes): State {
    State(Meta(map["f" := Some("v1")], map["v1" := Version("f", |body|, [c.sha(body)])], map[c.sha(body) := 1]),
          disks, map[], {"f"}, {"v1"})
  }

  lemma FirstCommit(c: Config, d: NodeId, e: NodeId, body: Bytes)
    requires Twin(c, d, e, body)
    ensures Exec(c, BothStore(d, e, body) + [PutDone(0), Commit(0, "f", "v1")]) ==
            Some(Committed1(c, BothHold(c, d, e, body), body))
  {
    BothStored(c, d, e, body);
    var s := Initial(c).(tasks := map[0 := Uploading(body, 0, {}, {d, e})], disks := BothHold(c, d, e, body));
    AfterCommitOne(c, BothStore(d, e, body), s, 0, {d, e}, body, "f", "v1");
    assert s.tasks - {0} == map[] && s.fileIds + {"f"} == {"f"} && s.versionIds + {"v1"} == {"v1"};
  }

  lemma AfterLoss(c: Config, es: seq<Event>, d: NodeId, e: NodeId, body: Bytes)
    requires Twin(c, d, e, body) && Exec(c, es) == Some(Committed1(c, BothHold(c, d, e, body), body))
    ensures Exec(c, es + [Fault(e, c.sha(body), None)]) == Some(Committed1(c, OneHolds(c, d, body), body))
  {
    var stored := Committed1(c, BothHold(c, d, e, body), body);
    assert stored.disks[e] - {c.sha(body)} == map[];
    assert stored.disks[e := map[]] == OneHolds(c, d, body);
    Then(c, es, stored, Fault(e, c.sha(body), None), Committed1(c, OneHolds(c, d, body), body));
  }

  /** A sweep is about to delete the orphaned chunk, which only d still holds. */
  function Swept(c: Config, d: NodeId, e: NodeId, body: Bytes): State
    requires d in c.nodes
  {
    State(Meta(map["f" := Some("v2")], map["v2" := Version("f", 0, [])], map[c.sha(body) := 0]),
          OneHolds(c, d, body), map[2 := Sweep([c.sha(body)], {d, e})], {"f"}, {"v1", "v2"})
  }

  lemma ReachesSweep(c: Config, d: NodeId, e: NodeId, body: Bytes)
    requires Twin(c, d, e, body)
    ensures Exec(c, UpToSweep(c.sha(body), d, e, body)) == Some(Swept(c, d, e, body))
  {
    var h, s := c.sha(body), Committed1(c, OneHolds(c, d, body), body);
    var es := BothStore(d, e, body) + [PutDone(0), Commit(0, "f", "v1")] + [Fault(e, h, None)];
    FirstCommit(c, d, e, body);
    AfterLoss(c, BothStore(d, e, body) + [PutDone(0), Commit(0, "f", "v1")], d, e, body);
    AfterOrphaning(c, es, s, 1, body);
    var orphaned := Swept(c, d, e, body).(tasks := map[]);
    assert {"f"} + {"f"} == {"f"};
    assert Elems([h]) == {h} && Elems([d, e]) == {d, e} && Orphans(orphaned.meta) == {h};
    Then(c, es + Orphaning(1), orphaned, StartSweep(2, [h]), Swept(c, d, e, body));
  }

  /** The last state: nobody holds the chunk. */
  function Gone3(c: Config, e: NodeId, body: Bytes): State {
    State(Meta(map["f" := Some("v2"), "g" := Some("v3")],
               map["v2" := Version("f", 0, []), "v3" := Version("g", |body|, [c.sha(body)])], map[c.sha(body) := 1]),
          Initial(c).disks, map[2 := Sweep([c.sha(body)], {e})], {"f", "g"}, {"v1", "v2", "v3"})
  }

  lemma SecondAck(c: Config, es: seq<Event>, d: NodeId, e: NodeId, body: Bytes)
    requires Twin(c, d, e, body) && Exec(c, es) == Some(Swept(c, d, e, body))
    ensures Exec(c, es + [StartPost(3, body)] + [ReplicaPut(3, d, true, true)]) ==
            Some(Swept(c, d, e, body).(tasks := Swept(c, d, e, body).tasks[3 := Uploading(body, 0, {e}, {d})]))
  {
    var s := Swept(c, d, e, body);
    AfterStart(c, es, s, 3, d, e, body);
    var started := s.(tasks := s.tasks[3 := Uploading(body, 0, {d, e}, {})]);
    AfterAck(c, es + [StartPost(3, body)], started, 3, d, body, {d, e}, {});
    assert {d, e} - {d} == {e} && {} + {d} == {d};
    assert WithCopy(s.disks, d, c.sha(body), body) == s.disks;
    assert started.tasks[3 := Uploading(body, 0, {e}, {d})] == s.tasks[3 := Uploading(body, 0, {e}, {d})];
  }

  lemma SecondPost(c: Config, es: seq<Event>, d: NodeId, e: NodeId, body: Bytes)
    requires Twin(c, d, e, body) && Exec(c, es) == Some(Swept(c, d, e, body))
    ensures Exec(c, es + [StartPost(3, body)] + [ReplicaPut(3, d, true, true)] + [ReplicaPut(3, e, false, false)]) ==
            Some(Swept(c, d, e, body).(tasks := Swept(c, d, e, body).tasks[3 := Uploading(body, 0, {}, {d})]))
  {
    var s := Swept(c, d, e, body);
    SecondAck(c, es, d, e, body);
    var acked := s.(tasks := s.tasks[3 := Uploading(body, 0, {e}, {d})]);
    AfterSilence(c, es + [StartPost(3, body)] + [ReplicaPut(3, d, true, true)], acked, 3, e, body, {e}, {d});
    assert {e} - {e} == {};
    assert acked.tasks[3 := Uploading(body, 0, {}, {d})] == s.tasks[3 := Uploading(body, 0, {}, {d})];
  }

  /** The second post has committed; the sweep's delete is still under way. */
  function Committed3(c: Config, d: NodeId, e: NodeId, body: Bytes): State
    requires d in c.nodes
  {
    Gone3(c, e, body).(disks := OneHolds(c, d, body), tasks := map[2 := Sweep([c.sha(body)], {d, e})])
  }

  lemma SecondCommit(c: Config, es: seq<Event>, d: NodeId, e: NodeId, body: Bytes)
    requires Twin(c, d, e, body)
    requires Exec(c, es)
        == Some(Swept(c, d, e, body).(tasks := Swept(c, d, e, body).tasks[3 := Uploading(body, 0, {}, {d})]))
    ensures Exec(c, es + [PutDone(3), Commit(3, "g", "v3")]) == Some(Committed3(c, d, e, body))
  {
    var h, s, after := c.sha(body), Exec(c, es).value, Committed3(c, d, e, body);
    AfterCommitOne(c, es, s, 3, {d}, body, "g", "v3");
    assert s.meta.files["g" := Some("v3")] == after.meta.files;
    assert s.meta.versions["v3" := Version("g", |body|, [h])] == after.meta.versions;
    assert s.meta.refcounts[h := 1] == after.meta.refcounts;
    assert s.fileIds + {"g"} == {"f", "g"} && s.versionIds + {"v3"} == {"v1", "v2", "v3"};
    assert s.tasks - {3} == after.tasks;
  }

  lemma LastDelete(c: Config, es: seq<Event>, d: NodeId, e: NodeId, body: Bytes)
    requires Twin(c, d, e, body) && Exec(c, es) == Some(Committed3(c, d, e, body))
    ensures Exec(c, es + [ReplicaDelete(2, d, true)]) == Some(Gone3(c, e, body))
  {
    var h, s, after := c.sha(body), Committed3(c, d, e, body), Gone3(c, e, body);
    assert {d, e} - {d} == {e} && s.tasks[2 := Sweep([h], {e})] == after.tasks;
    assert s.disks[d] - {h} == map[] && s.disks[d := map[]] == after.disks;
    Then(c, es, s, ReplicaDelete(2, d, true), after);
  }

  lemma ReachesEnd(c: Config, es: seq<Event>, d: NodeId, e: NodeId, body: Bytes)
    requires Twin(c, d, e, body) && Exec(c, es) == Some(Swept(c, d, e, body))
    ensures Exec(c, ThenOverlap(es, d, e, body)) == Some(Gone3(c, e, body))
  {
    var posted := es + [StartPost(3, body)] + [ReplicaPut(3, d, true, true)] + [ReplicaPut(3, e, false, false)];
    SecondPost(c, es, d, e, body);
    SecondCommit(c, posted, d, e, body);
    LastDelete(c, posted + [PutDone(3), Commit(3, "g", "v3")], d, e, body);
  }

  /** When the sweep begins the chunk has no holder, so nothing counts as taken from anybody. */
  lemma NothingTakenYet(c: Config, es: seq<Event>, d: NodeId, e: NodeId, body: Bytes)
    requires Twin(c, d, e, body) && Exec(c, es) == Some(Swept(c, d, e, body))
    ensures BookOf(c, es).taken == {} && AllSound(c, Swept(c, d, e, body))
  {
    var s, b := Swept(c, d, e, body), BookOf(c, es);
    VersionsAreBacked(c, es);
    assert forall r :: r in b.taken ==> RealHolder(c, s, r);
    assert forall r :: !RealHolder(c, s, r);
  }

  lemma VanishesAfter(c: Config, es: seq<Event>, d: NodeId, e: NodeId, body: Bytes)
    requires Twin(c, d, e, body) && Exec(c, es) == Some(Swept(c, d, e, body))
    ensures Exec(c, ThenOverlap(es, d, e, body)).Some? && Vanished(c, ThenOverlap(es, d, e, body), "v3", c.sha(body))
  {
    var run := ThenOverlap(es, d, e, body);
    ReachesEnd(c, es, d, e, body);
    NothingTakenYet(c, es, d, e, body);
    OverlapHasNoFault(es, d, e, body);
    NothingTakenWithoutFaults(c, run, |es|);
    assert c.sha(body) in Exec(c, run).value.meta.versions["v3"].chunks;
  }

  /** The fault came before version 3's upload began. It is no excuse: version 3's chunk is in no sound copy, no fault
      took one from it, and both exact conditions reject the run. */
  lemma {:induction false} EarlierFaultIsNoExcuse(c: Config, d: NodeId, e: NodeId, body: Bytes)
    requires Twin(c, d, e, body)
    ensures var before := UpToSweep(c.sha(body), d, e, body);
            var run := ThenOverlap(before, d, e, body);
            && Exec(c, run).Some? && Vanished(c, run, "v3", c.sha(body))
            && (forall j :: |before| <= j < |run| ==> !run[j].Fault?)
            && !EveryDeleteSpares(c, run) && !EveryStepSparesLive(c, run)
  {
    var es := UpToSweep(c.sha(body), d, e, body);
    ReachesSweep(c, d, e, body);
    VanishesAfter(c, es, d, e, body);
    OverlapHasNoFault(es, d, e, body);
    VanishedMeansUnspared(c, ThenOverlap(es, d, e, body), "v3", c.sha(body));
  }
}
