/** What goes wrong when a sweep overlaps an upload, and exactly when the reference counts stay right. */
module Overlap {
  import opened Types
  import opened Seqs
  import opened Chunker
  import opened ChunkStores
  import opened Metadata
  import opened Replication
  import opened StoreSystem
  import opened Consistency
  import opened Reliance
  import opened Holding
  import opened GcSafety

  // ---------- exactly when counts stay right ----------

  /** If event e is a reap, the chunk's count is still not positive: the check reapOrphanedChunk does not make. */
  predicate ReapIsStillDue(c: Config, s: State, e: Event)
    requires c.size > 0
  {
    e.ReapHead? && Enabled(c, s, e) ==> Refcount(s.meta.refcounts, s.tasks[e.t].queue[0]) <= 0
  }

  /** Every reap of the run finds the chunk's count not positive. */
  predicate EveryReapIsStillDue(c: Config, es: seq<Event>)
    requires c.size > 0
  {
    es == [] ||
    (EveryReapIsStillDue(c, es[..|es| - 1]) &&
     (Exec(c, es[..|es| - 1]).Some? ==> ReapIsStillDue(c, Exec(c, es[..|es| - 1]).value, es[|es| - 1])))
  }

  /** The counts are right in every state the run passes through. */
  ghost predicate AlwaysCounted(c: Config, es: seq<Event>)
    requires c.size > 0
  {
    (Exec(c, es).Some? ==> Counted(Exec(c, es).value.meta)) && (es == [] || AlwaysCounted(c, es[..|es| - 1]))
  }

  lemma StepKeepsCountedIff(c: Config, s: State, e: Event)
    requires c.Valid() && Consistent(s) && Enabled(c, s, e) && Counted(s.meta)
    ensures Counted(Apply(c, s, e).meta) <==> ReapIsStillDue(c, s, e)
  {
    match e
    case Commit(t, f, v) => CommitKeepsCounted(c, s, t, f, v);
    case ReapHead(t) =>
      var head := s.tasks[t].queue[0];
      ReapKeepsCountsIff(s.meta, head);
      assert Refcount(s.meta.refcounts, head) == AllRefs(s.meta.versions)[head];
    case _ => assert Apply(c, s, e).meta == s.meta;
  }

  /** In any run, overlapping or not, the counts are right throughout exactly when every reap happens while the
      chunk's count is still not positive. */
  lemma {:induction false} AlwaysCountedIff(c: Config, es: seq<Event>)
    requires c.Valid() && Exec(c, es).Some?
    ensures AlwaysCounted(c, es) <==> EveryReapIsStillDue(c, es)
  {
    if es == [] {
    } else {
      var before, e := es[..|es| - 1], es[|es| - 1];
      AlwaysCountedIff(c, before);
      RunsAreConsistent(c, before);
      if AlwaysCounted(c, before) {
        assert Counted(Exec(c, before).value.meta);
        StepKeepsCountedIff(c, Exec(c, before).value, e);
      }
    }
  }

  // ---------- what counts never do ----------

  /** No count exceeds the chunk's multiplicity over all live manifests. */
  ghost predicate NeverTooHigh(m: Meta) {
    forall h :: Refcount(m.refcounts, h) <= AllRefs(m.versions)[h]
  }

  lemma CommitNeverTooHigh(m: Meta, f: FileId, v: VersionId, hs: seq<Hash>, size: nat)
    requires NeverTooHigh(m) && v !in m.versions
    ensures NeverTooHigh(CommitVersion(m, f, v, hs, size))
  {
    BumpCounts(m.refcounts, hs);
    AllRefsWith(m.versions, v, Version(f, size, hs));
  }

  lemma DeleteNeverTooHigh(m: Meta, v: VersionId)
    requires NeverTooHigh(m)
    ensures NeverTooHigh(DeleteVersion(m, v))
  {
    if v in m.versions {
      var after := DeleteVersion(m, v);
      DropCounts(m.refcounts, m.versions[v].chunks);
      AllRefsWithout(m.versions, v);
      forall h ensures Refcount(after.refcounts, h) <= AllRefs(after.versions)[h] {
        assert Refcount(m.refcounts, h) <= AllRefs(m.versions)[h];
      }
    }
  }

  lemma ReapNeverTooHigh(m: Meta, h: Hash)
    requires NeverTooHigh(m)
    ensures NeverTooHigh(Reap(m, h))
  {
    forall g ensures Refcount(Reap(m, h).refcounts, g) <= AllRefs(m.versions)[g] {
      assert Refcount(m.refcounts, g) <= AllRefs(m.versions)[g];
    }
  }

  lemma StepNeverTooHigh(c: Config, s: State, e: Event)
    requires c.Valid() && Consistent(s) && Enabled(c, s, e) && NeverTooHigh(s.meta)
    ensures NeverTooHigh(Apply(c, s, e).meta)
  {
    match e
    case Commit(t, f, v) =>
      var u := s.tasks[t];
      var created := if u.target.None? then CreateFile(s.meta, f) else s.meta;
      CommitNeverTooHigh(created, f, v, Hashes(c, u.body), |u.body|);
      if u.prev.Some? {
        DeleteNeverTooHigh(CommitVersion(created, f, v, Hashes(c, u.body), |u.body|), u.prev.value);
      }
    case ReapHead(t) => ReapNeverTooHigh(s.meta, s.tasks[t].queue[0]);
    case _ => assert Apply(c, s, e).meta == s.meta;
  }

  /** In any run, overlapping or not, counts err on one side only: an undue reap can make a count too low, even
      negative, and nothing makes one too high. So a sweep that begins lists every chunk that has a row and no
      reference. */
  lemma {:induction false} UnreferencedRowsAreListed(c: Config, es: seq<Event>)
    requires c.Valid() && Exec(c, es).Some?
    ensures NeverTooHigh(Exec(c, es).value.meta)
    ensures var m := Exec(c, es).value.meta;
            forall h :: h in m.refcounts && h !in AllRefs(m.versions) ==> h in Orphans(m)
  {
    if es == [] {
    } else {
      var before := es[..|es| - 1];
      UnreferencedRowsAreListed(c, before);
      RunsAreConsistent(c, before);
      StepNeverTooHigh(c, Exec(c, before).value, es[|es| - 1]);
    }
    var m := Exec(c, es).value.meta;
    forall h | h in m.refcounts && h !in AllRefs(m.versions) ensures h in Orphans(m) {
      assert Refcount(m.refcounts, h) <= AllRefs(m.versions)[h];
    }
  }

  lemma CountOfOne(rc: map<Hash, int>, h: Hash)
    ensures Bump(rc, [h]) == rc[h := Refcount(rc, h) + 1]
    ensures Drop(rc, [h]) == if h in rc then rc[h := rc[h] - 1] else rc
  {
    assert [h][..0] == [];
  }

  /** Two files, each with one version of one and the same chunk, which the tables count once: after the first commit
      the row was reaped, undue, and the second commit counted afresh. */
  function Undercounted(f: FileId, g: FileId, v: VersionId, w: VersionId, h: Hash): Meta {
    var first := CommitVersion(CreateFile(NO_META, f), f, v, [h], 1);
    CommitVersion(CreateFile(Reap(first, h), g), g, w, [h], 1)
  }

  lemma UndercountedTables(f: FileId, g: FileId, v: VersionId, w: VersionId, h: Hash)
    requires f != g && v != w
    ensures var m := Undercounted(f, g, v, w, h);
            m.refcounts == map[h := 1] && m.versions == map[v := Version(f, 1, [h]), w := Version(g, 1, [h])]
  {
    var first := CommitVersion(CreateFile(NO_META, f), f, v, [h], 1);
    CountOfOne(map[], h);
    assert first.refcounts == map[h := 1];
    assert first.refcounts - {h} == map[];
  }

  /** Counts really become negative: when both versions are gone the count is one below zero, and a sweep lists it. */
  lemma CountsCanTurnNegative(f: FileId, g: FileId, v: VersionId, w: VersionId, h: Hash)
    requires f != g && v != w
    ensures var after := DeleteVersion(DeleteVersion(Undercounted(f, g, v, w, h), v), w);
            after.versions == map[] && after.refcounts == map[h := -1] && Orphans(after) == {h}
  {
    var m := Undercounted(f, g, v, w, h);
    UndercountedTables(f, g, v, w, h);
    var one := DeleteVersion(m, v);
    CountOfOne(m.refcounts, h);
    assert one.refcounts == map[h := 0] && one.versions == map[w := Version(g, 1, [h])];
    CountOfOne(one.refcounts, h);
    var after := DeleteVersion(one, w);
    assert after.refcounts == map[h := -1] && after.versions == map[];
  }

  /** A commit leaves every sweep's queue unreferenced exactly when it writes no chunk that a sweep has listed. */
  lemma CommitSparesQueuesIff(c: Config, s: State, t: TaskId, f: FileId, v: VersionId)
    requires c.Valid() && Consistent(s) && QueuesUnreferenced(s) && Enabled(c, s, Commit(t, f, v))
    ensures QueuesUnreferenced(Apply(c, s, Commit(t, f, v))) <==>
            forall u, h :: u in s.tasks && s.tasks[u].Sweep? && h in s.tasks[u].queue ==>
                h !in Hashes(c, s.tasks[t].body)
  {
    var after, hashes := Apply(c, s, Commit(t, f, v)), Hashes(c, s.tasks[t].body);
    CommitEffect(c, s, t, f, v);
    forall u, h | u in s.tasks && s.tasks[u].Sweep? && h in s.tasks[u].queue
      ensures h in AllRefs(after.meta.versions) <==> h in hashes
    {
      if h in hashes {
        ReferencedSomewhere(after.meta.versions, h);
        assert h in after.meta.versions[v].chunks;
      } else if h in AllRefs(after.meta.versions) {
        CommitReferences(c, s, t, f, v, h);
      }
    }
    assert forall u :: u in s.tasks && s.tasks[u].Sweep? ==> u in after.tasks && after.tasks[u] == s.tasks[u];
    assert forall u :: u in after.tasks && after.tasks[u].Sweep? ==> u in s.tasks && after.tasks[u] == s.tasks[u];
  }

  // ---------- the hypothesis cannot be dropped ----------

  /** A quorum of one, and a body of one chunk. */
  ghost predicate Single(c: Config, body: Bytes) {
    c.Valid() && c.w == 1 && 0 < |body| <= c.size
  }

  /** And one replica. */
  ghost predicate Small(c: Config, d: NodeId, body: Bytes) {
    Single(c, body) && d in c.nodes && c.lists(c.sha(body)) == [d]
  }

  function PutOne(t: TaskId, d: NodeId, body: Bytes): seq<Event> {
    [StartPost(t, body), ReplicaPut(t, d, true, true)]
  }

  function Orphaning(t: TaskId): seq<Event> {
    [StartPut(t, "f", []), Commit(t, "f", "v2")]
  }

  /** The file is stored, then emptied, which orphans its chunk; a sweep lists the chunk; the same bytes are posted
      again, and the replica answers that it has them already; then the sweep's delete arrives. */
  function UpToDelete(h: Hash, d: NodeId, body: Bytes): seq<Event> {
    PutOne(0, d, body) + [PutDone(0), Commit(0, "f", "v1")]
    + Orphaning(1)
    + [StartSweep(2, [h])] + PutOne(3, d, body) + [ReplicaDelete(2, d, true)]
  }

  /** The post commits, and then the sweep reaps the row. */
  function OverlapRun(h: Hash, d: NodeId, body: Bytes): seq<Event> {
    UpToDelete(h, d, body) + [PutDone(3), Commit(3, "g", "v3")] + [ReapHead(2)]
  }

  /** The sweep reaps the row, and then the post commits. */
  function ReorderedRun(h: Hash, d: NodeId, body: Bytes): seq<Event> {
    UpToDelete(h, d, body) + [ReapHead(2)] + [PutDone(3), Commit(3, "g", "v3")]
  }

  lemma OneChunk(c: Config, body: Bytes)
    requires Single(c, body)
    ensures Hashes(c, body) == [c.sha(body)] && Hashes(c, []) == []
    ensures Piece(c, body, 0) == body
  {
    assert Pieces(body, c.size) == [body];
  }

  function Uploading(body: Bytes, next: nat, waiting: set<NodeId>, acks: set<NodeId>): Task {
    Upload(None, None, body, next, waiting, acks)
  }

  function WithCopy(disks: Cluster, d: NodeId, h: Hash, body: Bytes): Cluster
    requires d in disks
  {
    if h in disks[d] then disks else disks[d := disks[d][h := body]]
  }

  lemma AfterPutOne(c: Config, es: seq<Event>, s: State, t: TaskId, d: NodeId, body: Bytes)
    requires Small(c, d, body) && Exec(c, es) == Some(s) && t !in s.tasks && d in s.disks
    ensures Exec(c, es + PutOne(t, d, body)) ==
            Some(s.(tasks := s.tasks[t := Uploading(body, 0, {}, {d})],
                disks := WithCopy(s.disks, d, c.sha(body), body)))
  {
    OneChunk(c, body);
    var h := c.sha(body);
    assert Elems([d]) == {d};
    assert ValidName(c.sha(body));
    var started := s.(tasks := s.tasks[t := Uploading(body, 0, {d}, {})]);
    Then(c, es, s, StartPost(t, body), started);
    var acked := s.(tasks := s.tasks[t := Uploading(body, 0, {}, {d})], disks := WithCopy(s.disks, d, h, body));
    assert {d} - {d} == {} && {} + {d} == {d};
    assert started.tasks[t := Uploading(body, 0, {}, {d})] == acked.tasks;
    assert DiskAfterPut(s.disks[d], h, body, c.sha) == acked.disks[d];
    assert started.disks[d := started.disks[d]] == started.disks;
    Then(c, es + [StartPost(t, body)], started, ReplicaPut(t, d, true, true), acked);
    assert es + PutOne(t, d, body) == es + [StartPost(t, body)] + [ReplicaPut(t, d, true, true)];
  }

  lemma AfterCommitOne(c: Config, es: seq<Event>, s: State, t: TaskId, acks: set<NodeId>, body: Bytes,
                       f: FileId, v: VersionId)
    requires Single(c, body) && Exec(c, es) == Some(s) && t in s.tasks
    requires s.tasks[t] == Uploading(body, 0, {}, acks) && |acks| >= 1
    requires f !in s.fileIds && v !in s.versionIds
    ensures var h := c.sha(body);
            Exec(c, es + [PutDone(t), Commit(t, f, v)]) ==
            Some(s.(tasks := s.tasks - {t},
                    meta := Meta(s.meta.files[f := Some(v)], s.meta.versions[v := Version(f, |body|, [h])],
                                 s.meta.refcounts[h := Refcount(s.meta.refcounts, h) + 1]),
                    fileIds := s.fileIds + {f}, versionIds := s.versionIds + {v}))
  {
    OneChunk(c, body);
    var h := c.sha(body);
    var done := s.(tasks := s.tasks[t := Uploading(body, 1, {}, {})]);
    Then(c, es, s, PutDone(t), done);
    assert done.tasks - {t} == s.tasks - {t};
    assert [h][..0] == [] && Bump(s.meta.refcounts, []) == s.meta.refcounts;
    assert s.meta.files[f := None][f := Some(v)] == s.meta.files[f := Some(v)];
    var committed := Committed(c, done.meta, done.tasks[t], f, v);
    Then(c, es + [PutDone(t)], done, Commit(t, f, v),
         done.(meta := committed, tasks := done.tasks - {t}, fileIds := s.fileIds + {f},
             versionIds := s.versionIds + {v}));
    assert es + [PutDone(t), Commit(t, f, v)] == es + [PutDone(t)] + [Commit(t, f, v)];
  }

  lemma AfterOrphaning(c: Config, es: seq<Event>, s: State, t: TaskId, body: Bytes)
    requires Single(c, body) && Exec(c, es) == Some(s) && s.tasks == map[]
    requires s.versionIds == {"v1"} && s.meta.files == map["f" := Some("v1")]
    requires s.meta.versions == map["v1" := Version("f", |body|, [c.sha(body)])]
    requires s.meta.refcounts == map[c.sha(body) := 1]
    ensures Exec(c, es + Orphaning(t)) ==
            Some(s.(meta := Meta(map["f" := Some("v2")], map["v2" := Version("f", 0, [])], map[c.sha(body) := 0]),
                    fileIds := s.fileIds + {"f"}, versionIds := {"v1", "v2"}))
  {
    OneChunk(c, body);
    var h := c.sha(body);
    var started := s.(tasks := map[t := Upload(Some("f"), Some("v1"), [], 0, {}, {})]);
    Then(c, es, s, StartPut(t, "f", []), started);
    assert [h][..0] == [] && Drop(s.meta.refcounts, []) == s.meta.refcounts;
    assert Drop(s.meta.refcounts, [h]) == map[h := 0];
    var committed := Meta(map["f" := Some("v2")], map["v2" := Version("f", 0, [])], map[h := 0]);
    assert s.meta.versions["v2" := Version("f", 0, [])] - {"v1"} == committed.versions;
    assert committed.files == s.meta.files["f" := Some("v2")];
    assert Committed(c, s.meta, started.tasks[t], "f", "v2") == committed;
    assert started.tasks - {t} == s.tasks;
    assert s.versionIds + {"v2"} == {"v1", "v2"};
    Then(c, es + [StartPut(t, "f", [])], started, Commit(t, "f", "v2"),
         s.(meta := committed, fileIds := s.fileIds + {"f"}, versionIds := {"v1", "v2"}));
    assert es + Orphaning(t) == es + [StartPut(t, "f", [])] + [Commit(t, "f", "v2")];
  }

  /** Everything orphaned: the chunk's count is zero and its bytes are on the node. */
  function Orphaned(c: Config, d: NodeId, body: Bytes): State
    requires d in c.nodes
  {
    State(Meta(map["f" := Some("v2")], map["v2" := Version("f", 0, [])], map[c.sha(body) := 0]),
          Initial(c).disks[d := map[c.sha(body) := body]], map[], {"f"}, {"v1", "v2"})
  }

  lemma ReachesOrphaned(c: Config, d: NodeId, body: Bytes)
    requires Small(c, d, body)
    ensures Exec(c, PutOne(0, d, body) + [PutDone(0), Commit(0, "f", "v1")] + Orphaning(1))
        == Some(Orphaned(c, d, body))
  {
    var h := c.sha(body);
    var stored := Initial(c).disks[d := map[h := body]];
    assert WithCopy(Initial(c).disks, d, h, body) == stored;
    AfterPutOne(c, [], Initial(c), 0, d, body);
    assert [] + PutOne(0, d, body) == PutOne(0, d, body);
    var put := Initial(c).(tasks := map[0 := Uploading(body, 0, {}, {d})], disks := stored);
    AfterCommitOne(c, PutOne(0, d, body), put, 0, {d}, body, "f", "v1");
    var m := Meta(map["f" := Some("v1")], map["v1" := Version("f", |body|, [h])], map[h := 1]);
    assert put.tasks - {0} == map[];
    assert put.fileIds + {"f"} == {"f"} && put.versionIds + {"v1"} == {"v1"};
    AfterOrphaning(c, PutOne(0, d, body) + [PutDone(0), Commit(0, "f", "v1")], State(m, stored, map[], {"f"}, {"v1"}),
                   1, body);
    assert {"f"} + {"f"} == {"f"};
  }

  /** The sweep has listed the chunk; the second post has been told that the node has it. */
  function Overlapped(c: Config, d: NodeId, body: Bytes): State
    requires d in c.nodes
  {
    Orphaned(c, d, body).(tasks := map[2 := Sweep([c.sha(body)], {d}), 3 := Uploading(body, 0, {}, {d})])
  }

  /** The sweep's delete has arrived. */
  function Deleted(c: Config, d: NodeId, body: Bytes): State
    requires d in c.nodes
  {
    Orphaned(c, d, body).(disks := Initial(c).disks,
                          tasks := map[2 := Sweep([c.sha(body)], {}), 3 := Uploading(body, 0, {}, {d})])
  }

  /** The second post has committed, and the sweep has reaped the row. */
  function Lost(c: Config, d: NodeId, body: Bytes): State
    requires d in c.nodes
  {
    State(Meta(map["f" := Some("v2"), "g" := Some("v3")],
               map["v2" := Version("f", 0, []), "v3" := Version("g", |body|, [c.sha(body)])], map[]),
          Initial(c).disks, map[], {"f", "g"}, {"v1", "v2", "v3"})
  }

  lemma ReachesOverlapped(c: Config, es: seq<Event>, d: NodeId, body: Bytes)
    requires Small(c, d, body) && Exec(c, es) == Some(Orphaned(c, d, body))
    ensures Exec(c, es + [StartSweep(2, [c.sha(body)])] + PutOne(3, d, body)) == Some(Overlapped(c, d, body))
  {
    var h, s := c.sha(body), Orphaned(c, d, body);
    assert Elems([h]) == {h} && Elems([d]) == {d} && Orphans(s.meta) == {h};
    var swept := s.(tasks := map[2 := Sweep([h], {d})]);
    Then(c, es, s, StartSweep(2, [h]), swept);
    AfterPutOne(c, es + [StartSweep(2, [h])], swept, 3, d, body);
    assert swept.tasks[3 := Uploading(body, 0, {}, {d})] == Overlapped(c, d, body).tasks;
  }

  lemma ReachesDeleted(c: Config, es: seq<Event>, d: NodeId, body: Bytes)
    requires Small(c, d, body) && Exec(c, es) == Some(Overlapped(c, d, body))
    ensures Exec(c, es + [ReplicaDelete(2, d, true)]) == Some(Deleted(c, d, body))
  {
    var h, s, after := c.sha(body), Overlapped(c, d, body), Deleted(c, d, body);
    assert {d} - {d} == {};
    assert s.tasks[2 := Sweep([h], {})] == after.tasks;
    assert s.disks[d] - {h} == map[];
    assert s.disks[d := map[]] == after.disks;
    Then(c, es, s, ReplicaDelete(2, d, true), after);
  }

  lemma ReachesUpToDelete(c: Config, d: NodeId, body: Bytes)
    requires Small(c, d, body)
    ensures Exec(c, UpToDelete(c.sha(body), d, body)) == Some(Deleted(c, d, body))
  {
    var h := c.sha(body);
    var prefix := PutOne(0, d, body) + [PutDone(0), Commit(0, "f", "v1")] + Orphaning(1);
    var overlapped := prefix + [StartSweep(2, [h])] + PutOne(3, d, body);
    ReachesOrphaned(c, d, body);
    ReachesOverlapped(c, prefix, d, body);
    ReachesDeleted(c, overlapped, d, body);
    assert UpToDelete(h, d, body) == overlapped + [ReplicaDelete(2, d, true)];
  }

  lemma ReachesLost(c: Config, es: seq<Event>, d: NodeId, body: Bytes)
    requires Small(c, d, body) && Exec(c, es) == Some(Deleted(c, d, body))
    ensures Exec(c, es + [PutDone(3), Commit(3, "g", "v3")] + [ReapHead(2)]) == Some(Lost(c, d, body))
  {
    var h, s, after := c.sha(body), Deleted(c, d, body), Lost(c, d, body);
    AfterCommitOne(c, es, s, 3, {d}, body, "g", "v3");
    var committed := after.(meta := after.meta.(refcounts := map[h := 1]), tasks := map[2 := Sweep([h], {})]);
    assert s.meta.files["g" := Some("v3")] == committed.meta.files;
    assert s.meta.versions["v3" := Version("g", |body|, [h])] == committed.meta.versions;
    assert s.meta.refcounts[h := 1] == committed.meta.refcounts;
    assert s.fileIds + {"g"} == {"f", "g"} && s.versionIds + {"v3"} == {"v1", "v2", "v3"};
    assert s.tasks - {3} == committed.tasks;
    assert committed.meta.refcounts - {h} == map[] && [h][1..] == [] && committed.tasks - {2} == map[];
    Then(c, es + [PutDone(3), Commit(3, "g", "v3")], committed, ReapHead(2), after);
  }

  predicate NoFaults(es: seq<Event>) {
    forall e :: e in es ==> !e.Fault?
  }

  lemma NoFaultNoReapUpToDelete(h: Hash, d: NodeId, body: Bytes)
    ensures forall e :: e in UpToDelete(h, d, body) ==> !e.Fault? && !e.ReapHead?
  {
    assert forall e :: e in PutOne(0, d, body) || e in PutOne(3, d, body) || e in Orphaning(1) ==>
        !e.Fault? && !e.ReapHead?;
  }

  lemma NothingTakenFromStart(c: Config, es: seq<Event>)
    requires c.Valid() && Exec(c, es).Some? && NoFaults(es)
    ensures BookOf(c, es).taken == {}
  {
    assert es[..0] == [];
    NothingTakenWithoutFaults(c, es, 0);
  }

  /** The chunk is in no sound copy anywhere, and no fault took one from its version. */
  ghost predicate Vanished(c: Config, es: seq<Event>, v: VersionId, h: Hash)
    requires c.size > 0 && Exec(c, es).Some?
  {
    var s := Exec(c, es).value;
    && v in s.meta.versions && h in s.meta.versions[v].chunks
    && forall d :: d in c.lists(h) ==> !SoundCopy(c, s, d, h) && Trust(ByVersion(v), d, h) !in BookOf(c, es).taken
  }

  /** Both exact conditions reject such a run. */
  lemma VanishedMeansUnspared(c: Config, es: seq<Event>, v: VersionId, h: Hash)
    requires c.Valid() && c.w > 0 && Exec(c, es).Some? && Vanished(c, es, v, h)
    ensures !EveryDeleteSpares(c, es) && !EveryStepSparesLive(c, es) && !OverlapFree(c, es)
  {
    assert Holders(c, Exec(c, es).value, BookOf(c, es), ByVersion(v), h) == {};
    assert !LiveHeld(c, Exec(c, es).value, BookOf(c, es));
    AlwaysLiveHeldIff(c, es);
    if EveryDeleteSpares(c, es) {
      SparingDeletesKeepLiveHeld(c, es);
    }
    if OverlapFree(c, es) {
      OverlapFreeSpares(c, es);
    }
  }

  /** Without the hypothesis both safety properties fail, with no fault and every replica answering: a live version
      ends up with a chunk that is stored nowhere and counted nowhere. */
  lemma {:induction false} OverlapLosesLiveData(c: Config, d: NodeId, body: Bytes)
    requires Small(c, d, body)
    ensures var run := OverlapRun(c.sha(body), d, body);
            && Exec(c, run).Some? && NoFaults(run)
            && Exec(c, run).value.meta.files["g" := Some("v3")] == Exec(c, run).value.meta.files
            && Vanished(c, run, "v3", c.sha(body))
            && !Counted(Exec(c, run).value.meta)
            && !OverlapFree(c, run)
  {
    var h, run := c.sha(body), OverlapRun(c.sha(body), d, body);
    ReachesUpToDelete(c, d, body);
    ReachesLost(c, UpToDelete(h, d, body), d, body);
    NoFaultNoReapUpToDelete(h, d, body);
    NothingTakenFromStart(c, run);
    var s := Exec(c, run).value;
    ReferencedSomewhere(s.meta.versions, h);
    assert h in s.meta.versions["v3"].chunks;
    assert Refcount(s.meta.refcounts, h) == 0;
    VanishedMeansUnspared(c, run, "v3", h);
  }

  // ---------- exact counts do not suffice ----------

  lemma ReachesRecounted(c: Config, es: seq<Event>, d: NodeId, body: Bytes)
    requires Small(c, d, body) && Exec(c, es) == Some(Deleted(c, d, body))
    ensures var counted := Lost(c, d, body).meta.(refcounts := map[c.sha(body) := 1]);
            Exec(c, es + [ReapHead(2)] + [PutDone(3), Commit(3, "g", "v3")]) == Some(Lost(c, d, body).(meta := counted))
  {
    var h, s, after := c.sha(body), Deleted(c, d, body), Lost(c, d, body);
    var reaped := s.(meta := s.meta.(refcounts := map[]), tasks := map[3 := Uploading(body, 0, {}, {d})]);
    assert s.meta.refcounts - {h} == map[] && [h][1..] == [] && s.tasks - {2} == reaped.tasks;
    Then(c, es, s, ReapHead(2), reaped);
    AfterCommitOne(c, es + [ReapHead(2)], reaped, 3, {d}, body, "g", "v3");
    assert s.meta.files["g" := Some("v3")] == after.meta.files;
    assert s.meta.versions["v3" := Version("g", |body|, [h])] == after.meta.versions;
    assert s.fileIds + {"g"} == {"f", "g"} && s.versionIds + {"v3"} == {"v1", "v2", "v3"};
    assert reaped.tasks - {3} == map[];
  }

  lemma {:induction false} NoReapIsDue(c: Config, es: seq<Event>, more: seq<Event>)
    requires c.size > 0 && EveryReapIsStillDue(c, es)
    requires forall e :: e in more ==> !e.ReapHead?
    ensures EveryReapIsStillDue(c, es + more)
  {
    if more == [] {
      assert es + more == es;
    } else {
      NoReapIsDue(c, es, more[..|more| - 1]);
      assert (es + more)[..|es + more| - 1] == es + more[..|more| - 1];
      assert (es + more)[|es + more| - 1] in more;
    }
  }

  lemma ReorderedReapIsDue(c: Config, d: NodeId, body: Bytes)
    requires Small(c, d, body)
    ensures EveryReapIsStillDue(c, ReorderedRun(c.sha(body), d, body))
  {
    var deleted := UpToDelete(c.sha(body), d, body);
    ReachesUpToDelete(c, d, body);
    NoFaultNoReapUpToDelete(c.sha(body), d, body);
    NoReapIsDue(c, [], deleted);
    assert [] + deleted == deleted && (deleted + [ReapHead(2)])[..|deleted|] == deleted;
    NoReapIsDue(c, deleted + [ReapHead(2)], [PutDone(3), Commit(3, "g", "v3")]);
  }

  /** In this run every reap is due, the counts are exact throughout, no fault occurs, every replica answers, and
      still the live version's only chunk is stored nowhere. */
  lemma {:induction false} ExactCountsDoNotSuffice(c: Config, d: NodeId, body: Bytes)
    requires Small(c, d, body)
    ensures var run := ReorderedRun(c.sha(body), d, body);
            && Exec(c, run).Some? && NoFaults(run)
            && AlwaysCounted(c, run)
            && Vanished(c, run, "v3", c.sha(body))
            && !EveryDeleteSpares(c, run) && !EveryStepSparesLive(c, run)
  {
    var run := ReorderedRun(c.sha(body), d, body);
    ReachesUpToDelete(c, d, body);
    ReachesRecounted(c, UpToDelete(c.sha(body), d, body), d, body);
    ReorderedReapIsDue(c, d, body);
    AlwaysCountedIff(c, run);
    NoFaultNoReapUpToDelete(c.sha(body), d, body);
    NothingTakenFromStart(c, run);
    assert c.sha(body) in Exec(c, run).value.meta.versions["v3"].chunks;
    VanishedMeansUnspared(c, run, "v3", c.sha(body));
  }
}
