/** Reclamation is complete: with every replica reachable, a sweep that overlaps no upload leaves exactly the live
    data. */
module Cleanup {
  import opened Types
  import opened Seqs
  import opened ChunkStores
  import opened Metadata
  import opened Replication
  import opened StoreSystem
  import opened Consistency
  import opened Reliance
  import opened GcSafety

  // ---------- runs in which every replica is reachable ----------

  /** There are enough replicas for a quorum. */
  ghost predicate Ample(c: Config) {
    c.Valid() && forall h :: |c.lists(h)| >= c.w
  }

  /** Every PUT is stored and acknowledged, every DELETE arrives, nothing is damaged, no upload or sweep dies. */
  predicate CleanStep(s: State, e: Event) {
    match e
    case ReplicaPut(_, _, stored, acked) => stored && acked
    case ReplicaDelete(_, _, arrived) => arrived
    case Fault(_, _, _) => false
    case Abort(t) => IsDownload(s, t)
    case _ => true
  }

  ghost predicate CleanRun(c: Config, es: seq<Event>)
    requires c.size > 0
  {
    es == [] ||
    (CleanRun(c, es[..|es| - 1])
        && (Exec(c, es[..|es| - 1]).Some? ==> CleanStep(Exec(c, es[..|es| - 1]).value, es[|es| - 1])))
  }

  predicate Stored(disks: Cluster, d: NodeId, h: Hash) {
    d in disks && h in disks[d]
  }

  ghost predicate Carried(c: Config, tasks: map<TaskId, Task>, h: Hash)
    requires c.size > 0
  {
    exists u :: u in tasks && tasks[u].Upload? && h in Hashes(c, tasks[u].body)
  }

  /** No stray files: a stored chunk is where its list says, and has a row or an upload on its way to one. */
  ghost predicate NoStrays(c: Config, s: State)
    requires c.size > 0
  {
    forall d, h :: Stored(s.disks, d, h) ==> d in c.lists(h) && (h in s.meta.refcounts || Carried(c, s.tasks, h))
  }

  ghost predicate LiveEverywhere(c: Config, s: State) {
    forall h, d :: h in AllRefs(s.meta.versions) && d in c.lists(h) ==> Stored(s.disks, d, h)
  }

  /** Every replica holds the chunks already put; those that have answered hold the current one. */
  ghost predicate UploadEverywhere(c: Config, disks: Cluster, u: Task)
    requires c.size > 0 && u.Upload?
  {
    var hashes := Hashes(c, u.body);
    && u.next <= |hashes|
    && (forall k, d :: 0 <= k < u.next && d in c.lists(hashes[k]) ==> Stored(disks, d, hashes[k]))
    && (u.next < |hashes| ==>
          && u.acks == Elems(c.lists(hashes[u.next])) - u.waiting
          && (forall d :: d in u.acks ==> Stored(disks, d, hashes[u.next])))
  }

  /** The replicas a sweep has dealt with no longer hold its head. */
  ghost predicate SweepDeleted(c: Config, disks: Cluster, w: Task)
    requires w.Sweep?
  {
    w.queue != [] && forall d :: d in c.lists(w.queue[0]) && d !in w.waiting ==> !Stored(disks, d, w.queue[0])
  }

  ghost predicate TaskClean(c: Config, disks: Cluster, task: Task)
    requires c.size > 0
  {
    (task.Upload? ==> UploadEverywhere(c, disks, task)) && (task.Sweep? ==> SweepDeleted(c, disks, task))
  }

  ghost predicate TasksClean(c: Config, s: State)
    requires c.size > 0
  {
    forall t :: t in s.tasks ==> TaskClean(c, s.disks, s.tasks[t])
  }

  ghost predicate CleanInv(c: Config, s: State)
    requires c.size > 0
  {
    s.disks.Keys == c.nodes && NoStrays(c, s) && LiveEverywhere(c, s) && TasksClean(c, s)
  }

  // ---------- what a step leaves alone ----------

  lemma CarriedStays(c: Config, s: State, after: State, h: Hash)
    requires c.size > 0 && Carried(c, s.tasks, h)
    requires forall t :: IsUpload(s, t) ==> IsUpload(after, t) && after.tasks[t].body == s.tasks[t].body
    ensures Carried(c, after.tasks, h)
  {
    var u :| u in s.tasks && s.tasks[u].Upload? && h in Hashes(c, s.tasks[u].body);
    assert IsUpload(s, u);
  }

  /** A step that stores nothing, keeps every upload and reaps only chunks that are stored nowhere leaves no strays.
      */
  lemma NoNewStrays(c: Config, s: State, after: State)
    requires c.size > 0 && NoStrays(c, s)
    requires forall t :: IsUpload(s, t) ==> IsUpload(after, t) && after.tasks[t].body == s.tasks[t].body
    requires forall d, h :: Stored(after.disks, d, h) ==>
               Stored(s.disks, d, h) && (h in s.meta.refcounts ==> h in after.meta.refcounts)
    ensures NoStrays(c, after)
  {
    forall d, h | Stored(after.disks, d, h)
      ensures d in c.lists(h) && (h in after.meta.refcounts || Carried(c, after.tasks, h))
    {
      if h !in s.meta.refcounts {
        CarriedStays(c, s, after, h);
      }
    }
  }

  /** A task is undisturbed by disks that agree about the chunks it is concerned with. */
  lemma StaysClean(c: Config, disks: Cluster, after: Cluster, task: Task)
    requires c.size > 0 && TaskClean(c, disks, task)
    requires task.Upload? ==> forall d, h :: h in Hashes(c, task.body) && Stored(disks, d, h) ==> Stored(after, d, h)
    requires task.Sweep? ==> forall d, h :: h in task.queue && Stored(after, d, h) ==> Stored(disks, d, h)
    ensures TaskClean(c, after, task)
  {
    if task.Upload? {
      var hashes := Hashes(c, task.body);
      assert forall k :: 0 <= k < |hashes| ==> hashes[k] in hashes;
    } else if task.Sweep? {
      assert task.queue[0] in task.queue;
    }
  }

  // ---------- steps ----------

  lemma PutEffect(c: Config, s: State, e: Event)
    requires c.Valid() && Enabled(c, s, e) && e.ReplicaPut? && CleanStep(s, e)
    ensures var after, u := Apply(c, s, e), s.tasks[e.t];
            && after.meta == s.meta && after.disks.Keys == s.disks.Keys
            && after.tasks == s.tasks[e.t := u.(waiting := u.waiting - {e.d}, acks := u.acks + {e.d})]
            && forall d, g :: Stored(after.disks, d, g) <==>
                 Stored(s.disks, d, g) || (d == e.d && g == Hashes(c, u.body)[u.next])
  {
    var u := s.tasks[e.t];
    assert c.sha(Piece(c, u.body, u.next)) == Hashes(c, u.body)[u.next];
    assert ValidName(c.sha(Piece(c, u.body, u.next)));
  }

  lemma PutTask(c: Config, s: State, after: State, t: TaskId, d: NodeId)
    requires c.size > 0 && IsUpload(s, t) && UploadEverywhere(c, s.disks, s.tasks[t])
    requires s.tasks[t].next < |Hashes(c, s.tasks[t].body)| && d in s.tasks[t].waiting
    requires d in c.lists(Hashes(c, s.tasks[t].body)[s.tasks[t].next])
    requires forall e, g :: Stored(s.disks, e, g) ==> Stored(after.disks, e, g)
    requires Stored(after.disks, d, Hashes(c, s.tasks[t].body)[s.tasks[t].next])
    ensures var u := s.tasks[t];
            UploadEverywhere(c, after.disks, u.(waiting := u.waiting - {d}, acks := u.acks + {d}))
  {
  }

  lemma PutStrays(c: Config, s: State, e: Event)
    requires c.Valid() && CleanInv(c, s) && Enabled(c, s, e) && e.ReplicaPut? && CleanStep(s, e)
    requires e.d in c.lists(Hashes(c, s.tasks[e.t].body)[s.tasks[e.t].next])
    ensures NoStrays(c, Apply(c, s, e))
  {
    var after, u := Apply(c, s, e), s.tasks[e.t];
    PutEffect(c, s, e);
    forall d, g | Stored(after.disks, d, g)
      ensures d in c.lists(g) && (g in after.meta.refcounts || Carried(c, after.tasks, g))
    {
      if !Stored(s.disks, d, g) {
        assert g == Hashes(c, u.body)[u.next] && e.t in after.tasks;
      } else if g !in s.meta.refcounts {
        CarriedStays(c, s, after, g);
      }
    }
  }

  lemma CleanPut(c: Config, s: State, e: Event)
    requires Ample(c) && CleanInv(c, s) && OnCourse(c, s) && NoOverlap(c, s) && Enabled(c, s, e)
    requires e.ReplicaPut? && CleanStep(s, e)
    ensures CleanInv(c, Apply(c, s, e))
  {
    var after, u := Apply(c, s, e), s.tasks[e.t];
    var h := Hashes(c, u.body)[u.next];
    assert IsUpload(s, e.t) && TaskClean(c, s.disks, u);
    assert h in Hashes(c, u.body) && e.d in c.Targets(Hashes(c, u.body), u.next);
    PutEffect(c, s, e);
    PutStrays(c, s, e);
    PutTask(c, s, after, e.t, e.d);
    forall t | t in after.tasks && t != e.t ensures TaskClean(c, after.disks, after.tasks[t]) {
      assert TaskClean(c, s.disks, s.tasks[t]);
      assert s.tasks[t].Sweep? ==> h !in s.tasks[t].queue;
      StaysClean(c, s.disks, after.disks, s.tasks[t]);
    }
  }

  lemma DeleteEffect(c: Config, s: State, e: Event)
    requires c.Valid() && Enabled(c, s, e) && e.ReplicaDelete? && CleanStep(s, e)
    ensures var after, w := Apply(c, s, e), s.tasks[e.t];
            && after.meta == s.meta && after.disks.Keys == s.disks.Keys
            && after.tasks == s.tasks[e.t := Sweep(w.queue, w.waiting - {e.d})]
            && forall d, g :: Stored(after.disks, d, g) <==> Stored(s.disks, d, g) && !(d == e.d && g == w.queue[0])
  {
  }

  lemma CleanDelete(c: Config, s: State, e: Event)
    requires Ample(c) && CleanInv(c, s) && GcInv(s) && NoOverlap(c, s) && Enabled(c, s, e)
    requires e.ReplicaDelete? && CleanStep(s, e)
    ensures CleanInv(c, Apply(c, s, e))
  {
    var after, w := Apply(c, s, e), s.tasks[e.t];
    var head := w.queue[0];
    assert head in w.queue && head !in AllRefs(s.meta.versions) && TaskClean(c, s.disks, w);
    DeleteEffect(c, s, e);
    NoNewStrays(c, s, after);
    forall t | t in after.tasks && t != e.t ensures TaskClean(c, after.disks, after.tasks[t]) {
      assert TaskClean(c, s.disks, s.tasks[t]);
      assert IsUpload(s, t) ==> head !in Hashes(c, s.tasks[t].body);
      StaysClean(c, s.disks, after.disks, s.tasks[t]);
    }
  }

  lemma CleanReap(c: Config, s: State, e: Event)
    requires Ample(c) && CleanInv(c, s) && Enabled(c, s, e) && e.ReapHead?
    ensures CleanInv(c, Apply(c, s, e))
  {
    var after, w := Apply(c, s, e), s.tasks[e.t];
    assert TaskClean(c, s.disks, w);
    assert forall d :: !Stored(s.disks, d, w.queue[0]);
    NoNewStrays(c, s, after);
    forall t | t in after.tasks && t != e.t ensures TaskClean(c, after.disks, after.tasks[t]) {
      assert TaskClean(c, s.disks, s.tasks[t]);
    }
  }

  lemma CommitRows(c: Config, s: State, t: TaskId, f: FileId, v: VersionId)
    requires c.Valid() && Consistent(s) && Enabled(c, s, Commit(t, f, v))
    ensures Committed(c, s.meta, s.tasks[t], f, v).refcounts.Keys
         == s.meta.refcounts.Keys + set h | h in Hashes(c, s.tasks[t].body)
  {
    var u := s.tasks[t];
    var created := if u.target.None? then CreateFile(s.meta, f) else s.meta;
    var committed := CommitVersion(created, f, v, Hashes(c, u.body), |u.body|);
    assert Remembers(s, u);
    BumpCounts(s.meta.refcounts, Hashes(c, u.body));
    if u.prev.Some? && u.prev.value in committed.versions {
      DropCounts(committed.refcounts, committed.versions[u.prev.value].chunks);
    }
  }

  /** A commit moves its chunks from the upload to rows. */
  lemma CommitStrays(c: Config, s: State, e: Event)
    requires c.Valid() && Consistent(s) && NoStrays(c, s) && Enabled(c, s, e) && e.Commit?
    ensures NoStrays(c, Apply(c, s, e))
  {
    var after := Apply(c, s, e);
    CommitRows(c, s, e.t, e.f, e.v);
    forall d, g | Stored(after.disks, d, g)
      ensures d in c.lists(g) && (g in after.meta.refcounts || Carried(c, after.tasks, g))
    {
      if g !in after.meta.refcounts {
        var u :| u in s.tasks && s.tasks[u].Upload? && g in Hashes(c, s.tasks[u].body);
        assert u in after.tasks && after.tasks[u] == s.tasks[u];
      }
    }
  }

  lemma CommitLive(c: Config, s: State, e: Event)
    requires c.Valid() && Consistent(s) && LiveEverywhere(c, s) && TasksClean(c, s) && Enabled(c, s, e) && e.Commit?
    ensures LiveEverywhere(c, Apply(c, s, e))
  {
    var after, u := Apply(c, s, e), s.tasks[e.t];
    assert TaskClean(c, s.disks, u);
    forall h, d | h in AllRefs(after.meta.versions) && d in c.lists(h) ensures Stored(after.disks, d, h) {
      CommitReferences(c, s, e.t, e.f, e.v, h);
      if h !in AllRefs(s.meta.versions) {
        var k :| 0 <= k < |Hashes(c, u.body)| && Hashes(c, u.body)[k] == h;
        assert k < u.next;
      }
    }
  }

  lemma CleanCommit(c: Config, s: State, e: Event)
    requires Ample(c) && Consistent(s) && CleanInv(c, s) && Enabled(c, s, e) && e.Commit?
    ensures CleanInv(c, Apply(c, s, e))
  {
    CommitStrays(c, s, e);
    CommitLive(c, s, e);
    var after := Apply(c, s, e);
    forall t | t in after.tasks ensures TaskClean(c, after.disks, after.tasks[t]) {
      assert TaskClean(c, s.disks, s.tasks[t]);
    }
  }

  /** With every replica answering, the quorum is always reached. */
  lemma QuorumReached(c: Config, s: State, u: Task)
    requires Ample(c) && u.Upload? && u.next < |Hashes(c, u.body)| && u.waiting == {} && UploadEverywhere(c, s.disks, u)
    ensures |u.acks| >= c.w
    ensures UploadEverywhere(c, s.disks, Putting(c, u.target, u.prev, u.body, u.next + 1))
  {
    var hashes := Hashes(c, u.body);
    assert u.acks == Elems(c.lists(hashes[u.next]));
    NoDupCard(c.lists(hashes[u.next]));
  }

  lemma CleanPutDone(c: Config, s: State, e: Event)
    requires Ample(c) && CleanInv(c, s) && Enabled(c, s, e) && e.PutDone?
    ensures CleanInv(c, Apply(c, s, e))
  {
    var after, u := Apply(c, s, e), s.tasks[e.t];
    assert TaskClean(c, s.disks, u);
    QuorumReached(c, s, u);
    NoNewStrays(c, s, after);
    forall t | t in after.tasks && t != e.t ensures TaskClean(c, after.disks, after.tasks[t]) {
      assert TaskClean(c, s.disks, s.tasks[t]);
    }
  }

  lemma NewUploadClean(c: Config, disks: Cluster, target: Option<FileId>, prev: Option<VersionId>, body: Bytes)
    requires c.size > 0
    ensures UploadEverywhere(c, disks, Putting(c, target, prev, body, 0))
  {
  }

  /** Starting or finishing anything but a commit touches no table and no disk. */
  lemma CleanOther(c: Config, s: State, e: Event)
    requires Ample(c) && CleanInv(c, s) && Enabled(c, s, e) && CleanStep(s, e)
    requires e.StartPost? || e.StartPut? || e.StartDownload? || e.ReadReply? || e.FinishDownload? || e.Abort?
        || e.StartSweep?
    ensures CleanInv(c, Apply(c, s, e))
  {
    var after := Apply(c, s, e);
    assert after.disks == s.disks && after.meta == s.meta;
    NoNewStrays(c, s, after);
    forall t | t in after.tasks ensures TaskClean(c, after.disks, after.tasks[t]) {
      if t in s.tasks {
        assert TaskClean(c, s.disks, s.tasks[t]);
      } else if e.StartPost? {
        NewUploadClean(c, s.disks, None, None, e.body);
      } else if e.StartPut? {
        NewUploadClean(c, s.disks, Some(e.f), s.meta.files[e.f], e.body);
      }
    }
  }

  lemma {:induction false} CleanRunsKeepInv(c: Config, es: seq<Event>)
    requires Ample(c) && Exec(c, es).Some? && OverlapFree(c, es) && CleanRun(c, es)
    ensures CleanInv(c, Exec(c, es).value)
  {
    if es == [] {
    } else {
      var before, e := es[..|es| - 1], es[|es| - 1];
      CleanRunsKeepInv(c, before);
      RunsAreConsistent(c, before);
      RunsKeepInv(c, before);
      VersionsAreBacked(c, before);
      var s := Exec(c, before).value;
      match e
      case ReplicaPut(_, _, _, _) => CleanPut(c, s, e);
      case ReplicaDelete(_, _, _) => CleanDelete(c, s, e);
      case ReapHead(_) => CleanReap(c, s, e);
      case Commit(_, _, _) => CleanCommit(c, s, e);
      case PutDone(_) => CleanPutDone(c, s, e);
      case _ => CleanOther(c, s, e);
    }
  }

  // ---------- after a sweep ----------

  predicate NoUploads(s: State) {
    forall t :: t in s.tasks ==> !s.tasks[t].Upload?
  }

  /** No upload is in progress in any state from event k on. */
  ghost predicate QuietSince(c: Config, es: seq<Event>, k: nat)
    requires c.size > 0
  {
    forall j :: k <= j <= |es| && Exec(c, es[..j]).Some? ==> NoUploads(Exec(c, es[..j]).value)
  }

  /** Every orphan left is one that sweep t still has in its queue. */
  predicate Covers(s: State, t: TaskId) {
    forall h :: h in Orphans(s.meta) ==> t in s.tasks && s.tasks[t].Sweep? && h in s.tasks[t].queue
  }

  lemma StepKeepsCovers(c: Config, s: State, e: Event, t: TaskId)
    requires c.Valid() && Enabled(c, s, e) && CleanStep(s, e) && NoUploads(s) && Covers(s, t)
    ensures Covers(Apply(c, s, e), t)
  {
    var after := Apply(c, s, e);
    forall h | h in Orphans(after.meta) ensures t in after.tasks && after.tasks[t].Sweep? && h in after.tasks[t].queue {
      assert h in Orphans(s.meta);
    }
  }

  lemma StartedSweepCovers(c: Config, s: State, t: TaskId, order: seq<Hash>)
    requires c.Valid() && Enabled(c, s, StartSweep(t, order))
    ensures Covers(Apply(c, s, StartSweep(t, order)), t)
  {
    assert forall h :: h in Orphans(s.meta) ==> h in order;
  }

  lemma {:induction false} SweepCovers(c: Config, es: seq<Event>, k: nat, t: TaskId, order: seq<Hash>)
    requires c.Valid() && Exec(c, es).Some? && CleanRun(c, es)
    requires k < |es| && es[k] == StartSweep(t, order) && QuietSince(c, es, k)
    ensures Covers(Exec(c, es).value, t)
  {
    var before, e := es[..|es| - 1], es[|es| - 1];
    var s := Exec(c, before).value;
    if k == |es| - 1 {
      StartedSweepCovers(c, s, t, order);
    } else {
      assert forall j :: k <= j <= |before| ==> before[..j] == es[..j];
      assert before == es[..|es| - 1];
      SweepCovers(c, before, k, t, order);
      StepKeepsCovers(c, s, e, t);
    }
  }

  ghost predicate HoldsExactlyLive(c: Config, s: State) {
    forall d, h :: Stored(s.disks, d, h) <==> h in AllRefs(s.meta.versions) && d in c.lists(h)
  }

  lemma ExactWhenNothingIsPending(c: Config, s: State)
    requires c.size > 0 && NoStrays(c, s) && LiveEverywhere(c, s) && Counted(s.meta)
    requires NoUploads(s) && Orphans(s.meta) == {}
    ensures HoldsExactlyLive(c, s)
  {
    OrphansAreUnreferenced(s.meta);
    forall d, h | Stored(s.disks, d, h) ensures h in AllRefs(s.meta.versions) && d in c.lists(h) {
      assert h in s.meta.refcounts && h !in Orphans(s.meta);
    }
  }

  /** In a run with every replica reachable, once a sweep that overlapped no upload is over, each node stores exactly
      the chunks that some live version references and whose preference list contains the node. */
  lemma {:induction false} ExactAfterSweep(c: Config, es: seq<Event>, s: State, k: nat, t: TaskId, order: seq<Hash>)
    requires Ample(c) && Exec(c, es) == Some(s) && OverlapFree(c, es) && CleanRun(c, es)
    requires k < |es| && es[k] == StartSweep(t, order) && QuietSince(c, es, k)
    requires t !in s.tasks
    ensures HoldsExactlyLive(c, s)
  {
    assert es[..|es|] == es;
    SweepCovers(c, es, k, t, order);
    CleanRunsKeepInv(c, es);
    RunsKeepInv(c, es);
    ExactWhenNothingIsPending(c, s);
  }
}
