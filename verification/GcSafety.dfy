/** Reclamation is safe: when no sweep overlaps an upload of the chunks it lists, live data keeps its replicas. */
module GcSafety {
  import opened Types
  import opened Seqs
  import opened ChunkStores
  import opened Metadata
  import opened Replication
  import opened StoreSystem
  import opened Consistency
  import opened Reliance
  import opened Holding

  // ---------- the hypothesis ----------

  /** No upload in progress carries a chunk that some sweep has listed and not yet reaped. */
  ghost predicate NoOverlap(c: Config, s: State)
    requires c.size > 0
  {
    forall t, u, h :: t in s.tasks && s.tasks[t].Sweep? && h in s.tasks[t].queue && IsUpload(s, u) ==>
      h !in Hashes(c, s.tasks[u].body)
  }

  /** No overlap in any state the run passes through before its last event. */
  ghost predicate OverlapFree(c: Config, es: seq<Event>)
    requires c.size > 0
  {
    es == [] ||
    (OverlapFree(c, es[..|es| - 1]) && (Exec(c, es[..|es| - 1]).Some? ==> NoOverlap(c, Exec(c, es[..|es| - 1]).value)))
  }

  // ---------- the tables ----------

  /** What a sweep still has to delete is unreferenced. */
  ghost predicate QueuesUnreferenced(s: State) {
    forall t, h :: t in s.tasks && s.tasks[t].Sweep? && h in s.tasks[t].queue ==> h !in AllRefs(s.meta.versions)
  }

  ghost predicate GcInv(s: State) {
    Counted(s.meta) && QueuesUnreferenced(s)
  }

  lemma ReapKeepsInv(c: Config, s: State, e: Event)
    requires c.Valid() && GcInv(s) && Enabled(c, s, e) && e.ReapHead?
    ensures GcInv(Apply(c, s, e))
  {
    var after := Apply(c, s, e);
    var queue := s.tasks[e.t].queue;
    assert queue[0] in queue;
    ReapKeepsCountsIff(s.meta, queue[0]);
    forall t, h | t in after.tasks && after.tasks[t].Sweep? && h in after.tasks[t].queue
      ensures h !in AllRefs(after.meta.versions)
    {
      assert t in s.tasks && s.tasks[t].Sweep? && h in s.tasks[t].queue;
    }
  }

  lemma StartSweepKeepsInv(c: Config, s: State, e: Event)
    requires c.Valid() && GcInv(s) && Enabled(c, s, e) && e.StartSweep?
    ensures GcInv(Apply(c, s, e))
  {
    var after := Apply(c, s, e);
    OrphansAreUnreferenced(s.meta);
    forall t, h | t in after.tasks && after.tasks[t].Sweep? && h in after.tasks[t].queue
      ensures h !in AllRefs(after.meta.versions)
    {
      if t == e.t {
        assert h in Elems(e.order);
      }
    }
  }

  lemma CommitKeepsCounted(c: Config, s: State, t: TaskId, f: FileId, v: VersionId)
    requires c.Valid() && Consistent(s) && Enabled(c, s, Commit(t, f, v)) && Counted(s.meta)
    ensures Counted(Committed(c, s.meta, s.tasks[t], f, v))
  {
    CommitEffect(c, s, t, f, v);
    var u := s.tasks[t];
    var created := if u.target.None? then CreateFile(s.meta, f) else s.meta;
    CommitKeepsCounts(created, f, v, Hashes(c, u.body), |u.body|);
    if u.prev.Some? {
      DeleteKeepsCounts(CommitVersion(created, f, v, Hashes(c, u.body), |u.body|), u.prev.value);
    }
  }

  /** A chunk referenced after a commit was referenced before it, or is one the upload has put. */
  lemma CommitReferences(c: Config, s: State, t: TaskId, f: FileId, v: VersionId, h: Hash)
    requires c.Valid() && Consistent(s) && Enabled(c, s, Commit(t, f, v))
    requires h in AllRefs(Committed(c, s.meta, s.tasks[t], f, v).versions)
    ensures h in AllRefs(s.meta.versions) || h in Hashes(c, s.tasks[t].body)
  {
    CommitEffect(c, s, t, f, v);
    var u := s.tasks[t];
    var version := Version(f, |u.body|, Hashes(c, u.body));
    var grown := s.meta.versions[v := version];
    AllRefsWith(s.meta.versions, v, version);
    if u.prev.Some? && u.prev.value in grown {
      AllRefsWithout(grown, u.prev.value);
      assert grown - {u.prev.value} == Committed(c, s.meta, u, f, v).versions;
    } else {
      assert grown == Committed(c, s.meta, u, f, v).versions;
    }
  }

  /** The hypothesis at work: a commit references nothing that a sweep has listed. */
  lemma CommitKeepsInv(c: Config, s: State, e: Event)
    requires c.Valid() && Consistent(s) && GcInv(s) && NoOverlap(c, s) && Enabled(c, s, e) && e.Commit?
    ensures GcInv(Apply(c, s, e))
  {
    var after := Apply(c, s, e);
    CommitKeepsCounted(c, s, e.t, e.f, e.v);
    forall t, h | t in after.tasks && after.tasks[t].Sweep? && h in after.tasks[t].queue
      ensures h !in AllRefs(after.meta.versions)
    {
      assert t in s.tasks && IsUpload(s, e.t) && h !in Hashes(c, s.tasks[e.t].body);
      if h in AllRefs(after.meta.versions) {
        CommitReferences(c, s, e.t, e.f, e.v, h);
      }
    }
  }

  lemma OtherStepKeepsInv(c: Config, s: State, e: Event)
    requires c.Valid() && GcInv(s) && Enabled(c, s, e)
    requires !e.Commit? && !e.StartSweep? && !e.ReapHead?
    ensures GcInv(Apply(c, s, e))
  {
    var after := Apply(c, s, e);
    assert after.meta == s.meta;
    forall t, h | t in after.tasks && after.tasks[t].Sweep? && h in after.tasks[t].queue
      ensures h !in AllRefs(after.meta.versions)
    {
      assert t in s.tasks && s.tasks[t].Sweep? && s.tasks[t].queue == after.tasks[t].queue;
    }
  }

  lemma StepKeepsInv(c: Config, s: State, e: Event)
    requires c.Valid() && Consistent(s) && GcInv(s) && NoOverlap(c, s) && Enabled(c, s, e)
    ensures GcInv(Apply(c, s, e))
  {
    match e
    case Commit(_, _, _) => CommitKeepsInv(c, s, e);
    case StartSweep(_, _) => StartSweepKeepsInv(c, s, e);
    case ReapHead(_) => ReapKeepsInv(c, s, e);
    case _ => OtherStepKeepsInv(c, s, e);
  }

  lemma {:induction false} RunsKeepInv(c: Config, es: seq<Event>)
    requires c.Valid() && Exec(c, es).Some? && OverlapFree(c, es)
    ensures GcInv(Exec(c, es).value)
  {
    if es == [] {
    } else {
      var before := es[..|es| - 1];
      RunsKeepInv(c, before);
      RunsAreConsistent(c, before);
      StepKeepsInv(c, Exec(c, before).value, es[|es| - 1]);
    }
  }

  // ---------- the copies ----------

  /** Without overlap nobody relies on what a sweep deletes. */
  lemma NoOverlapSpares(c: Config, s: State, b: Book, e: Event)
    requires c.Valid() && GcInv(s) && NoOverlap(c, s) && Grounded(c, s, b)
    ensures DeleteSpares(c, s, b, e)
  {
    if e.ReplicaDelete? && e.arrived && Enabled(c, s, e) {
      var head := s.tasks[e.t].queue[0];
      assert head in s.tasks[e.t].queue;
      forall r | r in b.relied ensures r.hash != head {
        assert RealHolder(c, s, r);
        if r.holder.ByVersion? {
          ReferencedSomewhere(s.meta.versions, r.hash);
        }
      }
    }
  }

  lemma {:induction false} OverlapFreeSpares(c: Config, es: seq<Event>)
    requires c.Valid() && Exec(c, es).Some? && OverlapFree(c, es)
    ensures EveryDeleteSpares(c, es)
  {
    if es == [] {
    } else {
      var before := es[..|es| - 1];
      OverlapFreeSpares(c, before);
      RunsKeepInv(c, before);
      VersionsAreBacked(c, before);
      NoOverlapSpares(c, Exec(c, before).value, BookOf(c, before), es[|es| - 1]);
    }
  }

  /** In every overlap-free run, every acknowledged copy behind a live version or an upload in progress is sound,
      unless a fault took it. */
  lemma {:induction false} RunsKeepCopies(c: Config, es: seq<Event>)
    requires c.Valid() && Exec(c, es).Some? && OverlapFree(c, es)
    ensures Kept(c, Exec(c, es).value, BookOf(c, es))
  {
    OverlapFreeSpares(c, es);
    AlwaysKeptIff(c, es);
  }

  // ---------- what the invariants give ----------

  /** In every overlap-free run, each refcount is the chunk's multiplicity over all live manifests, none is negative,
      and they add up to the total length of the live manifests. */
  lemma RefcountsAreExact(c: Config, es: seq<Event>, s: State)
    requires c.Valid() && Exec(c, es) == Some(s) && OverlapFree(c, es)
    ensures Counted(s.meta)
    ensures forall h :: h in s.meta.refcounts ==> s.meta.refcounts[h] >= 0
    ensures Total(s.meta.refcounts) == TotalLength(s.meta.versions)
  {
    RunsKeepInv(c, es);
    CountsAddUp(s.meta);
  }

  /** In every overlap-free run, each chunk of each live version was acknowledged by at least w nodes of its
      preference list, and each of them has a sound copy still, unless a fault took it since. */
  lemma {:induction false} LiveDataIsNeverReclaimed(c: Config, es: seq<Event>, s: State, v: VersionId, h: Hash)
    requires c.Valid() && Exec(c, es) == Some(s) && OverlapFree(c, es)
    requires v in s.meta.versions && h in s.meta.versions[v].chunks
    ensures |Relying(BookOf(c, es), ByVersion(v), h)| >= c.w
    ensures forall d :: d in Relying(BookOf(c, es), ByVersion(v), h) ==>
              d in c.lists(h) && (SoundCopy(c, s, d, h) || Trust(ByVersion(v), d, h) in BookOf(c, es).taken)
  {
    var b := BookOf(c, es);
    RunsKeepCopies(c, es);
    VersionsAreBacked(c, es);
    assert VersionBacked(c, b, v, s.meta.versions[v]);
    forall d | d in Relying(b, ByVersion(v), h) ensures Trust(ByVersion(v), d, h) in b.relied {
      RelyingMembers(b, ByVersion(v), h, d);
    }
  }

  /** The nodes that acknowledged the chunk to the version and are faulty, or lost the copy to a fault since. */
  function Failing(b: Book, v: VersionId, h: Hash, faulty: set<NodeId>): set<NodeId> {
    set d | d in Relying(b, ByVersion(v), h) && (d in faulty || Trust(ByVersion(v), d, h) in b.taken)
  }

  /** While fewer than w of them fail, some node of the list that is not faulty has a sound copy. */
  lemma {:induction false} GoodCopyExists(c: Config, es: seq<Event>, s: State, v: VersionId, h: Hash,
                                          faulty: set<NodeId>)
    returns (d: NodeId)
    requires c.Valid() && Exec(c, es) == Some(s) && OverlapFree(c, es)
    requires v in s.meta.versions && h in s.meta.versions[v].chunks
    requires |Failing(BookOf(c, es), v, h, faulty)| < c.w
    ensures d in c.lists(h) && d !in faulty && SoundCopy(c, s, d, h)
  {
    LiveDataIsNeverReclaimed(c, es, s, v, h);
    d := OneOutside(Relying(BookOf(c, es), ByVersion(v), h), Failing(BookOf(c, es), v, h, faulty));
  }

  /** While fewer than w of the nodes that acknowledged a live chunk answer dishonestly or lost it to a fault, reading
      it finds bytes that answer to its name. */
  lemma {:induction false} LiveChunkIsReadable(c: Config, es: seq<Event>, s: State, v: VersionId, h: Hash,
                                               answer: NodeId -> Answer, faulty: set<NodeId>, r: Read)
    requires c.Valid() && Exec(c, es) == Some(s) && OverlapFree(c, es)
    requires v in s.meta.versions && h in s.meta.versions[v].chunks
    requires AnswersFrom(s.disks, c.lists(h), h, c.sha, answer, faulty)
    requires |Failing(BookOf(c, es), v, h, faulty)| < c.w
    requires IsRead(c.lists(h), h, answer, c.sha, r)
    ensures r.Found? && c.sha(r.buf) == h
  {
    var d := GoodCopyExists(c, es, s, v, h, faulty);
    assert ValidName(c.sha(s.disks[d][h]));
    assert Good(answer(d), h, c.sha);
    FoundIffSomeGood(c.lists(h), h, answer, c.sha, r);
  }

  // ---------- one copy over a stretch of a run ----------

  /** A live version references h, or an upload in progress carries it. */
  ghost predicate Needed(c: Config, s: State, h: Hash)
    requires c.size > 0
  {
    h in AllRefs(s.meta.versions) || exists t :: IsUpload(s, t) && h in Hashes(c, s.tasks[t].body)
  }

  ghost predicate NeededSince(c: Config, es: seq<Event>, k: nat, h: Hash)
    requires c.size > 0
  {
    forall j :: k <= j <= |es| && Exec(c, es[..j]).Some? ==> Needed(c, Exec(c, es[..j]).value, h)
  }

  /** No fault strikes the copy of h at d from event k on. */
  predicate UnharmedSince(es: seq<Event>, k: nat, d: NodeId, h: Hash) {
    forall j :: k <= j < |es| ==> !(es[j].Fault? && es[j].d == d && es[j].h == h)
  }

  lemma StepKeepsCopy(c: Config, s: State, e: Event, d: NodeId, h: Hash)
    requires c.Valid() && Enabled(c, s, e) && SoundCopy(c, s, d, h)
    requires QueuesUnreferenced(s) && NoOverlap(c, s) && Needed(c, s, h)
    requires !(e.Fault? && e.d == d && e.h == h)
    ensures SoundCopy(c, Apply(c, s, e), d, h)
  {
    if e.ReplicaDelete? {
      assert s.tasks[e.t].queue[0] in s.tasks[e.t].queue;
    } else if e.ReplicaPut? {
      PutTouchesOneCopy(c, s, e);
    }
  }

  /** In an overlap-free run a sound copy of a chunk stays where it is for as long as some live version references the
      chunk or some upload in progress carries it, and no fault strikes that very copy. */
  lemma {:induction false} SoundCopyStays(c: Config, es: seq<Event>, k: nat, d: NodeId, h: Hash)
    requires c.Valid() && Exec(c, es).Some? && OverlapFree(c, es) && k <= |es|
    requires Exec(c, es[..k]).Some? && SoundCopy(c, Exec(c, es[..k]).value, d, h)
    requires NeededSince(c, es, k, h) && UnharmedSince(es, k, d, h)
    ensures SoundCopy(c, Exec(c, es).value, d, h)
  {
    if k == |es| {
      assert es[..k] == es;
    } else {
      var before := es[..|es| - 1];
      assert forall j :: k <= j <= |before| ==> before[..j] == es[..j];
      SoundCopyStays(c, before, k, d, h);
      assert before[..|before|] == before;
      RunsKeepInv(c, before);
      StepKeepsCopy(c, Exec(c, before).value, es[|es| - 1], d, h);
    }
  }
}
