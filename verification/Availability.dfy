/** Downloads succeed: a read interleaved with anything replies with the bytes while its version lives and too few
    nodes fail. */
module Availability {
  import opened Types
  import opened ChunkStores
  import opened Metadata
  import opened Replication
  import opened StoreSystem
  import opened Refinement
  import opened Reliance
  import opened GcSafety

  // ---------- the hypotheses ----------

  /** A node that is not faulty suffers no fault and answers download t with what its disk holds at that moment; and
      the request is not abandoned. */
  ghost predicate Behaves(c: Config, s: State, e: Event, t: TaskId, faulty: set<NodeId>)
    requires c.size > 0
  {
    match e
    case Fault(d, _, _) => d in faulty
    case Abort(u) => u != t
    case FinishDownload(u) => u != t
    case ReadReply(u, i, answer) =>
      u == t && Enabled(c, s, e) && s.tasks[t].cells[i].k < |c.lists(s.tasks[t].hashes[i])| ==>
        var h := s.tasks[t].hashes[i];
        var d := c.lists(h)[s.tasks[t].cells[i].k];
        d !in faulty && d in s.disks ==> answer == HonestAnswer(s.disks[d], h, c.sha)
    case _ => true
  }

  ghost predicate BehavesSince(c: Config, es: seq<Event>, k: nat, t: TaskId, faulty: set<NodeId>)
    requires c.size > 0
  {
    forall j :: k <= j < |es| && Exec(c, es[..j]).Some? ==> Behaves(c, Exec(c, es[..j]).value, es[j], t, faulty)
  }

  /** Version v is live in every state from event k on. */
  ghost predicate LiveSince(c: Config, es: seq<Event>, k: nat, v: VersionId, version: Version)
    requires c.size > 0
  {
    forall j :: k <= j <= |es| && Exec(c, es[..j]).Some? ==>
      v in Exec(c, es[..j]).value.meta.versions && Exec(c, es[..j]).value.meta.versions[v] == version
  }

  // ---------- the invariant ----------

  /** A node that is not faulty holds the chunk and has not been asked yet. */
  ghost predicate StillAhead(c: Config, s: State, h: Hash, k: nat, faulty: set<NodeId>) {
    exists j :: k <= j < |c.lists(h)| && c.lists(h)[j] !in faulty && SoundCopy(c, s, c.lists(h)[j], h)
  }

  ghost predicate CellPromising(c: Config, s: State, h: Hash, cell: Cell, faulty: set<NodeId>) {
    cell.Got? || (cell.Trying? && StillAhead(c, s, h, cell.k, faulty))
  }

  ghost predicate Promising(c: Config, s: State, task: Task, hashes: seq<Hash>, faulty: set<NodeId>) {
    && task.Download? && task.hashes == hashes && |task.cells| == |hashes|
    && forall i :: 0 <= i < |hashes| ==> CellPromising(c, s, hashes[i], task.cells[i], faulty)
  }

  lemma StaysPromising(c: Config, s: State, after: State, task: Task, hashes: seq<Hash>, faulty: set<NodeId>)
    requires Promising(c, s, task, hashes, faulty)
    requires forall d, h :: h in hashes && d !in faulty && SoundCopy(c, s, d, h) ==> SoundCopy(c, after, d, h)
    ensures Promising(c, after, task, hashes, faulty)
  {
    forall i | 0 <= i < |hashes| ensures CellPromising(c, after, hashes[i], task.cells[i], faulty) {
      var h, cell := hashes[i], task.cells[i];
      assert CellPromising(c, s, h, cell, faulty);
      if cell.Trying? {
        var j :| cell.k <= j < |c.lists(h)| && c.lists(h)[j] !in faulty && SoundCopy(c, s, c.lists(h)[j], h);
        assert SoundCopy(c, after, c.lists(h)[j], h);
      }
    }
  }

  /** The next answer either brings the chunk or leaves the good node ahead. */
  lemma AnswerStaysPromising(c: Config, s: State, h: Hash, cell: Cell, answer: Answer, faulty: set<NodeId>)
    requires c.Valid() && cell.Trying? && StillAhead(c, s, h, cell.k, faulty)
    requires var d := c.lists(h)[cell.k];
             d !in faulty && d in s.disks ==> answer == HonestAnswer(s.disks[d], h, c.sha)
    ensures CellPromising(c, s, h, AfterAnswer(c, h, cell, answer), faulty)
  {
    var j :| cell.k <= j < |c.lists(h)| && c.lists(h)[j] !in faulty && SoundCopy(c, s, c.lists(h)[j], h);
    if j == cell.k {
      var d := c.lists(h)[j];
      assert ValidName(c.sha(s.disks[d][h]));
      assert Good(answer, h, c.sha);
    } else {
      assert cell.k + 1 <= j;
    }
  }

  lemma StartsPromising(c: Config, s: State, h: Hash, faulty: set<NodeId>, d: NodeId)
    requires d in c.lists(h) && d !in faulty && SoundCopy(c, s, d, h)
    ensures CellPromising(c, s, h, Settle(c.lists(h), 0, false), faulty)
  {
    var j :| 0 <= j < |c.lists(h)| && c.lists(h)[j] == d;
    assert SoundCopy(c, s, c.lists(h)[j], h);
  }

  // ---------- steps ----------

  lemma CopiesStay(c: Config, s: State, e: Event, t: TaskId, v: VersionId, faulty: set<NodeId>)
    requires c.Valid() && Enabled(c, s, e) && QueuesUnreferenced(s) && NoOverlap(c, s) && v in s.meta.versions
    requires Behaves(c, s, e, t, faulty)
    ensures forall d, h :: h in s.meta.versions[v].chunks && d !in faulty && SoundCopy(c, s, d, h) ==>
              SoundCopy(c, Apply(c, s, e), d, h)
  {
    forall d, h | h in s.meta.versions[v].chunks && d !in faulty && SoundCopy(c, s, d, h)
      ensures SoundCopy(c, Apply(c, s, e), d, h)
    {
      ReferencedSomewhere(s.meta.versions, h);
      StepKeepsCopy(c, s, e, d, h);
    }
  }

  lemma ReplyStaysPromising(c: Config, s: State, e: Event, hashes: seq<Hash>, faulty: set<NodeId>)
    requires c.Valid() && Enabled(c, s, e) && e.ReadReply? && Behaves(c, s, e, e.t, faulty)
    requires Promising(c, s, s.tasks[e.t], hashes, faulty)
    ensures Promising(c, s, Apply(c, s, e).tasks[e.t], hashes, faulty)
  {
    var task := s.tasks[e.t];
    assert CellPromising(c, s, hashes[e.i], task.cells[e.i], faulty);
    AnswerStaysPromising(c, s, hashes[e.i], task.cells[e.i], e.answer, faulty);
  }

  /** Only its own replies change a download that goes on. */
  lemma OthersLeaveDownload(c: Config, s: State, e: Event, t: TaskId, faulty: set<NodeId>)
    requires c.Valid() && Enabled(c, s, e) && IsDownload(s, t) && Behaves(c, s, e, t, faulty)
    requires !(e.ReadReply? && e.t == t)
    ensures t in Apply(c, s, e).tasks && Apply(c, s, e).tasks[t] == s.tasks[t]
  {
  }

  lemma StepStaysPromising(c: Config, s: State, e: Event, t: TaskId, v: VersionId, hashes: seq<Hash>,
                           faulty: set<NodeId>)
    requires c.Valid() && Enabled(c, s, e) && QueuesUnreferenced(s) && NoOverlap(c, s) && Behaves(c, s, e, t, faulty)
    requires v in s.meta.versions && s.meta.versions[v].chunks == hashes
    requires t in s.tasks && Promising(c, s, s.tasks[t], hashes, faulty)
    ensures t in Apply(c, s, e).tasks && Promising(c, Apply(c, s, e), Apply(c, s, e).tasks[t], hashes, faulty)
  {
    var after := Apply(c, s, e);
    CopiesStay(c, s, e, t, v, faulty);
    if e.ReadReply? && e.t == t {
      ReplyStaysPromising(c, s, e, hashes, faulty);
    } else {
      OthersLeaveDownload(c, s, e, t, faulty);
    }
    StaysPromising(c, s, after, after.tasks[t], hashes, faulty);
  }

  /** The download has just begun: each chunk has a good node somewhere in its list. */
  lemma BegunPromising(c: Config, es: seq<Event>, s: State, t: TaskId, f: FileId, v: VersionId, faulty: set<NodeId>)
    requires c.Valid() && Exec(c, es) == Some(s) && OverlapFree(c, es) && Enabled(c, s, StartDownload(t, f))
    requires f in s.meta.files && s.meta.files[f] == Some(v) && v in s.meta.versions
    requires forall h :: h in s.meta.versions[v].chunks ==> |Failing(BookOf(c, es), v, h, faulty)| < c.w
    ensures var after := Apply(c, s, StartDownload(t, f));
            t in after.tasks && Promising(c, after, after.tasks[t], s.meta.versions[v].chunks, faulty)
  {
    var hashes := s.meta.versions[v].chunks;
    var after := Apply(c, s, StartDownload(t, f));
    var cells := seq(|hashes|, i requires 0 <= i < |hashes| => Settle(c.lists(hashes[i]), 0, false));
    forall i | 0 <= i < |hashes| ensures CellPromising(c, s, hashes[i], cells[i], faulty) {
      var d := GoodCopyExists(c, es, s, v, hashes[i], faulty);
      StartsPromising(c, s, hashes[i], faulty, d);
    }
    StaysPromising(c, s, after, after.tasks[t], hashes, faulty);
  }

  lemma {:induction false} DownloadStaysPromising(c: Config, es: seq<Event>, k: nat, t: TaskId, f: FileId, v: VersionId,
                                                  version: Version, faulty: set<NodeId>)
    requires c.Valid() && Exec(c, es).Some? && OverlapFree(c, es)
    requires k < |es| && es[k] == StartDownload(t, f) && Exec(c, es[..k]).Some?
    requires f in Exec(c, es[..k]).value.meta.files && Exec(c, es[..k]).value.meta.files[f] == Some(v)
    requires LiveSince(c, es, k, v, version) && BehavesSince(c, es, k + 1, t, faulty)
    requires forall h :: h in version.chunks ==> |Failing(BookOf(c, es[..k]), v, h, faulty)| < c.w
    ensures var s := Exec(c, es).value;
            t in s.tasks && Promising(c, s, s.tasks[t], version.chunks, faulty)
  {
    var before, e := es[..|es| - 1], es[|es| - 1];
    assert forall j :: 0 <= j <= |before| ==> before[..j] == es[..j];
    assert before[..|before|] == before;
    if k == |es| - 1 {
      BegunPromising(c, before, Exec(c, before).value, t, f, v, faulty);
    } else {
      DownloadStaysPromising(c, before, k, t, f, v, version, faulty);
      RunsKeepInv(c, before);
      assert es[..|before|] == before;
      assert Behaves(c, Exec(c, es[..|before|]).value, es[|before|], t, faulty);
      StepStaysPromising(c, Exec(c, before).value, e, t, v, version.chunks, faulty);
    }
  }

  /** In every overlap-free run: a download whose version stays live replies with bytes, whatever it is interleaved
      with, if for each chunk fewer than w of the nodes that acknowledged it to that version are faulty during the
      download or had lost it to a fault before. */
  lemma {:induction false} DownloadReturns(c: Config, es: seq<Event>, k: nat, t: TaskId, f: FileId, v: VersionId,
                                           version: Version, faulty: set<NodeId>)
    requires c.Valid() && Exec(c, es).Some? && OverlapFree(c, es)
    requires k < |es| && es[k] == StartDownload(t, f) && Exec(c, es[..k]).Some?
    requires f in Exec(c, es[..k]).value.meta.files && Exec(c, es[..k]).value.meta.files[f] == Some(v)
    requires LiveSince(c, es, k, v, version) && BehavesSince(c, es, k + 1, t, faulty)
    requires forall h :: h in version.chunks ==> |Failing(BookOf(c, es[..k]), v, h, faulty)| < c.w
    requires Enabled(c, Exec(c, es).value, FinishDownload(t))
    ensures Observe(c, Exec(c, es).value, FinishDownload(t)).Returned?
  {
    var s := Exec(c, es).value;
    DownloadStaysPromising(c, es, k, t, f, v, version, faulty);
    forall i | 0 <= i < |s.tasks[t].cells| ensures s.tasks[t].cells[i].Got? {
      assert CellPromising(c, s, version.chunks[i], s.tasks[t].cells[i], faulty);
    }
  }
}
