/** The whole store refines an atomic map from files to bytes: what every client sees in every run. */
module Refinement {
  import opened Types
  import opened Seqs
  import opened Chunker
  import opened Metadata
  import opened Replication
  import opened StoreSystem
  import opened Consistency
  import opened Lifecycle

  // ---------- the atomic map ----------

  /** What a client, or a reader of the metadata, observes of one event. */
  datatype Obs =
    | Silent
    | NotFound(f: FileId)                    // 404
    | Created(f: FileId, body: Bytes)        // 201
    | Updated(f: FileId, body: Bytes)        // PUT 200
    | ReadBegan(t: TaskId, f: FileId)        // the download looked up the current version
    | Returned(t: TaskId, body: Bytes)       // download 200
    | ReadFailed(t: TaskId)                  // download 500, or the request abandoned
    | Broken(f: FileId)                      // the current version is not in the versions table

  /** The map, and the value each download in progress must return if it returns any. */
  datatype Spec = Spec(files: map<FileId, Bytes>, pending: map<TaskId, Bytes>)

  /** A write replaces the whole value at once; a read returns the value the map had when it began. */
  function SpecNext(a: Spec, o: Obs): Option<Spec> {
    match o
    case Silent => Some(a)
    case NotFound(f) => if f in a.files then None else Some(a)
    case Created(f, body) => if f in a.files then None else Some(a.(files := a.files[f := body]))
    case Updated(f, body) => if f in a.files then Some(a.(files := a.files[f := body])) else None
    case ReadBegan(t, f) =>
      if f in a.files && t !in a.pending then Some(a.(pending := a.pending[t := a.files[f]])) else None
    case Returned(t, body) =>
      if t in a.pending && a.pending[t] == body then Some(a.(pending := a.pending - {t})) else None
    case ReadFailed(t) => if t in a.pending then Some(a.(pending := a.pending - {t})) else None
    case Broken(f) => None
  }

  function SpecRun(os: seq<Obs>): Option<Spec> {
    if os == [] then Some(Spec(map[], map[]))
    else
      var before := SpecRun(os[..|os| - 1]);
      if before.Some? then SpecNext(before.value, os[|os| - 1]) else None
  }

  // ---------- what the store shows ----------

  function Observe(c: Config, s: State, e: Event): Obs
    requires c.size > 0 && Enabled(c, s, e)
  {
    match e
    case StartPut(t, f, body) => if f !in s.meta.files then Obs.NotFound(f) else Silent
    case Commit(t, f, v) =>
      if s.tasks[t].target.None? then Created(f, s.tasks[t].body) else Updated(f, s.tasks[t].body)
    case StartDownload(t, f) =>
      if f !in s.meta.files || s.meta.files[f].None? then Obs.NotFound(f)
      else if s.meta.files[f].value !in s.meta.versions then Broken(f)
      else ReadBegan(t, f)
    case FinishDownload(t) =>
      var body := Assembled(s.tasks[t].cells);
      if body.Some? then Returned(t, body.value) else ReadFailed(t)
    case Abort(t) => if s.tasks[t].Download? then ReadFailed(t) else Silent
    case _ => Silent
  }

  function Trace(c: Config, es: seq<Event>): seq<Obs>
    requires c.size > 0 && Exec(c, es).Some?
  {
    if es == [] then []
    else Trace(c, es[..|es| - 1]) + [Observe(c, Exec(c, es[..|es| - 1]).value, es[|es| - 1])]
  }

  /** The byte strings that occur in a run: the pieces of uploaded bodies and the payloads nodes answer. */
  function Strings(c: Config, es: seq<Event>): set<Bytes>
    requires c.size > 0
  {
    if es == [] then {} else Strings(c, es[..|es| - 1]) + StringsOf(c, es[|es| - 1])
  }

  function StringsOf(c: Config, e: Event): set<Bytes>
    requires c.size > 0
  {
    match e
    case StartPost(_, body) => Elems(Pieces(body, c.size))
    case StartPut(_, _, body) => Elems(Pieces(body, c.size))
    case ReadReply(_, _, answer) => if answer.Payload? then {answer.buf} else {}
    case _ => {}
  }

  // ---------- the correspondence ----------

  ghost predicate Known(c: Config, body: Bytes, strings: set<Bytes>)
    requires c.size > 0
  {
    Elems(Pieces(body, c.size)) <= strings
  }

  /** Each file's current version is live, belongs to it, and its manifest spells the value the map holds. */
  ghost predicate ManifestsMatch(c: Config, m: Meta, files: map<FileId, Bytes>)
    requires c.size > 0
  {
    && files.Keys == m.files.Keys
    && (forall f :: f in files ==>
          && m.files[f].Some? && m.files[f].value in m.versions
          && m.versions[m.files[f].value] == Version(f, |files[f]|, Hashes(c, files[f])))
  }

  ghost predicate FilesMatch(c: Config, m: Meta, files: map<FileId, Bytes>, strings: set<Bytes>)
    requires c.size > 0
  {
    ManifestsMatch(c, m, files) && forall f :: f in files ==> Known(c, files[f], strings)
  }

  /** A download in progress holds the manifest of its value, and pieces that answer to it. */
  ghost predicate ReadMatches(c: Config, task: Task, value: Bytes, strings: set<Bytes>)
    requires c.size > 0 && task.Download?
  {
    && task.hashes == Hashes(c, value) && |task.cells| == |task.hashes|
    && Known(c, value, strings)
    && (forall i :: 0 <= i < |task.cells| && task.cells[i].Got? ==>
          c.sha(task.cells[i].buf) == task.hashes[i] && task.cells[i].buf in strings)
  }

  ghost predicate Matches(c: Config, s: State, a: Spec, strings: set<Bytes>)
    requires c.size > 0
  {
    && FilesMatch(c, s.meta, a.files, strings)
    && (forall t :: IsDownload(s, t) <==> t in a.pending)
    && (forall t :: t in a.pending ==> ReadMatches(c, s.tasks[t], a.pending[t], strings))
    && (forall t :: IsUpload(s, t) ==> Known(c, s.tasks[t].body, strings))
  }

  /** A file other than the one written keeps its version. */
  lemma OtherFileKept(m: Meta, after: Meta, f: FileId, v: VersionId, version: Version, dropped: set<VersionId>,
                      g: FileId)
    requires CurrentIsLive(m) && g in m.files && g != f && v !in m.versions
    requires forall p :: p in dropped && p in m.versions ==> m.versions[p].file == f
    requires after.files == m.files[f := Some(v)] && after.versions == m.versions[v := version] - dropped
    ensures after.files[g] == m.files[g] && m.files[g].Some? && m.files[g].value in after.versions
    ensures after.versions[m.files[g].value] == m.versions[m.files[g].value]
  {
  }

  lemma ManifestsMatchWith(c: Config, m: Meta, after: Meta, files: map<FileId, Bytes>,
                           f: FileId, v: VersionId, body: Bytes, dropped: set<VersionId>)
    requires c.size > 0 && CurrentIsLive(m) && ManifestsMatch(c, m, files) && v !in m.versions && v !in dropped
    requires forall p :: p in dropped && p in m.versions ==> m.versions[p].file == f
    requires after.files == m.files[f := Some(v)]
    requires after.versions == m.versions[v := Version(f, |body|, Hashes(c, body))] - dropped
    ensures ManifestsMatch(c, after, files[f := body])
  {
    forall g | g in files && g != f
      ensures after.files[g] == m.files[g] && m.files[g].value in after.versions
      ensures after.versions[m.files[g].value] == m.versions[m.files[g].value]
    {
      OtherFileKept(m, after, f, v, Version(f, |body|, Hashes(c, body)), dropped, g);
    }
  }

  lemma ManifestsMatchAfterCommit(c: Config, s: State, files: map<FileId, Bytes>, t: TaskId, f: FileId, v: VersionId)
    requires c.Valid() && Consistent(s) && ManifestsMatch(c, s.meta, files) && Enabled(c, s, Commit(t, f, v))
    ensures ManifestsMatch(c, Committed(c, s.meta, s.tasks[t], f, v), files[f := s.tasks[t].body])
  {
    CommitEffect(c, s, t, f, v);
    var u := s.tasks[t];
    assert IsUpload(s, t) && Remembers(s, u);
    ManifestsMatchWith(c, s.meta, Committed(c, s.meta, u, f, v), files, f, v, u.body,
                       if u.prev.Some? then {u.prev.value} else {});
  }

  lemma CommitMatches(c: Config, s: State, a: Spec, t: TaskId, f: FileId, v: VersionId, strings: set<Bytes>)
    requires c.Valid() && Consistent(s) && Matches(c, s, a, strings) && Enabled(c, s, Commit(t, f, v))
    ensures SpecNext(a, Observe(c, s, Commit(t, f, v))) == Some(a.(files := a.files[f := s.tasks[t].body]))
    ensures FilesMatch(c, Committed(c, s.meta, s.tasks[t], f, v), a.files[f := s.tasks[t].body], strings)
  {
    CommitEffect(c, s, t, f, v);
    assert IsUpload(s, t) && Known(c, s.tasks[t].body, strings);
    ManifestsMatchAfterCommit(c, s, a.files, t, f, v);
  }

  /** The tasks other than t are the same in both states. */
  ghost predicate OnlyTask(before: State, after: State, t: TaskId) {
    forall u :: u != t ==>
      && (u in before.tasks <==> u in after.tasks)
      && (u in before.tasks ==> before.tasks[u] == after.tasks[u])
  }

  /** A step of anything but a download leaves the correspondence alone. */
  lemma UploadOrSweepMatches(c: Config, s: State, after: State, a: Spec, files: map<FileId, Bytes>, t: TaskId,
                             strings: set<Bytes>)
    requires c.Valid() && Matches(c, s, a, strings) && OnlyTask(s, after, t)
    requires FilesMatch(c, after.meta, files, strings)
    requires !IsDownload(s, t) && !IsDownload(after, t)
    requires IsUpload(after, t) ==> Known(c, after.tasks[t].body, strings)
    ensures Matches(c, after, a.(files := files), strings)
  {
    forall u ensures IsDownload(after, u) <==> u in a.pending {
      assert IsDownload(s, u) <==> u in a.pending;
    }
    forall u | u in a.pending ensures ReadMatches(c, after.tasks[u], a.pending[u], strings) {
      assert IsDownload(s, u);
    }
    forall u | IsUpload(after, u) ensures Known(c, after.tasks[u].body, strings) {
      assert u != t ==> IsUpload(s, u);
    }
  }

  /** A step of a download changes only its own entry. */
  lemma DownloadMatches(c: Config, s: State, after: State, a: Spec, pending: map<TaskId, Bytes>, t: TaskId,
                        strings: set<Bytes>)
    requires c.Valid() && Matches(c, s, a, strings) && OnlyTask(s, after, t) && after.meta == s.meta
    requires !IsUpload(after, t)
    requires forall u :: u != t ==> (u in pending <==> u in a.pending) && (u in pending ==> pending[u] == a.pending[u])
    requires IsDownload(after, t) <==> t in pending
    requires t in pending ==> ReadMatches(c, after.tasks[t], pending[t], strings)
    ensures Matches(c, after, a.(pending := pending), strings)
  {
    forall u ensures IsDownload(after, u) <==> u in pending {
      assert IsDownload(s, u) <==> u in a.pending;
    }
    forall u | u in pending ensures ReadMatches(c, after.tasks[u], pending[u], strings) {
      assert u != t ==> IsDownload(s, u);
    }
    forall u | IsUpload(after, u) ensures Known(c, after.tasks[u].body, strings) {
      assert IsUpload(s, u);
    }
  }

  lemma ReadReplyMatches(c: Config, task: Task, value: Bytes, i: nat, answer: Answer, strings: set<Bytes>)
    requires c.Valid() && task.Download? && ReadMatches(c, task, value, strings)
    requires i < |task.cells| && task.cells[i].Trying?
    requires answer.Payload? ==> answer.buf in strings
    ensures ReadMatches(c,
        Download(task.hashes, task.cells[i := AfterAnswer(c, task.hashes[i], task.cells[i], answer)]), value, strings)
  {
  }

  lemma FinishedReadReturnsValue(c: Config, task: Task, value: Bytes, strings: set<Bytes>)
    requires c.Valid() && task.Download? && ReadMatches(c, task, value, strings)
    requires CollisionFree(c.sha, strings)
    ensures Assembled(task.cells).Some? ==> Assembled(task.cells).value == value
  {
    if Assembled(task.cells).Some? {
      var parts := Buffers(task.cells);
      assert Names(parts, c.sha) == Hashes(c, value);
      forall p | p in parts || p in Pieces(value, c.size) ensures p in strings {
        if p in parts {
          var i :| 0 <= i < |parts| && parts[i] == p;
          assert task.cells[i].Got?;
        } else {
          assert p in Elems(Pieces(value, c.size));
        }
      }
      MatchingPartsRebuild(value, c.size, c.sha, parts, strings);
    }
  }

  lemma NewDownloadMatches(c: Config, s: State, files: map<FileId, Bytes>, t: TaskId, f: FileId, strings: set<Bytes>)
    requires c.Valid() && FilesMatch(c, s.meta, files, strings) && f in files
    ensures OnlyTask(s, AfterStartDownload(c, s, t, f), t) && AfterStartDownload(c, s, t, f).meta == s.meta
    ensures IsDownload(AfterStartDownload(c, s, t, f), t)
    ensures ReadMatches(c, AfterStartDownload(c, s, t, f).tasks[t], files[f], strings)
  {
  }

  lemma DownloadStarts(c: Config, s: State, a: Spec, e: Event, strings: set<Bytes>)
    requires c.Valid() && Matches(c, s, a, strings) && Enabled(c, s, e)
    requires e.StartDownload?
    ensures SpecNext(a, Observe(c, s, e)).Some?
    ensures Matches(c, Apply(c, s, e), SpecNext(a, Observe(c, s, e)).value, strings)
  {
    var t, f := e.t, e.f;
    assert !IsDownload(s, t);
    if f in a.files {
      NewDownloadMatches(c, s, a.files, t, f, strings);
      DownloadMatches(c, s, Apply(c, s, e), a, a.pending[t := a.files[f]], t, strings);
    }
  }

  lemma DownloadProceeds(c: Config, s: State, a: Spec, e: Event, strings: set<Bytes>)
    requires c.Valid() && Matches(c, s, a, strings) && Enabled(c, s, e)
    requires StringsOf(c, e) <= strings && CollisionFree(c.sha, strings)
    requires e.ReadReply?
    ensures SpecNext(a, Observe(c, s, e)).Some?
    ensures Matches(c, Apply(c, s, e), SpecNext(a, Observe(c, s, e)).value, strings)
  {
    ReadReplyMatches(c, s.tasks[e.t], a.pending[e.t], e.i, e.answer, strings);
    DownloadMatches(c, s, Apply(c, s, e), a, a.pending, e.t, strings);
  }

  lemma DownloadEnds(c: Config, s: State, a: Spec, e: Event, strings: set<Bytes>)
    requires c.Valid() && Matches(c, s, a, strings) && Enabled(c, s, e)
    requires CollisionFree(c.sha, strings)
    requires e.FinishDownload?
    ensures SpecNext(a, Observe(c, s, e)) == Some(a.(pending := a.pending - {e.t}))
    ensures Matches(c, Apply(c, s, e), a.(pending := a.pending - {e.t}), strings)
  {
    FinishedReadReturnsValue(c, s.tasks[e.t], a.pending[e.t], strings);
    DownloadMatches(c, s, Apply(c, s, e), a, a.pending - {e.t}, e.t, strings);
  }

  lemma DownloadAborts(c: Config, s: State, a: Spec, t: TaskId, strings: set<Bytes>)
    requires c.Valid() && Matches(c, s, a, strings) && IsDownload(s, t)
    ensures SpecNext(a, Observe(c, s, Abort(t))) == Some(a.(pending := a.pending - {t}))
    ensures Matches(c, Apply(c, s, Abort(t)), a.(pending := a.pending - {t}), strings)
  {
    DownloadMatches(c, s, Apply(c, s, Abort(t)), a, a.pending - {t}, t, strings);
  }

  lemma UploadCommits(c: Config, s: State, a: Spec, e: Event, strings: set<Bytes>)
    requires c.Valid() && Consistent(s) && Matches(c, s, a, strings) && Enabled(c, s, e)
    requires e.Commit?
    ensures SpecNext(a, Observe(c, s, e)).Some?
    ensures Matches(c, Apply(c, s, e), SpecNext(a, Observe(c, s, e)).value, strings)
  {
    CommitMatches(c, s, a, e.t, e.f, e.v, strings);
    UploadOrSweepMatches(c, s, Apply(c, s, e), a, a.files[e.f := s.tasks[e.t].body], e.t, strings);
  }

  lemma UploadProceeds(c: Config, s: State, a: Spec, e: Event, strings: set<Bytes>)
    requires c.Valid() && Matches(c, s, a, strings) && Enabled(c, s, e)
    requires StringsOf(c, e) <= strings && CollisionFree(c.sha, strings)
    requires e.StartPost? || e.StartPut? || e.ReplicaPut? || e.PutDone?
    ensures SpecNext(a, Observe(c, s, e)).Some?
    ensures Matches(c, Apply(c, s, e), SpecNext(a, Observe(c, s, e)).value, strings)
  {
    UploadOrSweepMatches(c, s, Apply(c, s, e), a, a.files, e.t, strings);
  }

  lemma SweepProceeds(c: Config, s: State, a: Spec, e: Event, strings: set<Bytes>)
    requires c.Valid() && Matches(c, s, a, strings) && Enabled(c, s, e)
    requires e.StartSweep? || e.ReplicaDelete? || e.ReapHead? || (e.Abort? && !IsDownload(s, e.t))
    ensures SpecNext(a, Observe(c, s, e)).Some?
    ensures Matches(c, Apply(c, s, e), SpecNext(a, Observe(c, s, e)).value, strings)
  {
    UploadOrSweepMatches(c, s, Apply(c, s, e), a, a.files, e.t, strings);
  }

  lemma StepMatches(c: Config, s: State, a: Spec, e: Event, strings: set<Bytes>)
    requires c.Valid() && Consistent(s) && Matches(c, s, a, strings) && Enabled(c, s, e)
    requires StringsOf(c, e) <= strings && CollisionFree(c.sha, strings)
    ensures SpecNext(a, Observe(c, s, e)).Some?
    ensures Matches(c, Apply(c, s, e), SpecNext(a, Observe(c, s, e)).value, strings)
  {
    match e
    case Commit(_, _, _) => UploadCommits(c, s, a, e, strings);
    case StartDownload(_, _) => DownloadStarts(c, s, a, e, strings);
    case ReadReply(_, _, _) => DownloadProceeds(c, s, a, e, strings);
    case FinishDownload(_) => DownloadEnds(c, s, a, e, strings);
    case Abort(t) =>
      if IsDownload(s, t) {
        DownloadAborts(c, s, a, t, strings);
      } else {
        SweepProceeds(c, s, a, e, strings);
      }
    case Fault(_, _, _) =>
    case StartPost(_, _) => UploadProceeds(c, s, a, e, strings);
    case StartPut(_, _, _) => UploadProceeds(c, s, a, e, strings);
    case ReplicaPut(_, _, _, _) => UploadProceeds(c, s, a, e, strings);
    case PutDone(_) => UploadProceeds(c, s, a, e, strings);
    case StartSweep(_, _) => SweepProceeds(c, s, a, e, strings);
    case ReplicaDelete(_, _, _) => SweepProceeds(c, s, a, e, strings);
    case ReapHead(_) => SweepProceeds(c, s, a, e, strings);
  }

  lemma {:induction false} RunMatches(c: Config, es: seq<Event>, strings: set<Bytes>)
    requires c.Valid() && Exec(c, es).Some?
    requires Strings(c, es) <= strings && CollisionFree(c.sha, strings)
    ensures SpecRun(Trace(c, es)).Some?
    ensures Matches(c, Exec(c, es).value, SpecRun(Trace(c, es)).value, strings)
  {
    if es == [] {
    } else {
      var before, e := es[..|es| - 1], es[|es| - 1];
      RunMatches(c, before, strings);
      RunsAreConsistent(c, before);
      var s := Exec(c, before).value;
      var o := Observe(c, s, e);
      StepMatches(c, s, SpecRun(Trace(c, before)).value, e, strings);
      assert Trace(c, es) == Trace(c, before) + [o];
      assert (Trace(c, before) + [o])[..|Trace(c, before)|] == Trace(c, before);
    }
  }

  /** Every interleaving of uploads, updates, downloads, sweeps, aborts and faults, with nodes answering anything,
      shows clients a behaviour of the atomic map, as long as no two byte strings of the run share a digest. */
  lemma {:induction false} RefinesAtomicMap(c: Config, es: seq<Event>)
    requires c.Valid() && Exec(c, es).Some? && CollisionFree(c.sha, Strings(c, es))
    ensures SpecRun(Trace(c, es)).Some?
  {
    RunMatches(c, es, Strings(c, es));
  }

  /** What each file should hold, read off the events alone: the body that was sent with the request committed last. */
  function Written(es: seq<Event>): map<FileId, Bytes> {
    if es == [] then map[]
    else
      var before, e := es[..|es| - 1], es[|es| - 1];
      if e.Commit? then Written(before)[e.f := Requested(before, e.t)] else Written(before)
  }

  /** In every interleaving, whatever digests may collide, each file's current version is live, belongs to it, and
      carries the complete manifest, in order, of the body sent with the request committed last. */
  lemma {:induction false} CurrentManifestIsComplete(c: Config, es: seq<Event>)
    requires c.Valid() && Exec(c, es).Some?
    ensures ManifestsMatch(c, Exec(c, es).value.meta, Written(es))
  {
    if es == [] {
    } else {
      var before, e := es[..|es| - 1], es[|es| - 1];
      CurrentManifestIsComplete(c, before);
      RunsAreConsistent(c, before);
      if e.Commit? {
        UploadCarriesRequest(c, before, e.t);
        ManifestsMatchAfterCommit(c, Exec(c, before).value, Written(before), e.t, e.f, e.v);
      } else {
        assert ManifestsMatch(c, Apply(c, Exec(c, before).value, e).meta, Written(before));
      }
    }
  }

  lemma MapFollowsCommits(c: Config, s: State, e: Event, a: Spec)
    requires c.Valid() && Enabled(c, s, e) && SpecNext(a, Observe(c, s, e)).Some?
    ensures SpecNext(a, Observe(c, s, e)).value.files ==
            if e.Commit? then a.files[e.f := s.tasks[e.t].body] else a.files
  {
  }

  /** The atomic map holds, for each file, the body sent with the request committed last. */
  lemma {:induction false} MapHoldsWritten(c: Config, es: seq<Event>)
    requires c.Valid() && Exec(c, es).Some? && SpecRun(Trace(c, es)).Some?
    ensures SpecRun(Trace(c, es)).value.files == Written(es)
  {
    if es == [] {
    } else {
      var before, e := es[..|es| - 1], es[|es| - 1];
      var s := Exec(c, before).value;
      var o := Observe(c, s, e);
      assert Trace(c, es) == Trace(c, before) + [o];
      assert (Trace(c, before) + [o])[..|Trace(c, before)|] == Trace(c, before);
      MapHoldsWritten(c, before);
      if e.Commit? {
        UploadCarriesRequest(c, before, e.t);
      }
      MapFollowsCommits(c, s, e, SpecRun(Trace(c, before)).value);
    }
  }
}
