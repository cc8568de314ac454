/** An upload from its start to its commit: it keeps what it was started with, and replaces the version it found. */
module Lifecycle {
  import opened Types
  import opened Metadata
  import opened StoreSystem
  import opened Consistency

  // ---------- an upload keeps what it was started with ----------

  /** e is the request that task t serves. */
  predicate Begins(e: Event, t: TaskId) {
    (e.StartPost? || e.StartPut?) && e.t == t
  }

  /** The upload as it was before, apart from how far it has come. */
  predicate Continues(u: Task, was: Task) {
    u.Upload? && was.Upload? && u.body == was.body && u.target == was.target && u.prev == was.prev
  }

  /** An upload in progress after a step was in progress before, or has been begun by it. */
  lemma UploadContinues(c: Config, s: State, e: Event, t: TaskId)
    requires c.size > 0 && Enabled(c, s, e) && IsUpload(Apply(c, s, e), t)
    ensures var u := Apply(c, s, e).tasks[t];
            if IsUpload(s, t) then !Begins(e, t) && Continues(u, s.tasks[t])
            else
              && Begins(e, t) && u.body == e.body
              && (if e.StartPost? then u.target == None && u.prev == None
                  else u.target == Some(e.f) && e.f in s.meta.files && u.prev == s.meta.files[e.f])
  {
  }

  /** Event k began task t as upload u: u carries the body that was sent, and remembers the version that was current
      at that moment. */
  ghost predicate BegunAt(c: Config, es: seq<Event>, k: nat, t: TaskId, u: Task)
    requires c.size > 0 && u.Upload?
  {
    && k < |es| && Begins(es[k], t) && Exec(c, es[..k]).Some? && u.body == es[k].body
    && (if es[k].StartPost? then u.target == None && u.prev == None
        else
          var files := Exec(c, es[..k]).value.meta.files;
          u.target == Some(es[k].f) && es[k].f in files && u.prev == files[es[k].f])
  }

  lemma BegunStays(c: Config, es: seq<Event>, e: Event, k: nat, t: TaskId, u: Task)
    requires c.size > 0 && u.Upload? && BegunAt(c, es, k, t, u)
    ensures forall w: Task :: Continues(w, u) ==> BegunAt(c, es + [e], k, t, w)
  {
    assert (es + [e])[..k] == es[..k];
  }

  /** Every upload in progress has the body it was sent with, the file it was sent to, and the version that was current
      when it was sent. */
  lemma {:induction false} UploadIsAsBegun(c: Config, es: seq<Event>, t: TaskId)
    requires c.Valid() && Exec(c, es).Some? && IsUpload(Exec(c, es).value, t)
    ensures exists k :: BegunAt(c, es, k, t, Exec(c, es).value.tasks[t])
  {
    var before, e := es[..|es| - 1], es[|es| - 1];
    var s, u := Exec(c, before).value, Exec(c, es).value.tasks[t];
    assert es == before + [e];
    UploadContinues(c, s, e, t);
    if IsUpload(s, t) {
      UploadIsAsBegun(c, before, t);
      var k :| BegunAt(c, before, k, t, s.tasks[t]);
      BegunStays(c, before, e, k, t, s.tasks[t]);
      assert BegunAt(c, es, k, t, u);
    } else {
      assert es[..|before|] == before;
      assert BegunAt(c, es, |before|, t, u);
    }
  }

  /** The body that task t's last request sent. */
  function Requested(es: seq<Event>, t: TaskId): Bytes {
    if es == [] then []
    else if Begins(es[|es| - 1], t) then es[|es| - 1].body
    else Requested(es[..|es| - 1], t)
  }

  lemma {:induction false} UploadCarriesRequest(c: Config, es: seq<Event>, t: TaskId)
    requires c.Valid() && Exec(c, es).Some? && IsUpload(Exec(c, es).value, t)
    ensures Exec(c, es).value.tasks[t].body == Requested(es, t)
  {
    var before := es[..|es| - 1];
    UploadContinues(c, Exec(c, before).value, es[|es| - 1], t);
    if IsUpload(Exec(c, before).value, t) {
      UploadCarriesRequest(c, before, t);
    }
  }

  // ---------- an update replaces the version that it found ----------

  /** Nothing in these events sends another request under task t or commits a version of file f. */
  predicate Undisturbed(es: seq<Event>, t: TaskId, f: FileId) {
    forall e :: e in es ==> !Begins(e, t) && !(e.Commit? && e.f == f)
  }

  /** File f has still its version p, and task t, if it is still there, is the update that found it. */
  ghost predicate Replacing(s: State, t: TaskId, f: FileId, body: Bytes, p: VersionId, version: Version) {
    && f in s.meta.files && s.meta.files[f] == Some(p)
    && p in s.meta.versions && s.meta.versions[p] == version
    && (IsUpload(s, t) ==>
          s.tasks[t].target == Some(f) && s.tasks[t].prev == Some(p) && s.tasks[t].body == body)
  }

  lemma StepKeepsReplacing(c: Config, s: State, e: Event, t: TaskId, f: FileId, body: Bytes, p: VersionId,
                           version: Version)
    requires c.Valid() && Consistent(s) && Enabled(c, s, e) && Replacing(s, t, f, body, p, version)
    requires !Begins(e, t) && !(e.Commit? && e.f == f)
    ensures Replacing(Apply(c, s, e), t, f, body, p, version)
  {
    if IsUpload(Apply(c, s, e), t) {
      UploadContinues(c, s, e, t);
    }
    if e.Commit? {
      CommitEffect(c, s, e.t, e.f, e.v);
      assert IsUpload(s, e.t) && Remembers(s, s.tasks[e.t]);
    }
  }

  lemma {:induction false} StaysReplacing(c: Config, es: seq<Event>, mid: seq<Event>, t: TaskId, f: FileId, body: Bytes,
                                          p: VersionId, version: Version)
    requires c.Valid() && Exec(c, es + mid).Some? && Undisturbed(mid, t, f)
    requires Exec(c, es).Some? && Replacing(Exec(c, es).value, t, f, body, p, version)
    ensures Replacing(Exec(c, es + mid).value, t, f, body, p, version)
  {
    if mid == [] {
      assert es + mid == es;
    } else {
      var before, e := mid[..|mid| - 1], mid[|mid| - 1];
      assert (es + mid)[..|es + mid| - 1] == es + before && mid == before + [e];
      StaysReplacing(c, es, before, t, f, body, p, version);
      RunsAreConsistent(c, es + before);
      StepKeepsReplacing(c, Exec(c, es + before).value, e, t, f, body, p, version);
    }
  }

  lemma CommitReplaces(c: Config, s: State, t: TaskId, f: FileId, v: VersionId, body: Bytes, p: VersionId,
                       version: Version)
    requires c.Valid() && Consistent(s) && Replacing(s, t, f, body, p, version) && Enabled(c, s, Commit(t, f, v))
    ensures var m := Apply(c, s, Commit(t, f, v)).meta;
            && m.files == s.meta.files[f := Some(v)]
            && m.versions == s.meta.versions[v := Version(f, |body|, Hashes(c, body))] - {p}
            && m.refcounts == Drop(Bump(s.meta.refcounts, Hashes(c, body)), version.chunks)
  {
    CommitEffect(c, s, t, f, v);
    assert IsUpload(s, t);
  }

  /** An update, whatever its body, interleaved with anything but another commit to its file: from the request that
      finds version p current, to the commit of v, after which p is dead and v is the live current version with the
      body's manifest. The counts have the new manifest added and p's taken off. */
  lemma UpdateReplacesVersion(c: Config, es: seq<Event>, s: State, mid: seq<Event>, s2: State, t: TaskId, f: FileId,
                              body: Bytes, v: VersionId)
    requires c.Valid() && Exec(c, es) == Some(s) && f in s.meta.files && Enabled(c, s, StartPut(t, f, body))
    requires Exec(c, es + [StartPut(t, f, body)] + mid) == Some(s2) && Enabled(c, s2, Commit(t, f, v))
    requires Undisturbed(mid, t, f)
    ensures s.meta.files[f].Some? && s.meta.files[f].value in s.meta.versions
    ensures var m, p := Apply(c, s2, Commit(t, f, v)).meta, s.meta.files[f].value;
            && f in s2.meta.files && s2.meta.files[f] == Some(p) && m.files == s2.meta.files[f := Some(v)]
            && p !in m.versions
            && m.versions == s2.meta.versions[v := Version(f, |body|, Hashes(c, body))] - {p}
            && m.refcounts == Drop(Bump(s2.meta.refcounts, Hashes(c, body)), s.meta.versions[p].chunks)
  {
    RunsAreConsistent(c, es);
    var p := s.meta.files[f].value;
    var begun := es + [StartPut(t, f, body)];
    ExecSnoc(c, es, StartPut(t, f, body));
    StaysReplacing(c, begun, mid, t, f, body, p, s.meta.versions[p]);
    RunsAreConsistent(c, begun + mid);
    CommitReplaces(c, s2, t, f, v, body, p, s.meta.versions[p]);
  }

  /** Where the counts were exact, each has changed by the chunk's multiplicity in the new manifest less that in p's. */
  lemma UpdateMovesCounts(c: Config, es: seq<Event>, s: State, mid: seq<Event>, s2: State, t: TaskId, f: FileId,
                          body: Bytes, v: VersionId, h: Hash)
    requires c.Valid() && Exec(c, es) == Some(s) && f in s.meta.files && Enabled(c, s, StartPut(t, f, body))
    requires Exec(c, es + [StartPut(t, f, body)] + mid) == Some(s2) && Enabled(c, s2, Commit(t, f, v))
    requires Undisturbed(mid, t, f) && Counted(s2.meta)
    ensures s.meta.files[f].Some? && s.meta.files[f].value in s.meta.versions
    ensures Refcount(Apply(c, s2, Commit(t, f, v)).meta.refcounts, h)
         == Refcount(s2.meta.refcounts, h) + multiset(Hashes(c, body))[h]
              - multiset(s.meta.versions[s.meta.files[f].value].chunks)[h]
  {
    UpdateReplacesVersion(c, es, s, mid, s2, t, f, body, v);
    var p := s.meta.files[f].value;
    var bumped, chunks := Bump(s2.meta.refcounts, Hashes(c, body)), s.meta.versions[p].chunks;
    RunsAreConsistent(c, es);
    ExecSnoc(c, es, StartPut(t, f, body));
    StaysReplacing(c, es + [StartPut(t, f, body)], mid, t, f, body, p, s.meta.versions[p]);
    AllRefsWithout(s2.meta.versions, p);
    assert Refcount(s2.meta.refcounts, h) == AllRefs(s2.meta.versions)[h] >= multiset(chunks)[h];
    BumpCounts(s2.meta.refcounts, Hashes(c, body));
    DropCounts(bumped, chunks);
  }

  // ---------- one live version for each file ----------

  function LiveVersions(m: Meta, f: FileId): set<VersionId> {
    set p | p in m.versions && m.versions[p].file == f
  }

  /** Each file's current version is its only live version, and every live version belongs to a file. */
  ghost predicate OneVersionEach(m: Meta) {
    && (forall f :: f in m.files ==> m.files[f].Some? && LiveVersions(m, f) == {m.files[f].value})
    && (forall p :: p in m.versions ==> m.versions[p].file in m.files)
  }

  /** If e commits a version of a file there is, the file's current version is the one the update found. */
  predicate Timely(c: Config, s: State, e: Event)
    requires c.size > 0
  {
    e.Commit? && Enabled(c, s, e) && e.f in s.meta.files ==> s.tasks[e.t].prev == s.meta.files[e.f]
  }

  lemma OneVersionAfterIff(m: Meta, after: Meta, f: FileId, v: VersionId, version: Version, prev: Option<VersionId>)
    requires OneVersionEach(m) && v !in m.versions && version.file == f && prev != Some(v)
    requires prev.Some? ==> f in m.files && (prev.value in m.versions ==> m.versions[prev.value].file == f)
    requires after.files == m.files[f := Some(v)]
    requires after.versions == m.versions[v := version] - (if prev.Some? then {prev.value} else {})
    ensures OneVersionEach(after) <==> (f in m.files ==> prev == m.files[f])
  {
    var dropped := if prev.Some? then {prev.value} else {};
    assert LiveVersions(after, f) == LiveVersions(m, f) + {v} - dropped;
    assert v in LiveVersions(after, f);
    forall g | g in m.files && g != f ensures LiveVersions(after, g) == {m.files[g].value} {
      assert LiveVersions(after, g) == LiveVersions(m, g);
    }
    if f in m.files {
      assert m.files[f].value in LiveVersions(m, f);
    } else {
      assert LiveVersions(m, f) == {};
    }
  }

  lemma SameTablesSameVersions(m: Meta, after: Meta)
    requires OneVersionEach(m) && after.files == m.files && after.versions == m.versions
    ensures OneVersionEach(after)
  {
    assert forall f :: LiveVersions(after, f) == LiveVersions(m, f);
  }

  lemma StepKeepsOneVersionIff(c: Config, s: State, e: Event)
    requires c.Valid() && Consistent(s) && OneVersionEach(s.meta) && Enabled(c, s, e)
    ensures OneVersionEach(Apply(c, s, e).meta) <==> Timely(c, s, e)
  {
    if e.Commit? {
      CommitEffect(c, s, e.t, e.f, e.v);
      var u := s.tasks[e.t];
      assert IsUpload(s, e.t) && Remembers(s, u);
      OneVersionAfterIff(s.meta, Apply(c, s, e).meta, e.f, e.v, Version(e.f, |u.body|, Hashes(c, u.body)), u.prev);
    } else {
      SameTablesSameVersions(s.meta, Apply(c, s, e).meta);
    }
  }

  ghost predicate AlwaysOneVersionEach(c: Config, es: seq<Event>)
    requires c.size > 0
  {
    (Exec(c, es).Some? ==> OneVersionEach(Exec(c, es).value.meta))
    && (es == [] || AlwaysOneVersionEach(c, es[..|es| - 1]))
  }

  ghost predicate EveryCommitIsTimely(c: Config, es: seq<Event>)
    requires c.size > 0
  {
    es == [] ||
    (EveryCommitIsTimely(c, es[..|es| - 1]) &&
     (Exec(c, es[..|es| - 1]).Some? ==> Timely(c, Exec(c, es[..|es| - 1]).value, es[|es| - 1])))
  }

  /** In any run, each file has exactly one live version throughout exactly when every update that commits replaces the
      version it found. Failing uploads do no harm then. */
  lemma {:induction false} OneVersionEachIff(c: Config, es: seq<Event>)
    requires c.Valid() && Exec(c, es).Some?
    ensures AlwaysOneVersionEach(c, es) <==> EveryCommitIsTimely(c, es)
  {
    if es == [] {
    } else {
      var before := es[..|es| - 1];
      OneVersionEachIff(c, before);
      RunsAreConsistent(c, before);
      if AlwaysOneVersionEach(c, before) {
        assert OneVersionEach(Exec(c, before).value.meta);
        StepKeepsOneVersionIff(c, Exec(c, before).value, es[|es| - 1]);
      }
    }
  }

  /** No two updates in progress are of one file. */
  ghost predicate UpdatesApart(s: State) {
    forall t, u :: IsUpload(s, t) && IsUpload(s, u) && t != u ==>
      s.tasks[t].target.None? || s.tasks[t].target != s.tasks[u].target
  }

  ghost predicate UpdatesNeverOverlap(c: Config, es: seq<Event>)
    requires c.size > 0
  {
    (Exec(c, es).Some? ==> UpdatesApart(Exec(c, es).value)) && (es == [] || UpdatesNeverOverlap(c, es[..|es| - 1]))
  }

  /** Every update in progress found the version that is current still. */
  ghost predicate AllTimely(s: State) {
    forall t :: IsUpload(s, t) && s.tasks[t].target.Some? ==>
      s.tasks[t].target.value in s.meta.files && s.tasks[t].prev == s.meta.files[s.tasks[t].target.value]
  }

  lemma StepKeepsTimely(c: Config, s: State, e: Event)
    requires c.Valid() && Consistent(s) && AllTimely(s) && UpdatesApart(s) && Enabled(c, s, e)
    ensures Timely(c, s, e) && AllTimely(Apply(c, s, e))
  {
    var after := Apply(c, s, e);
    if e.Commit? {
      CommitEffect(c, s, e.t, e.f, e.v);
      assert IsUpload(s, e.t);
    }
    forall t | IsUpload(after, t) && after.tasks[t].target.Some?
      ensures after.tasks[t].target.value in after.meta.files
      ensures after.tasks[t].prev == after.meta.files[after.tasks[t].target.value]
    {
      UploadContinues(c, s, e, t);
      if IsUpload(s, t) {
        if e.Commit? && s.tasks[e.t].target.None? {
          assert Remembers(s, s.tasks[t]);
        }
      }
    }
  }

  /** If no two updates of a file overlap, whatever else overlaps them and whichever of them fail, each file has exactly
      one live version throughout. */
  lemma {:induction false} SeparateUpdatesKeepOneVersionEach(c: Config, es: seq<Event>)
    requires c.Valid() && Exec(c, es).Some? && UpdatesNeverOverlap(c, es)
    ensures AllTimely(Exec(c, es).value) && EveryCommitIsTimely(c, es)
    ensures AlwaysOneVersionEach(c, es)
  {
    if es == [] {
    } else {
      var before := es[..|es| - 1];
      SeparateUpdatesKeepOneVersionEach(c, before);
      RunsAreConsistent(c, before);
      StepKeepsTimely(c, Exec(c, before).value, es[|es| - 1]);
    }
    OneVersionEachIff(c, es);
  }
}
