/** What every step keeps of the metadata: current versions are live, and ids are never reused. */
module Consistency {
  import opened Types
  import opened Metadata
  import opened StoreSystem

  /** Every file's current version is a live version of that very file. */
  ghost predicate CurrentIsLive(m: Meta) {
    forall f :: f in m.files ==>
      m.files[f].Some? && m.files[f].value in m.versions && m.versions[m.files[f].value].file == f
  }

  /** A PUT's target exists; the version it remembered was really issued, and if still live belongs to the target. */
  ghost predicate Remembers(s: State, u: Task)
    requires u.Upload?
  {
    && (u.target.Some? ==> u.target.value in s.meta.files)
    && (u.prev.Some? ==>
          && u.target.Some? && u.prev.value in s.versionIds
          && (u.prev.value in s.meta.versions ==> s.meta.versions[u.prev.value].file == u.target.value))
  }

  ghost predicate Consistent(s: State) {
    && CurrentIsLive(s.meta)
    && s.meta.versions.Keys <= s.versionIds
    && s.meta.files.Keys <= s.fileIds
    && (forall t :: IsUpload(s, t) ==> Remembers(s, s.tasks[t]))
  }

  /** The tables after a commit, row by row. */
  lemma CommitEffect(c: Config, s: State, t: TaskId, f: FileId, v: VersionId)
    requires c.Valid() && Consistent(s) && Enabled(c, s, Commit(t, f, v))
    ensures var m, u := Committed(c, s.meta, s.tasks[t], f, v), s.tasks[t];
            && v !in s.meta.versions
            && m.files == s.meta.files[f := Some(v)]
            && m.versions == s.meta.versions[v := Version(f, |u.body|, Hashes(c, u.body))]
                               - (if u.prev.Some? then {u.prev.value} else {})
            && (u.prev.Some? ==> u.prev.value != v)
            && (u.target.None? <==> f !in s.meta.files)
  {
    var u := s.tasks[t];
    assert Remembers(s, u);
  }

  lemma CommitKeepsConsistent(c: Config, s: State, t: TaskId, f: FileId, v: VersionId)
    requires c.Valid() && Consistent(s) && Enabled(c, s, Commit(t, f, v))
    ensures Consistent(Apply(c, s, Commit(t, f, v)))
  {
    CommitEffect(c, s, t, f, v);
    var u := s.tasks[t];
    assert Remembers(s, u);
    var after := Apply(c, s, Commit(t, f, v));
    forall t' | IsUpload(after, t') ensures Remembers(after, after.tasks[t']) {
      assert IsUpload(s, t');
      assert Remembers(s, s.tasks[t']);
    }
  }

  /** Every other step leaves files and versions alone, and a new update remembers what it has just looked up. */
  lemma OtherStepKeepsConsistent(c: Config, s: State, e: Event)
    requires c.Valid() && Consistent(s) && Enabled(c, s, e) && !e.Commit?
    ensures Consistent(Apply(c, s, e))
  {
    var after := Apply(c, s, e);
    assert after.meta.files == s.meta.files && after.meta.versions == s.meta.versions;
    assert after.versionIds == s.versionIds && after.fileIds == s.fileIds;
    forall t | IsUpload(after, t) ensures Remembers(after, after.tasks[t]) {
      if IsUpload(s, t) {
        assert Remembers(s, s.tasks[t]);
        assert after.tasks[t].target == s.tasks[t].target && after.tasks[t].prev == s.tasks[t].prev;
      }
    }
  }

  lemma StepKeepsConsistent(c: Config, s: State, e: Event)
    requires c.Valid() && Consistent(s) && Enabled(c, s, e)
    ensures Consistent(Apply(c, s, e))
  {
    if e.Commit? {
      CommitKeepsConsistent(c, s, e.t, e.f, e.v);
    } else {
      OtherStepKeepsConsistent(c, s, e);
    }
  }

  /** In every interleaving each file's current version stays live: no deleteVersion removes it. */
  lemma {:induction false} RunsAreConsistent(c: Config, es: seq<Event>)
    requires c.Valid() && Exec(c, es).Some?
    ensures Consistent(Exec(c, es).value)
  {
    if es == [] {
    } else {
      RunsAreConsistent(c, es[..|es| - 1]);
      StepKeepsConsistent(c, Exec(c, es[..|es| - 1]).value, es[|es| - 1]);
    }
  }
}
