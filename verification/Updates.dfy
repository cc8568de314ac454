/** Overlapping updates of one file: the old version is deleted once, and which versions are never deleted. */
module Updates {
  import opened Types
  import opened Metadata
  import opened StoreSystem
  import opened Consistency
  import opened GcSafety

  // ---------- the old version is deleted once ----------

  lemma CommitCounts(c: Config, s: State, t: TaskId, f: FileId, v: VersionId, h: Hash)
    requires c.Valid() && Consistent(s) && Counted(s.meta) && Enabled(c, s, Commit(t, f, v))
    ensures var m, u := Committed(c, s.meta, s.tasks[t], f, v), s.tasks[t];
            Refcount(m.refcounts, h) == Refcount(s.meta.refcounts, h) + multiset(Hashes(c, u.body))[h]
              - if u.prev.Some? && u.prev.value in s.meta.versions
                  then multiset(s.meta.versions[u.prev.value].chunks)[h] else 0
  {
    CommitEffect(c, s, t, f, v);
    CommitKeepsCounted(c, s, t, f, v);
    var m, u := Committed(c, s.meta, s.tasks[t], f, v), s.tasks[t];
    var version := Version(f, |u.body|, Hashes(c, u.body));
    var grown := s.meta.versions[v := version];
    AllRefsWith(s.meta.versions, v, version);
    assert Refcount(s.meta.refcounts, h) == AllRefs(s.meta.versions)[h];
    assert Refcount(m.refcounts, h) == AllRefs(m.versions)[h];
    if u.prev.Some? && u.prev.value in s.meta.versions {
      AllRefsWithout(grown, u.prev.value);
      assert m.versions == grown - {u.prev.value};
      assert grown[u.prev.value] == s.meta.versions[u.prev.value];
      assert AllRefs(grown)[h] == multiset(s.meta.versions[u.prev.value].chunks)[h] + AllRefs(m.versions)[h];
      assert AllRefs(grown)[h] == multiset(version.chunks)[h] + AllRefs(s.meta.versions)[h];
    } else {
      assert m.versions == grown;
    }
  }

  /** p was issued, and is no longer live. */
  predicate Gone(s: State, p: VersionId) {
    p in s.versionIds && p !in s.meta.versions
  }

  lemma StepKeepsGone(c: Config, s: State, e: Event, p: VersionId)
    requires c.Valid() && Consistent(s) && Enabled(c, s, e) && Gone(s, p)
    ensures Gone(Apply(c, s, e), p)
  {
    if e.Commit? {
      CommitEffect(c, s, e.t, e.f, e.v);
    }
  }

  /** A version once deleted never comes back, however the run goes on. */
  lemma {:induction false} GoneForever(c: Config, es: seq<Event>, more: seq<Event>, p: VersionId)
    requires c.Valid() && Exec(c, es + more).Some?
    requires Exec(c, es).Some? && Gone(Exec(c, es).value, p)
    ensures Gone(Exec(c, es + more).value, p)
  {
    if more == [] {
      assert es + more == es;
    } else {
      var before := more[..|more| - 1];
      assert (es + more)[..|es + more| - 1] == es + before;
      GoneForever(c, es, before, p);
      RunsAreConsistent(c, es + before);
      StepKeepsGone(c, Exec(c, es + before).value, (es + more)[|es + more| - 1], p);
    }
  }

  /** Two updates that remembered the same version, with anything in between: the first leaves it deleted, and the
      second takes nothing off the counts and removes no version. */
  lemma SharedPreviousIsDroppedOnce(c: Config, es: seq<Event>, s: State, first: Event, more: seq<Event>,
                                    s2: State, second: Event, p: VersionId)
    requires c.Valid() && Exec(c, es) == Some(s) && Exec(c, es + [first] + more) == Some(s2)
    requires first.Commit? && Enabled(c, s, first) && s.tasks[first.t].prev == Some(p)
    requires second.Commit? && Enabled(c, s2, second) && s2.tasks[second.t].prev == Some(p)
    ensures p !in Apply(c, s, first).meta.versions && p !in s2.meta.versions
    ensures var m, u := Apply(c, s2, second).meta, s2.tasks[second.t];
            && m.refcounts == Bump(s2.meta.refcounts, Hashes(c, u.body))
            && m.versions == s2.meta.versions[second.v := Version(second.f, |u.body|, Hashes(c, u.body))]
  {
    RunsAreConsistent(c, es);
    CommitEffect(c, s, first.t, first.f, first.v);
    assert IsUpload(s, first.t) && Remembers(s, s.tasks[first.t]);
    ExecSnoc(c, es, first);
    assert Gone(Apply(c, s, first), p);
    GoneForever(c, es + [first], more, p);
    RunsAreConsistent(c, es + [first] + more);
    SecondDeleteDoesNothing(c, s2, second, p);
  }

  lemma SecondDeleteDoesNothing(c: Config, s: State, e: Event, p: VersionId)
    requires c.Valid() && Consistent(s) && e.Commit? && Enabled(c, s, e)
    requires s.tasks[e.t].prev == Some(p) && p !in s.meta.versions && p in s.versionIds
    ensures var m, u := Apply(c, s, e).meta, s.tasks[e.t];
            && m.refcounts == Bump(s.meta.refcounts, Hashes(c, u.body))
            && m.versions == s.meta.versions[e.v := Version(e.f, |u.body|, Hashes(c, u.body))]
  {
    CommitEffect(c, s, e.t, e.f, e.v);
    assert IsUpload(s, e.t) && Remembers(s, s.tasks[e.t]);
  }

  // ---------- versions nobody will delete ----------

  /** Live, but not current, and no update in progress will delete it. */
  ghost predicate Stranded(s: State, p: VersionId) {
    && p in s.meta.versions
    && (forall f :: f in s.meta.files ==> s.meta.files[f] != Some(p))
    && (forall t :: IsUpload(s, t) ==> s.tasks[t].prev != Some(p))
  }

  /** An update replaces the current version. It deletes it too exactly when it is the one it remembered, and leaves
      it stranded exactly when nobody remembers it. */
  lemma UpdateStrandsIff(c: Config, s: State, t: TaskId, f: FileId, v: VersionId)
    requires c.Valid() && Consistent(s) && Enabled(c, s, Commit(t, f, v)) && f in s.meta.files
    ensures var after, current := Apply(c, s, Commit(t, f, v)), s.meta.files[f].value;
            && after.meta.files[f] == Some(v) && v != current
            && (current in after.meta.versions <==> s.tasks[t].prev != Some(current))
            && (Stranded(after, current) <==> forall u :: IsUpload(s, u) ==> s.tasks[u].prev != Some(current))
  {
    CommitEffect(c, s, t, f, v);
    var after, current := Apply(c, s, Commit(t, f, v)), s.meta.files[f].value;
    assert forall u :: IsUpload(after, u) <==> IsUpload(s, u) && u != t;
    assert IsUpload(s, t);
    forall g | g in after.meta.files ensures after.meta.files[g] != Some(current) {
      if g != f {
        assert s.meta.versions[s.meta.files[g].value].file == g && s.meta.versions[current].file == f;
      }
    }
  }

  // ---------- exactly when nothing is ever stranded ----------

  ghost predicate NothingStranded(s: State) {
    forall p :: p in s.meta.versions ==> !Stranded(s, p)
  }

  ghost predicate RememberedByAnother(s: State, t: TaskId, p: VersionId) {
    exists u :: u != t && IsUpload(s, u) && s.tasks[u].prev == Some(p)
  }

  predicate IsCurrent(m: Meta, p: VersionId) {
    exists f :: f in m.files && m.files[f] == Some(p)
  }

  /** If upload t ends without a commit, nobody needs its memory: it remembers nothing, a dead version, the current
      one, or one that another update remembers too. */
  ghost predicate MayForget(s: State, t: TaskId)
    requires IsUpload(s, t)
  {
    s.tasks[t].prev.Some? ==>
      var p := s.tasks[t].prev.value;
      p !in s.meta.versions || IsCurrent(s.meta, p) || RememberedByAnother(s, t, p)
  }

  /** A commit that supersedes a version it did not remember finds another update remembering it; an upload that
      aborts or misses its quorum may forget what it remembered. */
  ghost predicate LeavesNoneStranded(c: Config, s: State, e: Event)
    requires c.size > 0
  {
    match e
    case Commit(t, f, v) =>
      Enabled(c, s, e) && f in s.meta.files && s.meta.files[f].Some? && s.tasks[t].prev != s.meta.files[f] ==>
        RememberedByAnother(s, t, s.meta.files[f].value)
    case PutDone(t) => Enabled(c, s, e) && |s.tasks[t].acks| < c.w ==> MayForget(s, t)
    case Abort(t) => IsUpload(s, t) ==> MayForget(s, t)
    case _ => true
  }

  /** Who remembers what once upload t is gone. */
  lemma EndStrandsIff(s: State, after: State, t: TaskId)
    requires IsUpload(s, t) && NothingStranded(s) && after.meta == s.meta && after.tasks == s.tasks - {t}
    ensures NothingStranded(after) <==> MayForget(s, t)
  {
    if MayForget(s, t) {
      forall p | p in after.meta.versions ensures !Stranded(after, p) {
        assert !Stranded(s, p);
        if Some(p) == s.tasks[t].prev && RememberedByAnother(s, t, p) {
          var u :| u != t && IsUpload(s, u) && s.tasks[u].prev == Some(p);
          assert IsUpload(after, u);
        } else if u :| IsUpload(s, u) && s.tasks[u].prev == Some(p) {
          assert u != t ==> IsUpload(after, u);
        }
      }
    } else {
      assert Stranded(after, s.tasks[t].prev.value);
    }
  }

  /** A version that was neither superseded nor deleted by a commit is no more stranded than before. */
  lemma OtherVersionNotStranded(c: Config, s: State, t: TaskId, f: FileId, v: VersionId, p: VersionId)
    requires c.Valid() && Consistent(s) && Enabled(c, s, Commit(t, f, v)) && p in s.meta.versions && !Stranded(s, p)
    requires s.tasks[t].prev != Some(p) && (f in s.meta.files ==> s.meta.files[f] != Some(p))
    ensures !Stranded(Apply(c, s, Commit(t, f, v)), p)
  {
    var after := Apply(c, s, Commit(t, f, v));
    CommitEffect(c, s, t, f, v);
    if u :| IsUpload(s, u) && s.tasks[u].prev == Some(p) {
      assert IsUpload(after, u) && after.tasks[u] == s.tasks[u];
    } else {
      var g :| g in s.meta.files && s.meta.files[g] == Some(p);
      assert g in after.meta.files && after.meta.files[g] == Some(p);
    }
  }

  lemma CommitStrandsIff(c: Config, s: State, e: Event)
    requires c.Valid() && Consistent(s) && NothingStranded(s) && Enabled(c, s, e) && e.Commit?
    ensures NothingStranded(Apply(c, s, e)) <==> LeavesNoneStranded(c, s, e)
  {
    var after, t := Apply(c, s, e), e.t;
    CommitEffect(c, s, t, e.f, e.v);
    assert after.meta.files[e.f] == Some(e.v);
    forall p | p in after.meta.versions && p != e.v && (e.f in s.meta.files ==> s.meta.files[e.f] != Some(p))
      ensures !Stranded(after, p)
    {
      OtherVersionNotStranded(c, s, t, e.f, e.v, p);
    }
    if e.f in s.meta.files {
      var current := s.meta.files[e.f].value;
      UpdateStrandsIff(c, s, t, e.f, e.v);
      assert IsUpload(s, t);
      assert RememberedByAnother(s, t, current) || s.tasks[t].prev == Some(current) <==>
             exists u :: IsUpload(s, u) && s.tasks[u].prev == Some(current);
    }
  }

  lemma RemembranceStrandsNothing(s: State, after: State)
    requires NothingStranded(s) && after.meta.files == s.meta.files && after.meta.versions == s.meta.versions
    requires forall u :: IsUpload(s, u) ==> IsUpload(after, u) && after.tasks[u].prev == s.tasks[u].prev
    ensures NothingStranded(after)
  {
    forall p | p in after.meta.versions ensures !Stranded(after, p) {
      assert !Stranded(s, p);
      if u :| IsUpload(s, u) && s.tasks[u].prev == Some(p) {
        assert IsUpload(after, u);
      }
    }
  }

  lemma OtherStepStrandsNothing(c: Config, s: State, e: Event)
    requires c.Valid() && NothingStranded(s) && Enabled(c, s, e)
    requires !e.Commit? && !(e.PutDone? && |s.tasks[e.t].acks| < c.w) && !(e.Abort? && IsUpload(s, e.t))
    ensures NothingStranded(Apply(c, s, e))
  {
    RemembranceStrandsNothing(s, Apply(c, s, e));
  }

  lemma StepStrandsNothingIff(c: Config, s: State, e: Event)
    requires c.Valid() && Consistent(s) && NothingStranded(s) && Enabled(c, s, e)
    ensures NothingStranded(Apply(c, s, e)) <==> LeavesNoneStranded(c, s, e)
  {
    if e.Commit? {
      CommitStrandsIff(c, s, e);
    } else if (e.PutDone? && |s.tasks[e.t].acks| < c.w) || (e.Abort? && IsUpload(s, e.t)) {
      EndStrandsIff(s, Apply(c, s, e), e.t);
    } else {
      OtherStepStrandsNothing(c, s, e);
    }
  }

  ghost predicate EveryStepLeavesNoneStranded(c: Config, es: seq<Event>)
    requires c.size > 0
  {
    es == [] ||
    (EveryStepLeavesNoneStranded(c, es[..|es| - 1]) &&
     (Exec(c, es[..|es| - 1]).Some? ==> LeavesNoneStranded(c, Exec(c, es[..|es| - 1]).value, es[|es| - 1])))
  }

  ghost predicate NeverStranded(c: Config, es: seq<Event>)
    requires c.size > 0
  {
    (Exec(c, es).Some? ==> NothingStranded(Exec(c, es).value)) && (es == [] || NeverStranded(c, es[..|es| - 1]))
  }

  /** No version is ever stranded in a run exactly when every commit that supersedes a version it did not remember
      finds another update remembering it, and every upload that ends without a commit may forget what it remembered.
      */
  lemma {:induction false} NeverStrandedIff(c: Config, es: seq<Event>)
    requires c.Valid() && Exec(c, es).Some?
    ensures NeverStranded(c, es) <==> EveryStepLeavesNoneStranded(c, es)
  {
    if es == [] {
    } else {
      var before := es[..|es| - 1];
      NeverStrandedIff(c, before);
      RunsAreConsistent(c, before);
      if NeverStranded(c, before) {
        assert NothingStranded(Exec(c, before).value);
        StepStrandsNothingIff(c, Exec(c, before).value, es[|es| - 1]);
      }
    }
  }

  // ---------- stranded for good ----------

  lemma StepKeepsStranded(c: Config, s: State, e: Event, p: VersionId)
    requires c.Valid() && Consistent(s) && Enabled(c, s, e) && Stranded(s, p)
    ensures Stranded(Apply(c, s, e), p) && Apply(c, s, e).meta.versions[p] == s.meta.versions[p]
  {
    var after := Apply(c, s, e);
    if e.Commit? {
      CommitEffect(c, s, e.t, e.f, e.v);
    }
    forall t | IsUpload(after, t) ensures after.tasks[t].prev != Some(p) {
      if IsUpload(s, t) {
        assert s.tasks[t].prev != Some(p);
      }
    }
  }

  /** A stranded version stays live, manifest and all, however the run goes on. */
  lemma {:induction false} StrandedForever(c: Config, es: seq<Event>, more: seq<Event>, p: VersionId)
    requires c.Valid() && Exec(c, es + more).Some?
    requires Exec(c, es).Some? && Stranded(Exec(c, es).value, p)
    ensures Stranded(Exec(c, es + more).value, p)
    ensures Exec(c, es + more).value.meta.versions[p] == Exec(c, es).value.meta.versions[p]
  {
    if more == [] {
      assert es + more == es;
    } else {
      var before := more[..|more| - 1];
      assert (es + more)[..|es + more| - 1] == es + before;
      StrandedForever(c, es, before, p);
      RunsAreConsistent(c, es + before);
      StepKeepsStranded(c, Exec(c, es + before).value, (es + more)[|es + more| - 1], p);
    }
  }

  // ---------- two overlapping updates ----------

  /** A file is created; two updates begin, both remembering its first version; both commit. */
  const OVERLAPPING_UPDATES: seq<Event> :=
    [StartPost(0, []), Commit(0, "f", "v1"), StartPut(1, "f", []), StartPut(2, "f", []),
     Commit(1, "f", "v2"), Commit(2, "f", "v3")]

  function Updating(prev: Option<VersionId>): Task {
    Upload(if prev.Some? then Some("f") else None, prev, [], 0, {}, {})
  }

  /** The file's versions, all empty. */
  function Tables(current: VersionId, live: set<VersionId>): Meta {
    Meta(map["f" := Some(current)], map v | v in live :: Version("f", 0, []), map[])
  }

  function Between(c: Config, m: Meta, tasks: map<TaskId, Task>, issued: set<VersionId>): State {
    Initial(c).(meta := m, tasks := tasks, fileIds := {"f"}, versionIds := issued)
  }

  lemma EmptyCommit(c: Config, m: Meta, prev: Option<VersionId>, v: VersionId)
    requires c.size > 0 && m.refcounts == map[] && ("f" in m.files || prev.None?)
    requires forall p :: p in m.versions ==> m.versions[p].chunks == []
    requires prev != Some(v)
    ensures Committed(c, m, Updating(prev), "f", v) ==
            Meta(m.files["f" := Some(v)],
                 m.versions[v := Version("f", 0, [])] - (if prev.Some? then {prev.value} else {}), map[])
  {
    assert Hashes(c, []) == [];
    assert m.files["f" := None]["f" := Some(v)] == m.files["f" := Some(v)];
    assert m.versions[v := Version("f", 0, [])] - {} == m.versions[v := Version("f", 0, [])];
  }

  lemma FirstVersion(c: Config)
    requires c.Valid()
    ensures Exec(c, OVERLAPPING_UPDATES[..2]) == Some(Between(c, Tables("v1", {"v1"}), map[], {"v1"}))
  {
    assert Hashes(c, []) == [];
    var started := Initial(c).(tasks := map[0 := Updating(None)]);
    Then(c, [], Initial(c), StartPost(0, []), started);
    EmptyCommit(c, NO_META, None, "v1");
    assert Tables("v1", {"v1"}).versions == NO_META.versions["v1" := Version("f", 0, [])] - {};
    assert NO_META.files["f" := Some("v1")] == Tables("v1", {"v1"}).files;
    assert started.tasks - {0} == map[] && {} + {"f"} == {"f"} && {} + {"v1"} == {"v1"};
    assert [] + [StartPost(0, [])] == [StartPost(0, [])];
    Then(c, [StartPost(0, [])], started, Commit(0, "f", "v1"), Between(c, Tables("v1", {"v1"}), map[], {"v1"}));
    assert OVERLAPPING_UPDATES[..2] == [StartPost(0, [])] + [Commit(0, "f", "v1")];
  }

  lemma BothBegin(c: Config)
    requires c.Valid()
    ensures Exec(c, OVERLAPPING_UPDATES[..4]) ==
            Some(Between(c, Tables("v1", {"v1"}), map[1 := Updating(Some("v1")), 2 := Updating(Some("v1"))], {"v1"}))
  {
    assert Hashes(c, []) == [];
    FirstVersion(c);
    var s := Between(c, Tables("v1", {"v1"}), map[], {"v1"});
    var one := s.(tasks := map[1 := Updating(Some("v1"))]);
    Then(c, OVERLAPPING_UPDATES[..2], s, StartPut(1, "f", []), one);
    var two := s.(tasks := map[1 := Updating(Some("v1")), 2 := Updating(Some("v1"))]);
    assert one.tasks[2 := Updating(Some("v1"))] == two.tasks;
    Then(c, OVERLAPPING_UPDATES[..2] + [StartPut(1, "f", [])], one, StartPut(2, "f", []), two);
    assert OVERLAPPING_UPDATES[..4] == OVERLAPPING_UPDATES[..2] + [StartPut(1, "f", [])] + [StartPut(2, "f", [])];
  }

  lemma FirstCommits(c: Config)
    requires c.Valid()
    ensures Exec(c, OVERLAPPING_UPDATES[..5]) ==
            Some(Between(c, Tables("v2", {"v2"}), map[2 := Updating(Some("v1"))], {"v1", "v2"}))
  {
    BothBegin(c);
    assert Hashes(c, []) == [];
    var s := Between(c, Tables("v1", {"v1"}), map[1 := Updating(Some("v1")), 2 := Updating(Some("v1"))], {"v1"});
    var after := Between(c, Tables("v2", {"v2"}), map[2 := Updating(Some("v1"))], {"v1", "v2"});
    EmptyCommit(c, s.meta, Some("v1"), "v2");
    assert after.meta.versions == s.meta.versions["v2" := Version("f", 0, [])] - {"v1"};
    assert after.meta.files == s.meta.files["f" := Some("v2")];
    assert s.tasks - {1} == after.tasks && {"f"} + {"f"} == {"f"} && {"v1"} + {"v2"} == {"v1", "v2"};
    Then(c, OVERLAPPING_UPDATES[..4], s, Commit(1, "f", "v2"), after);
    assert OVERLAPPING_UPDATES[..5] == OVERLAPPING_UPDATES[..4] + [Commit(1, "f", "v2")];
  }

  lemma BothCommit(c: Config)
    requires c.Valid()
    ensures Exec(c, OVERLAPPING_UPDATES) == Some(Between(c, Tables("v3", {"v2", "v3"}), map[], {"v1", "v2", "v3"}))
  {
    FirstCommits(c);
    assert Hashes(c, []) == [];
    var s := Between(c, Tables("v2", {"v2"}), map[2 := Updating(Some("v1"))], {"v1", "v2"});
    var after := Between(c, Tables("v3", {"v2", "v3"}), map[], {"v1", "v2", "v3"});
    EmptyCommit(c, s.meta, Some("v1"), "v3");
    assert after.meta.versions == s.meta.versions["v3" := Version("f", 0, [])] - {"v1"};
    assert after.meta.files == s.meta.files["f" := Some("v3")];
    assert s.tasks - {2} == map[] && {"f"} + {"f"} == {"f"} && {"v1", "v2"} + {"v3"} == {"v1", "v2", "v3"};
    Then(c, OVERLAPPING_UPDATES[..5], s, Commit(2, "f", "v3"), after);
    assert OVERLAPPING_UPDATES == OVERLAPPING_UPDATES[..5] + [Commit(2, "f", "v3")];
  }

  /** After this run the version that the first update committed stays live for good, though it is not current. */
  lemma OverlappingUpdatesStrand(c: Config, more: seq<Event>)
    requires c.Valid() && Exec(c, OVERLAPPING_UPDATES + more).Some?
    ensures Exec(c, OVERLAPPING_UPDATES).Some? && Stranded(Exec(c, OVERLAPPING_UPDATES).value, "v2")
    ensures Stranded(Exec(c, OVERLAPPING_UPDATES + more).value, "v2")
  {
    BothCommit(c);
    StrandedForever(c, OVERLAPPING_UPDATES, more, "v2");
  }
}
