/** The metadata tables as a value, and the reference count invariant that garbage collection relies on. */
module Metadata {
  import opened Types

  /** A versions row together with its manifest, in seq order. */
  datatype Version = Version(file: FileId, size: nat, chunks: seq<Hash>)

  datatype Meta = Meta(
    files: map<FileId, Option<VersionId>>,
    versions: map<VersionId, Version>,
    refcounts: map<Hash, int>)

  const NO_META := Meta(map[], map[], map[])

  function Refcount(rc: map<Hash, int>, h: Hash): int {
    if h in rc then rc[h] else 0
  }

  /** One upsert per chunk of a manifest, in order. */
  function Bump(rc: map<Hash, int>, hs: seq<Hash>): map<Hash, int> {
    if hs == [] then rc
    else
      var r, h := Bump(rc, hs[..|hs| - 1]), hs[|hs| - 1];
      r[h := Refcount(r, h) + 1]
  }

  /** One decrement per chunk of a manifest; a missing row is left missing. */
  function Drop(rc: map<Hash, int>, hs: seq<Hash>): map<Hash, int> {
    if hs == [] then rc
    else
      var r, h := Drop(rc, hs[..|hs| - 1]), hs[|hs| - 1];
      if h in r then r[h := r[h] - 1] else r
  }

  function CreateFile(m: Meta, f: FileId): Meta {
    m.(files := m.files[f := None])
  }

  /** The foreign key refuses a version of an unknown file before anything is written. */
  function CommitVersion(m: Meta, f: FileId, v: VersionId, hs: seq<Hash>, size: nat): Meta {
    if f !in m.files then m
    else Meta(m.files[f := Some(v)], m.versions[v := Version(f, size, hs)], Bump(m.refcounts, hs))
  }

  function DeleteVersion(m: Meta, v: VersionId): Meta {
    if v !in m.versions then m
    else m.(versions := m.versions - {v}, refcounts := Drop(m.refcounts, m.versions[v].chunks))
  }

  function Orphans(m: Meta): set<Hash> {
    set h | h in m.refcounts && m.refcounts[h] <= 0
  }

  function Reap(m: Meta, h: Hash): Meta {
    m.(refcounts := m.refcounts - {h})
  }

  /** A file's current version, if it has one, is a live version of that file. */
  ghost predicate CurrentsAreLive(m: Meta) {
    forall f :: f in m.files && m.files[f].Some? ==>
      m.files[f].value in m.versions && m.versions[m.files[f].value].file == f
  }

  /** A new file has no version to point at, a commit points the file at a version it has just added, and a deletion
      keeps this right exactly when it deletes no file's current version. */
  lemma CurrentsStayLiveIff(m: Meta, f: FileId, v: VersionId, hs: seq<Hash>, size: nat)
    requires CurrentsAreLive(m)
    ensures f !in m.files ==> CurrentsAreLive(CreateFile(m, f))
    ensures v !in m.versions ==> CurrentsAreLive(CommitVersion(m, f, v, hs, size))
    ensures CurrentsAreLive(DeleteVersion(m, v)) <==>
            v !in m.versions || m.versions[v].file !in m.files || m.files[m.versions[v].file] != Some(v)
  {
    if v in m.versions {
      assert forall g :: g in m.files && m.files[g] == Some(v) ==> g == m.versions[v].file;
    }
  }

  // ---------- what the counts mean ----------

  /** Every reference of every live manifest, repeats included. */
  ghost function AllRefs(versions: map<VersionId, Version>): multiset<Hash>
    decreases |versions|
  {
    if versions == map[] then multiset{}
    else
      var v :| v in versions;
      multiset(versions[v].chunks) + AllRefs(versions - {v})
  }

  /** Each count is the chunk's multiplicity over all live manifests; no row means no reference. */
  ghost predicate Counted(m: Meta) {
    forall h :: Refcount(m.refcounts, h) == AllRefs(m.versions)[h]
  }

  lemma {:induction false} AllRefsWithout(versions: map<VersionId, Version>, v: VersionId)
    requires v in versions
    ensures AllRefs(versions) == multiset(versions[v].chunks) + AllRefs(versions - {v})
    decreases |versions|
  {
    var w :| w in versions && AllRefs(versions) == multiset(versions[w].chunks) + AllRefs(versions - {w});
    if w != v {
      AllRefsWithout(versions - {w}, v);
      AllRefsWithout(versions - {v}, w);
      assert versions - {w} - {v} == versions - {v} - {w};
    }
  }

  lemma AllRefsWith(versions: map<VersionId, Version>, v: VersionId, version: Version)
    requires v !in versions
    ensures AllRefs(versions[v := version]) == multiset(version.chunks) + AllRefs(versions)
  {
    AllRefsWithout(versions[v := version], v);
    assert versions[v := version] - {v} == versions;
  }

  lemma {:induction false} ReferencedSomewhere(versions: map<VersionId, Version>, h: Hash)
    ensures h in AllRefs(versions) <==> exists v :: v in versions && h in versions[v].chunks
    decreases |versions|
  {
    if versions == map[] {
    } else {
      var v :| v in versions;
      AllRefsWithout(versions, v);
      ReferencedSomewhere(versions - {v}, h);
      assert h in multiset(versions[v].chunks) <==> h in versions[v].chunks;
      if exists w :: w in versions && h in versions[w].chunks {
        var w :| w in versions && h in versions[w].chunks;
        assert w != v ==> w in versions - {v};
      }
    }
  }

  lemma {:induction false} BumpCounts(rc: map<Hash, int>, hs: seq<Hash>)
    ensures Bump(rc, hs).Keys == rc.Keys + set h | h in hs
    ensures forall h :: Refcount(Bump(rc, hs), h) == Refcount(rc, h) + multiset(hs)[h]
  {
    if hs == [] {
    } else {
      BumpCounts(rc, hs[..|hs| - 1]);
      assert hs == hs[..|hs| - 1] + [hs[|hs| - 1]];
    }
  }

  lemma {:induction false} DropCounts(rc: map<Hash, int>, hs: seq<Hash>)
    ensures Drop(rc, hs).Keys == rc.Keys
    ensures forall h :: h in rc ==> Drop(rc, hs)[h] == rc[h] - multiset(hs)[h]
  {
    if hs == [] {
    } else {
      DropCounts(rc, hs[..|hs| - 1]);
      assert hs == hs[..|hs| - 1] + [hs[|hs| - 1]];
    }
  }

  lemma CommitKeepsCounts(m: Meta, f: FileId, v: VersionId, hs: seq<Hash>, size: nat)
    requires Counted(m) && v !in m.versions
    ensures Counted(CommitVersion(m, f, v, hs, size))
  {
    BumpCounts(m.refcounts, hs);
    AllRefsWith(m.versions, v, Version(f, size, hs));
  }

  lemma DeleteKeepsCounts(m: Meta, v: VersionId)
    requires Counted(m)
    ensures Counted(DeleteVersion(m, v))
  {
    if v in m.versions {
      DropCounts(m.refcounts, m.versions[v].chunks);
      AllRefsWithout(m.versions, v);
    }
  }

  /** Reaping is unconditional in the code; it keeps the counts right exactly for an unreferenced chunk. */
  lemma ReapKeepsCountsIff(m: Meta, h: Hash)
    requires Counted(m)
    ensures Counted(Reap(m, h)) <==> h !in AllRefs(m.versions)
  {
    if h !in AllRefs(m.versions) {
      assert forall k :: k != h ==> Refcount(Reap(m, h).refcounts, k) == Refcount(m.refcounts, k);
    } else {
      assert Refcount(Reap(m, h).refcounts, h) == 0;
    }
  }

  /** Orphans are exactly the rows of unreferenced chunks. */
  lemma OrphansAreUnreferenced(m: Meta)
    requires Counted(m)
    ensures Orphans(m) == set h | h in m.refcounts && h !in AllRefs(m.versions)
  {
    forall h | h in m.refcounts ensures m.refcounts[h] <= 0 <==> h !in AllRefs(m.versions) {
      assert Refcount(m.refcounts, h) == AllRefs(m.versions)[h];
    }
  }

  ghost function Total(rc: map<Hash, int>): int
    decreases |rc|
  {
    if rc == map[] then 0
    else
      var h :| h in rc;
      rc[h] + Total(rc - {h})
  }

  /** The total length of the live manifests. */
  ghost function TotalLength(versions: map<VersionId, Version>): nat
    decreases |versions|
  {
    if versions == map[] then 0
    else
      var v :| v in versions;
      |versions[v].chunks| + TotalLength(versions - {v})
  }

  lemma {:induction false} TotalOfMultiplicities(rc: map<Hash, int>, refs: multiset<Hash>)
    requires forall h :: Refcount(rc, h) == refs[h]
    ensures Total(rc) == |refs|
    decreases |rc|
  {
    if rc == map[] {
      assert forall h :: refs[h] == Refcount(rc, h) == 0;
      assert refs == multiset{};
    } else {
      var h :| h in rc && Total(rc) == rc[h] + Total(rc - {h});
      var rest := refs[h := 0];
      forall k ensures Refcount(rc - {h}, k) == rest[k] {
        assert Refcount(rc, k) == refs[k];
      }
      TotalOfMultiplicities(rc - {h}, rest);
      assert Refcount(rc, h) == refs[h];
      assert refs == rest[h := refs[h]];
    }
  }

  lemma {:induction false} RefsHaveTotalLength(versions: map<VersionId, Version>)
    ensures |AllRefs(versions)| == TotalLength(versions)
    decreases |versions|
  {
    if versions == map[] {
    } else {
      var v :| v in versions && TotalLength(versions) == |versions[v].chunks| + TotalLength(versions - {v});
      AllRefsWithout(versions, v);
      RefsHaveTotalLength(versions - {v});
    }
  }

  /** Counts are never negative and add up to the total length of the live manifests. */
  lemma CountsAddUp(m: Meta)
    requires Counted(m)
    ensures forall h :: h in m.refcounts ==> m.refcounts[h] >= 0
    ensures Total(m.refcounts) == TotalLength(m.versions)
  {
    forall h | h in m.refcounts ensures m.refcounts[h] >= 0 {
      assert Refcount(m.refcounts, h) == AllRefs(m.versions)[h];
    }
    TotalOfMultiplicities(m.refcounts, AllRefs(m.versions));
    RefsHaveTotalLength(m.versions);
  }
}
