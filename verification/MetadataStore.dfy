/** The MetadataStore object: its four tables, and the value they stand for. */
module MetadataStores {
  import opened Types
  import opened Seqs
  import opened Metadata

  datatype VersionRow = VersionRow(file: FileId, size: nat)

  /** The manifest rows of a version are numbered 0, 1, 2, ... and exist only for the given versions. */
  ghost predicate RowsMatch(rows: map<(VersionId, nat), Hash>, manifests: map<VersionId, seq<Hash>>) {
    && (forall row :: row in rows <==> row.0 in manifests && row.1 < |manifests[row.0]|)
    && (forall row :: row in rows ==> rows[row] == manifests[row.0][row.1])
  }

  lemma NoRowsYet(rows: map<(VersionId, nat), Hash>, base: map<VersionId, seq<Hash>>, v: VersionId)
    requires RowsMatch(rows, base) && v !in base
    ensures RowsMatch(rows, base[v := []])
  {
  }

  lemma AppendRow(rows: map<(VersionId, nat), Hash>, base: map<VersionId, seq<Hash>>,
                  v: VersionId, prefix: seq<Hash>, h: Hash)
    requires RowsMatch(rows, base[v := prefix])
    ensures RowsMatch(rows[(v, |prefix|) := h], base[v := prefix + [h]])
  {
  }

  lemma RemoveRows(rows: map<(VersionId, nat), Hash>, manifests: map<VersionId, seq<Hash>>, v: VersionId)
    requires RowsMatch(rows, manifests)
    ensures RowsMatch(map row | row in rows && row.0 != v :: rows[row], manifests - {v})
  {
  }

  /** The version rows with their manifests. */
  function Join(versions: map<VersionId, VersionRow>, manifests: map<VersionId, seq<Hash>>): map<VersionId, Version>
    requires manifests.Keys == versions.Keys
  {
    map v | v in versions :: Version(versions[v].file, versions[v].size, manifests[v])
  }

  lemma JoinWith(versions: map<VersionId, VersionRow>, manifests: map<VersionId, seq<Hash>>,
                 v: VersionId, row: VersionRow, chunks: seq<Hash>)
    requires manifests.Keys == versions.Keys
    ensures Join(versions[v := row], manifests[v := chunks])
         == Join(versions, manifests)[v := Version(row.file, row.size, chunks)]
  {
  }

  lemma JoinWithout(versions: map<VersionId, VersionRow>, manifests: map<VersionId, seq<Hash>>, v: VersionId)
    requires manifests.Keys == versions.Keys
    ensures Join(versions - {v}, manifests - {v}) == Join(versions, manifests) - {v}
  {
  }

  lemma BumpNext(rc: map<Hash, int>, hs: seq<Hash>, i: nat)
    requires i < |hs|
    ensures hs[..i + 1] == hs[..i] + [hs[i]]
    ensures Bump(rc, hs[..i + 1]) == Bump(rc, hs[..i])[hs[i] := Refcount(Bump(rc, hs[..i]), hs[i]) + 1]
  {
    assert hs[..i + 1][..i] == hs[..i];
  }

  class MetadataStore {
    var files: map<FileId, Option<VersionId>>
    var versions: map<VersionId, VersionRow>
    var manifestChunks: map<(VersionId, nat), Hash>
    var chunkRefcounts: map<Hash, int>

    /** Each version's manifest rows, gathered in seq order. */
    ghost var manifests: map<VersionId, seq<Hash>>

    ghost predicate Valid()
      reads this
    {
      manifests.Keys == versions.Keys && RowsMatch(manifestChunks, manifests)
    }

    ghost function View(): Meta
      reads this
      requires Valid()
    {
      Meta(files, Join(versions, manifests), chunkRefcounts)
    }

    constructor ()
      ensures Valid() && View() == NO_META
    {
      files, versions, manifestChunks, chunkRefcounts, manifests := map[], map[], map[], map[], map[];
    }

    /** fileId is the freshly generated id. */
    method CreateFile(fileId: FileId)
      requires Valid() && fileId !in files
      modifies this
      ensures Valid() && View() == Metadata.CreateFile(old(View()), fileId) && versions == old(versions)
      ensures files == old(files)[fileId := None] && chunkRefcounts == old(chunkRefcounts)
    {
      files := files[fileId := None];
    }

    /** The forEach of commitVersion: one manifest row and one count for each chunk, in order. */
    method InsertManifest(versionId: VersionId, chunkHashes: seq<Hash>)
      requires RowsMatch(manifestChunks, manifests) && versionId !in manifests
      modifies this`manifestChunks, this`manifests, this`chunkRefcounts
      ensures manifests == old(manifests)[versionId := chunkHashes]
      ensures RowsMatch(manifestChunks, manifests)
      ensures chunkRefcounts == Bump(old(chunkRefcounts), chunkHashes)
    {
      ghost var base := manifests;
      NoRowsYet(manifestChunks, base, versionId);
      for i := 0 to |chunkHashes|
        invariant manifests == base
        invariant RowsMatch(manifestChunks, base[versionId := chunkHashes[..i]])
        invariant chunkRefcounts == Bump(old(chunkRefcounts), chunkHashes[..i])
      {
        var hash := chunkHashes[i];
        BumpNext(old(chunkRefcounts), chunkHashes, i);
        AppendRow(manifestChunks, base, versionId, chunkHashes[..i], hash);
        manifestChunks := manifestChunks[(versionId, i) := hash];
        chunkRefcounts := chunkRefcounts[hash := Refcount(chunkRefcounts, hash) + 1];
      }
      assert chunkHashes[..|chunkHashes|] == chunkHashes;
      manifests := manifests[versionId := chunkHashes];
    }

    /** versionId is the freshly generated id. */
    method CommitVersion(fileId: FileId, chunkHashes: seq<Hash>, totalSize: nat, versionId: VersionId)
      returns (ok: bool)
      requires Valid() && versionId !in versions
      modifies this
      ensures Valid() && ok == (fileId in old(files))
      ensures View() == Metadata.CommitVersion(old(View()), fileId, versionId, chunkHashes, totalSize)
      ensures ok ==> files == old(files)[fileId := Some(versionId)]
      ensures !ok ==> View() == old(View())
    {
      if fileId !in files {
        return false;
      }
      JoinWith(versions, manifests, versionId, VersionRow(fileId, totalSize), chunkHashes);
      versions := versions[versionId := VersionRow(fileId, totalSize)];
      InsertManifest(versionId, chunkHashes);
      files := files[fileId := Some(versionId)];
      return true;
    }

    method GetFile(fileId: FileId) returns (row: Option<Option<VersionId>>)
      ensures row == if fileId in files then Some(files[fileId]) else None
    {
      row := if fileId in files then Some(files[fileId]) else None;
    }

    method GetVersion(versionId: VersionId) returns (version: Option<Version>)
      requires Valid()
      ensures version == if versionId in View().versions then Some(View().versions[versionId]) else None
    {
      if versionId !in versions {
        return None;
      }
      var chunks: seq<Hash> := [];
      while (versionId, |chunks|) in manifestChunks
        invariant |chunks| <= |manifests[versionId]| && chunks == manifests[versionId][..|chunks|]
        decreases |manifests[versionId]| - |chunks|
      {
        chunks := chunks + [manifestChunks[(versionId, |chunks|)]];
      }
      assert manifests[versionId][..|manifests[versionId]|] == manifests[versionId];
      version := Some(Version(versions[versionId].file, versions[versionId].size, chunks));
    }

    method GetRefcount(chunkHash: Hash) returns (n: int)
      requires Valid()
      ensures n == Refcount(View().refcounts, chunkHash)
    {
      n := if chunkHash in chunkRefcounts then chunkRefcounts[chunkHash] else 0;
    }

    /** The orphaned chunks, each once, in whatever order the database yields them. */
    method ListOrphanedChunks() returns (orphaned: seq<Hash>)
      requires Valid()
      ensures NoDup(orphaned) && Elems(orphaned) == Orphans(View())
      ensures forall h :: h in orphaned <==> h in chunkRefcounts && chunkRefcounts[h] <= 0
    {
      orphaned := [];
      var rows := chunkRefcounts.Keys;
      while rows != {}
        invariant rows <= chunkRefcounts.Keys && NoDup(orphaned)
        invariant forall h :: h in orphaned <==> h in chunkRefcounts && h !in rows && chunkRefcounts[h] <= 0
        decreases rows
      {
        var h :| h in rows;
        if chunkRefcounts[h] <= 0 {
          orphaned := orphaned + [h];
        }
        rows := rows - {h};
      }
    }

    method ReapOrphanedChunk(chunkHash: Hash)
      requires Valid()
      modifies this
      ensures Valid() && View() == Reap(old(View()), chunkHash)
    {
      chunkRefcounts := chunkRefcounts - {chunkHash};
    }

    method DecrementRefcounts(chunkHashes: seq<Hash>)
      requires Valid()
      modifies this
      ensures Valid() && View() == old(View()).(refcounts := Drop(old(View()).refcounts, chunkHashes))
    {
      for i := 0 to |chunkHashes|
        invariant Valid() && manifests == old(manifests) && files == old(files) && versions == old(versions)
        invariant chunkRefcounts == Drop(old(chunkRefcounts), chunkHashes[..i])
      {
        var hash := chunkHashes[i];
        assert chunkHashes[..i + 1][..i] == chunkHashes[..i];
        if hash in chunkRefcounts {
          chunkRefcounts := chunkRefcounts[hash := chunkRefcounts[hash] - 1];
        }
      }
      assert chunkHashes[..|chunkHashes|] == chunkHashes;
    }

    method DeleteVersion(versionId: VersionId)
      requires Valid()
      modifies this
      ensures Valid() && View() == Metadata.DeleteVersion(old(View()), versionId)
    {
      var version := GetVersion(versionId);
      if version.None? {
        return;
      }
      DecrementRefcounts(version.value.chunks);
      JoinWithout(versions, manifests, versionId);
      RemoveRows(manifestChunks, manifests, versionId);
      manifestChunks := map row | row in manifestChunks && row.0 != versionId :: manifestChunks[row];
      versions := versions - {versionId};
      manifests := manifests - {versionId};
    }
  }
}
