/** One storage node's chunk store: a directory of files named by the digest of their contents. */
module ChunkStores {
  import opened Types

  /** The files visible at their final paths. */
  type Disk = map<Hash, Bytes>

  datatype PutResult = Written | Deduped | Mismatch(actual: Hash) | BadPutName

  datatype GetResult = Chunk(buf: Bytes) | Absent | CorruptCopy(actual: Hash) | BadGetName

  /** 64 lower-case hexadecimal digits. */
  predicate ValidName(name: string) {
    |name| == 64 && forall c :: c in name ==> '0' <= c <= '9' || 'a' <= c <= 'f'
  }

  function PutOutcome(disk: Disk, name: string, buf: Bytes, sha: Bytes -> Hash): PutResult {
    if sha(buf) != name then Mismatch(sha(buf))
    else if !ValidName(name) then BadPutName
    else if name in disk then Deduped
    else Written
  }

  /** The directory after put: only a first write changes it. */
  function DiskAfterPut(disk: Disk, name: string, buf: Bytes, sha: Bytes -> Hash): Disk {
    if PutOutcome(disk, name, buf, sha).Written? then disk[name := buf] else disk
  }

  function GetOutcome(disk: Disk, name: string, sha: Bytes -> Hash): GetResult {
    if !ValidName(name) then BadGetName
    else if name !in disk then Absent
    else if sha(disk[name]) != name then CorruptCopy(sha(disk[name]))
    else Chunk(disk[name])
  }

  ghost function DiskBytes(disk: Disk): nat
    decreases |disk|
  {
    if disk == map[] then 0
    else
      var h :| h in disk;
      |disk[h]| + DiskBytes(disk - {h})
  }

  lemma {:induction false} DiskBytesWithout(disk: Disk, h: Hash)
    requires h in disk
    ensures DiskBytes(disk) == |disk[h]| + DiskBytes(disk - {h}) && DiskBytes(map[]) == 0
    decreases |disk|
  {
    var g :| g in disk && DiskBytes(disk) == |disk[g]| + DiskBytes(disk - {g});
    if g != h {
      DiskBytesWithout(disk - {g}, h);
      DiskBytesWithout(disk - {h}, g);
      assert disk - {g} - {h} == disk - {h} - {g};
    }
  }

  /** Every file hashes to its name. */
  ghost predicate Intact(disk: Disk, sha: Bytes -> Hash) {
    forall h :: h in disk ==> sha(disk[h]) == h
  }

  /** A put that is not refused makes the chunk readable, unless a corrupt copy was already there. */
  lemma PutThenGet(disk: Disk, name: string, buf: Bytes, sha: Bytes -> Hash)
    requires PutOutcome(disk, name, buf, sha).Written? || PutOutcome(disk, name, buf, sha).Deduped?
    ensures var after := DiskAfterPut(disk, name, buf, sha);
            && (name in disk && sha(disk[name]) != name <==> GetOutcome(after, name, sha).CorruptCopy?)
            && (!GetOutcome(after, name, sha).CorruptCopy? ==>
                  GetOutcome(after, name, sha).Chunk? && sha(GetOutcome(after, name, sha).buf) == sha(buf))
    ensures forall other :: other != name ==>
              GetOutcome(DiskAfterPut(disk, name, buf, sha), other, sha) == GetOutcome(disk, other, sha)
  {
  }

  /** Nothing is found in an empty store, nor under a name just deleted; no other name's answer changes. */
  lemma DeletedIsAbsent(disk: Disk, name: string, sha: Bytes -> Hash)
    requires ValidName(name)
    ensures GetOutcome(map[], name, sha) == Absent
    ensures GetOutcome(disk - {name}, name, sha) == Absent
    ensures forall other :: other != name ==> GetOutcome(disk - {name}, other, sha) == GetOutcome(disk, other, sha)
  {
  }

  class ChunkStore {
    const sha: Bytes -> Hash
    var files: Disk
    var temps: map<string, Bytes>

    constructor (sha: Bytes -> Hash)
      ensures this.sha == sha && files == map[] && temps == map[]
    {
      this.sha := sha;
      files, temps := map[], map[];
    }

    method Has(name: string) returns (r: Option<bool>)
      ensures r == if ValidName(name) then Some(name in files) else None
    {
      r := if ValidName(name) then Some(name in files) else None;
    }

    /** tmp is the freshly generated temporary name. */
    method Put(name: string, buf: Bytes, tmp: string) returns (r: PutResult)
      requires tmp !in temps
      modifies this
      ensures r == PutOutcome(old(files), name, buf, sha)
      ensures files == DiskAfterPut(old(files), name, buf, sha) && temps == old(temps)
      ensures match r
              case Mismatch(actual) => actual == sha(buf) != name && files == old(files)
              case BadPutName => sha(buf) == name && !ValidName(name) && files == old(files)
              case Deduped => sha(buf) == name && ValidName(name) && name in old(files) && files == old(files)
              case Written =>
                sha(buf) == name && ValidName(name) && name !in old(files) && files == old(files)[name := buf]
    {
      var actual := sha(buf);
      if actual != name {
        return Mismatch(actual);
      }
      if !ValidName(name) {
        return BadPutName;
      }
      if name in files {
        return Deduped;
      }
      temps := temps[tmp := buf];
      files := files[name := temps[tmp]];
      temps := temps - {tmp};
      return Written;
    }

    method Get(name: string) returns (r: GetResult)
      ensures r == GetOutcome(files, name, sha)
      ensures match r
              case BadGetName => !ValidName(name)
              case Absent => ValidName(name) && name !in files
              case CorruptCopy(actual) => ValidName(name) && name in files && actual == sha(files[name]) != name
              case Chunk(buf) => ValidName(name) && name in files && buf == files[name] && sha(buf) == name
    {
      if !ValidName(name) {
        return BadGetName;
      }
      if name !in files {
        return Absent;
      }
      var buf := files[name];
      var actual := sha(buf);
      if actual != name {
        return CorruptCopy(actual);
      }
      return Chunk(buf);
    }

    method Delete(name: string) returns (deleted: Option<bool>)
      modifies this
      ensures deleted == if ValidName(name) then Some(name in old(files)) else None
      ensures files == (if ValidName(name) then old(files) - {name} else old(files)) && temps == old(temps)
    {
      if !ValidName(name) {
        return None;
      }
      deleted := Some(name in files);
      files := files - {name};
    }

    /** Counts the files and their bytes, in any order; temporary files are skipped. */
    method Stats() returns (chunkCount: nat, totalBytes: nat)
      ensures chunkCount == |files| && totalBytes == DiskBytes(files)
    {
      chunkCount, totalBytes := 0, 0;
      var rest := files;
      while rest != map[]
        invariant chunkCount + |rest| == |files|
        invariant totalBytes + DiskBytes(rest) == DiskBytes(files)
        decreases |rest|
      {
        var h :| h in rest;
        DiskBytesWithout(rest, h);
        chunkCount := chunkCount + 1;
        totalBytes := totalBytes + |rest[h]|;
        rest := rest - {h};
      }
    }
  }
}
