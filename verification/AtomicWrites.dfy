/** The chunk store at the level of file-system steps: writers, readers and deletes interleave and crash freely. */
module AtomicWrites {
  import opened Types
  import opened ChunkStores

  type Pid = nat

  datatype Op =
    | Checking(name: Hash, buf: Bytes)
    | Writing(name: Hash, buf: Bytes, tmp: string)
    | Reading(name: Hash)

  datatype Dir = Dir(files: Disk, temps: map<string, Bytes>, ops: map<Pid, Op>)

  datatype Action =
    | BeginPut(pid: Pid, name: Hash, buf: Bytes)   // digest verified, about to look for the file
    | FoundExisting(pid: Pid)                      // the file is there: deduplicated
    | OpenTemp(pid: Pid, tmp: string)              // it is not: a fresh temporary file
    | WriteUpTo(pid: Pid, length: nat)             // some more of the temporary file reaches the disk
    | Rename(pid: Pid)                             // the complete temporary file takes the final path
    | Crash(pid: Pid)
    | Delete(name: Hash)
    | BeginGet(pid: Pid, name: Hash)               // the file is there, about to be read
    | FinishGet(pid: Pid)

  const EMPTY_DIR := Dir(map[], map[], map[])

  predicate Enabled(d: Dir, a: Action, sha: Bytes -> Hash) {
    match a
    case BeginPut(p, name, buf) => p !in d.ops && sha(buf) == name
    case FoundExisting(p) => p in d.ops && d.ops[p].Checking? && d.ops[p].name in d.files
    case OpenTemp(p, tmp) => p in d.ops && d.ops[p].Checking? && d.ops[p].name !in d.files && tmp !in d.temps
    case WriteUpTo(p, length) =>
      && p in d.ops && d.ops[p].Writing? && d.ops[p].tmp in d.temps
      && |d.temps[d.ops[p].tmp]| <= length <= |d.ops[p].buf|
    case Rename(p) =>
      && p in d.ops && d.ops[p].Writing? && d.ops[p].tmp in d.temps
      && |d.temps[d.ops[p].tmp]| == |d.ops[p].buf|
    case Crash(p) => p in d.ops
    case Delete(name) => true
    case BeginGet(p, name) => p !in d.ops && name in d.files
    case FinishGet(p) => p in d.ops && d.ops[p].Reading?
  }

  function Apply(d: Dir, a: Action, sha: Bytes -> Hash): Dir
    requires Enabled(d, a, sha)
  {
    match a
    case BeginPut(p, name, buf) => d.(ops := d.ops[p := Checking(name, buf)])
    case FoundExisting(p) => d.(ops := d.ops - {p})
    case OpenTemp(p, tmp) =>
      d.(temps := d.temps[tmp := []], ops := d.ops[p := Writing(d.ops[p].name, d.ops[p].buf, tmp)])
    case WriteUpTo(p, length) => d.(temps := d.temps[d.ops[p].tmp := d.ops[p].buf[..length]])
    case Rename(p) =>
      var op := d.ops[p];
      Dir(d.files[op.name := d.temps[op.tmp]], d.temps - {op.tmp}, d.ops - {p})
    case Crash(p) => d.(ops := d.ops - {p})
    case Delete(name) => d.(files := d.files - {name})
    case BeginGet(p, name) => d.(ops := d.ops[p := Reading(name)])
    case FinishGet(p) => d.(ops := d.ops - {p})
  }

  /** What a reader finishing now answers: the bytes, a failed digest check, or a file gone meanwhile. */
  datatype ReadReply = Bytes(buf: Bytes) | BadDigest | Vanished

  function ReplyNow(d: Dir, p: Pid, sha: Bytes -> Hash): ReadReply
    requires p in d.ops && d.ops[p].Reading?
  {
    var name := d.ops[p].name;
    if name !in d.files then Vanished
    else if sha(d.files[name]) != name then BadDigest
    else Bytes(d.files[name])
  }

  predicate Possible(steps: seq<Action>, sha: Bytes -> Hash)
    decreases |steps|, 0
  {
    steps == [] || (Possible(steps[..|steps| - 1], sha)
        && Enabled(Reached(steps[..|steps| - 1], sha), steps[|steps| - 1], sha))
  }

  function Reached(steps: seq<Action>, sha: Bytes -> Hash): Dir
    requires Possible(steps, sha)
    decreases |steps|, 1
  {
    if steps == [] then EMPTY_DIR
    else Apply(Reached(steps[..|steps| - 1], sha), steps[|steps| - 1], sha)
  }

  /** Final files are intact; a writer's temporary file is its own and holds a prefix of its buffer. */
  ghost predicate Sound(d: Dir, sha: Bytes -> Hash) {
    && Intact(d.files, sha)
    && (forall p :: p in d.ops && !d.ops[p].Reading? ==> sha(d.ops[p].buf) == d.ops[p].name)
    && (forall p :: p in d.ops && d.ops[p].Writing? ==>
          d.ops[p].tmp in d.temps && d.temps[d.ops[p].tmp] <= d.ops[p].buf)
    && (forall p, q :: p in d.ops && q in d.ops && p != q && d.ops[p].Writing? && d.ops[q].Writing? ==>
          d.ops[p].tmp != d.ops[q].tmp)
  }

  /** By the time a temporary file may be renamed it holds the whole buffer. */
  lemma RenamedFileIsWhole(d: Dir, p: Pid, sha: Bytes -> Hash)
    requires Sound(d, sha) && Enabled(d, Rename(p), sha)
    ensures d.temps[d.ops[p].tmp] == d.ops[p].buf
  {
    var t, b := d.temps[d.ops[p].tmp], d.ops[p].buf;
    assert t == b[..|t|] == b;
  }

  lemma ApplyKeepsSound(d: Dir, a: Action, sha: Bytes -> Hash)
    requires Sound(d, sha) && Enabled(d, a, sha)
    ensures Sound(Apply(d, a, sha), sha)
  {
    if a.Rename? {
      RenamedFileIsWhole(d, a.pid, sha);
    }
  }

  /** In every reachable state of every interleaving, no torn or misnamed file is visible. */
  lemma {:induction false} NothingTornIsVisible(steps: seq<Action>, sha: Bytes -> Hash)
    requires Possible(steps, sha)
    ensures Sound(Reached(steps, sha), sha)
    decreases |steps|
  {
    if steps == [] {
    } else {
      NothingTornIsVisible(steps[..|steps| - 1], sha);
      ApplyKeepsSound(Reached(steps[..|steps| - 1], sha), steps[|steps| - 1], sha);
    }
  }

  /** The plain map the store stands for: a put installs its whole buffer at one instant, and nothing else adds. */
  ghost predicate MapStep(before: Disk, after: Disk, d: Dir, a: Action) {
    match a
    case Rename(p) => p in d.ops && d.ops[p].Writing? && after == before[d.ops[p].name := d.ops[p].buf]
    case Delete(name) => after == before - {name}
    case _ => after == before
  }

  /** Each step is one atomic map operation or none, a finished put leaves exactly its own bytes readable, one that
      finds the file writes nothing, and a read answers with what the map holds at that instant, never a failed
      digest. */
  lemma {:induction false} RefinesPlainMap(steps: seq<Action>, a: Action, sha: Bytes -> Hash)
    requires Possible(steps + [a], sha)
    ensures Possible(steps, sha)
    ensures var d, e := Reached(steps, sha), Reached(steps + [a], sha);
            && Enabled(d, a, sha)
            && MapStep(d.files, e.files, d, a)
            && (a.Rename? || a.FoundExisting? ==>
                  var op := d.ops[a.pid];
                  op.name in e.files && sha(e.files[op.name]) == sha(op.buf))
            && (a.OpenTemp? ==> d.ops[a.pid].name !in d.files)
            && (a.FoundExisting? ==> e.files == d.files && e.temps == d.temps)
            && (a.FinishGet? ==>
                  var name := d.ops[a.pid].name;
                  ReplyNow(d, a.pid, sha) == if name in d.files then Bytes(d.files[name]) else Vanished)
  {
    assert (steps + [a])[..|steps|] == steps;
    NothingTornIsVisible(steps, sha);
    if a.Rename? {
      RenamedFileIsWhole(Reached(steps, sha), a.pid, sha);
    }
  }
  // ---------- one put on its own ----------

  /** The steps of a put that nothing interrupts. */
  function PutSteps(files: Disk, p: Pid, name: Hash, buf: Bytes, tmp: string): seq<Action> {
    if name in files then [BeginPut(p, name, buf), FoundExisting(p)]
    else [BeginPut(p, name, buf), OpenTemp(p, tmp), WriteUpTo(p, |buf|), Rename(p)]
  }

  lemma OneMoreStep(steps: seq<Action>, a: Action, sha: Bytes -> Hash)
    requires Possible(steps, sha) && Enabled(Reached(steps, sha), a, sha)
    ensures Possible(steps + [a], sha) && Reached(steps + [a], sha) == Apply(Reached(steps, sha), a, sha)
  {
    assert (steps + [a])[..|steps|] == steps;
  }

  lemma FindAlone(steps: seq<Action>, p: Pid, name: Hash, buf: Bytes, sha: Bytes -> Hash)
    requires Possible(steps, sha) && p !in Reached(steps, sha).ops && sha(buf) == name
    requires name in Reached(steps, sha).files
    ensures var all := steps + [BeginPut(p, name, buf), FoundExisting(p)];
            Possible(all, sha) && Reached(all, sha) == Reached(steps, sha)
  {
    var d := Reached(steps, sha);
    var begun := steps + [BeginPut(p, name, buf)];
    OneMoreStep(steps, BeginPut(p, name, buf), sha);
    assert d.ops[p := Checking(name, buf)] - {p} == d.ops;
    OneMoreStep(begun, FoundExisting(p), sha);
    assert begun + [FoundExisting(p)] == steps + [BeginPut(p, name, buf), FoundExisting(p)];
  }

  lemma OpenAlone(steps: seq<Action>, p: Pid, name: Hash, buf: Bytes, tmp: string, sha: Bytes -> Hash)
    requires Possible(steps, sha) && p !in Reached(steps, sha).ops && tmp !in Reached(steps, sha).temps
    requires sha(buf) == name && name !in Reached(steps, sha).files
    ensures var d, all := Reached(steps, sha), steps + [BeginPut(p, name, buf), OpenTemp(p, tmp)];
            && Possible(all, sha)
            && Reached(all, sha) == Dir(d.files, d.temps[tmp := []], d.ops[p := Writing(name, buf, tmp)])
  {
    var begun := steps + [BeginPut(p, name, buf)];
    OneMoreStep(steps, BeginPut(p, name, buf), sha);
    OneMoreStep(begun, OpenTemp(p, tmp), sha);
    assert begun + [OpenTemp(p, tmp)] == steps + [BeginPut(p, name, buf), OpenTemp(p, tmp)];
  }

  lemma FillAndRename(steps: seq<Action>, d: Dir, p: Pid, name: Hash, buf: Bytes, tmp: string, sha: Bytes -> Hash)
    requires Possible(steps, sha) && p !in d.ops && tmp !in d.temps
    requires Reached(steps, sha) == Dir(d.files, d.temps[tmp := []], d.ops[p := Writing(name, buf, tmp)])
    ensures var all := steps + [WriteUpTo(p, |buf|), Rename(p)];
            Possible(all, sha) && Reached(all, sha) == d.(files := d.files[name := buf])
  {
    var filled := steps + [WriteUpTo(p, |buf|)];
    OneMoreStep(steps, WriteUpTo(p, |buf|), sha);
    assert buf[..|buf|] == buf;
    OneMoreStep(filled, Rename(p), sha);
    var e := Reached(filled, sha);
    assert e.temps - {tmp} == d.temps && e.ops - {p} == d.ops;
    assert filled + [Rename(p)] == steps + [WriteUpTo(p, |buf|), Rename(p)];
  }

  /** From any state, whatever else is in progress, they can be taken, and leave the files as the put operation does
      and no temporary file behind. */
  lemma PutAlone(steps: seq<Action>, p: Pid, name: Hash, buf: Bytes, tmp: string, sha: Bytes -> Hash)
    requires Possible(steps, sha) && p !in Reached(steps, sha).ops && tmp !in Reached(steps, sha).temps
    requires sha(buf) == name && ValidName(name)
    ensures var d := Reached(steps, sha);
            var all := steps + PutSteps(d.files, p, name, buf, tmp);
            Possible(all, sha) && Reached(all, sha) == d.(files := DiskAfterPut(d.files, name, buf, sha))
  {
    var d := Reached(steps, sha);
    if name in d.files {
      FindAlone(steps, p, name, buf, sha);
    } else {
      var made := steps + [BeginPut(p, name, buf), OpenTemp(p, tmp)];
      OpenAlone(steps, p, name, buf, tmp, sha);
      FillAndRename(made, d, p, name, buf, tmp, sha);
      assert made + [WriteUpTo(p, |buf|), Rename(p)] == steps + PutSteps(d.files, p, name, buf, tmp);
    }
  }
}
