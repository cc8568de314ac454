/** Who relies on which copies: the acknowledgements behind every version and upload, and what faults have taken of
    them. */
module Reliance {
  import opened Types
  import opened ChunkStores
  import opened Metadata
  import opened Placement
  import opened StoreSystem
  import opened Consistency

  datatype Holder = ByUpload(t: TaskId) | ByVersion(v: VersionId)

  /** The holder relies on the node's copy of the chunk. */
  datatype Trust = Trust(holder: Holder, node: NodeId, hash: Hash)

  /** The copies acknowledged to uploads in progress and to the uploads of live versions; and the copies that faults
      took from a holder since it could count on them. */
  datatype Book = Book(relied: set<Trust>, taken: set<Trust>)

  predicate SoundFile(c: Config, disk: Disk, h: Hash) {
    h in disk && c.sha(disk[h]) == h
  }

  predicate SoundCopy(c: Config, s: State, d: NodeId, h: Hash) {
    d in s.disks && SoundFile(c, s.disks[d], h)
  }

  // ---------- keeping the book ----------

  function Except(trusts: set<Trust>, gone: set<Holder>): set<Trust> {
    set r | r in trusts && r.holder !in gone
  }

  function NotAt(trusts: set<Trust>, d: NodeId, h: Hash): set<Trust> {
    set r | r in trusts && !(r.node == d && r.hash == h)
  }

  /** What the upload relied on, now relied on by the version it committed. */
  function Handed(trusts: set<Trust>, t: TaskId, v: VersionId): set<Trust> {
    set r | r in trusts && r.holder == ByUpload(t) :: Trust(ByVersion(v), r.node, r.hash)
  }

  /** Everybody who could count on the copy of h at d: those it was acknowledged to, the live versions that reference
      h, and the uploads that have put h. */
  function Counting(c: Config, s: State, b: Book, d: NodeId, h: Hash): set<Trust>
    requires c.size > 0
  {
    (set r | r in b.relied && r.node == d && r.hash == h)
    + (set v | v in s.meta.versions && h in s.meta.versions[v].chunks :: Trust(ByVersion(v), d, h))
    + (set t | t in s.tasks && s.tasks[t].Upload? && HasPut(c, s.tasks[t], h) :: Trust(ByUpload(t), d, h))
  }

  /** h is among the chunks that the upload has put and left behind. */
  predicate HasPut(c: Config, u: Task, h: Hash)
    requires c.size > 0 && u.Upload?
  {
    exists k :: 0 <= k < u.next && k < |Hashes(c, u.body)| && Hashes(c, u.body)[k] == h
  }

  /** An acknowledgement is a copy to rely on; if the file that was there is bad, a fault has taken it already. */
  function PutBook(c: Config, b: Book, t: TaskId, d: NodeId, h: Hash, disk: Disk, acked: bool): Book {
    var r := Trust(ByUpload(t), d, h);
    var relied := if acked then b.relied + {r} else b.relied;
    if SoundFile(c, disk, h) then Book(relied, NotAt(b.taken, d, h))
    else Book(relied, if acked then b.taken + {r} else b.taken)
  }

  /** A fault takes a copy when it turns a sound one into none. */
  function FaultBook(c: Config, s: State, b: Book, d: NodeId, h: Hash, disk: Disk): Book
    requires c.size > 0 && d in s.disks
  {
    if SoundFile(c, disk, h) then b.(taken := NotAt(b.taken, d, h))
    else if SoundFile(c, s.disks[d], h) then b.(taken := b.taken + Counting(c, s, b, d, h))
    else b
  }

  function CommitBook(b: Book, t: TaskId, prev: Option<VersionId>, v: VersionId): Book {
    var gone := {ByUpload(t)} + if prev.Some? then {ByVersion(prev.value)} else {};
    Book(Except(b.relied, gone) + Handed(b.relied, t, v), Except(b.taken, gone) + Handed(b.taken, t, v))
  }

  function DropUpload(b: Book, t: TaskId): Book {
    Book(Except(b.relied, {ByUpload(t)}), Except(b.taken, {ByUpload(t)}))
  }

  function NextBook(c: Config, s: State, b: Book, e: Event): Book
    requires c.size > 0 && Enabled(c, s, e)
  {
    match e
    case ReplicaPut(t, d, stored, acked) =>
      var u := s.tasks[t];
      var h, data := Hashes(c, u.body)[u.next], Piece(c, u.body, u.next);
      if stored then PutBook(c, b, t, d, h, DiskAfterPut(s.disks[d], h, data, c.sha), acked) else b
    case PutDone(t) => if |s.tasks[t].acks| < c.w then DropUpload(b, t) else b
    case Commit(t, f, v) => CommitBook(b, t, s.tasks[t].prev, v)
    case Fault(d, h, content) => FaultBook(c, s, b, d, h, AfterFault(s.disks[d], h, content))
    case Abort(t) => DropUpload(b, t)
    case _ => b
  }

  function BookOf(c: Config, es: seq<Event>): Book
    requires c.size > 0 && Exec(c, es).Some?
  {
    if es == [] then Book({}, {})
    else NextBook(c, Exec(c, es[..|es| - 1]).value, BookOf(c, es[..|es| - 1]), es[|es| - 1])
  }

  lemma HandedMembers(trusts: set<Trust>, t: TaskId, v: VersionId, r: Trust)
    ensures r in Handed(trusts, t, v) <==> r.holder == ByVersion(v) && Trust(ByUpload(t), r.node, r.hash) in trusts
  {
    var old_ := Trust(ByUpload(t), r.node, r.hash);
    if old_ in trusts && r.holder == ByVersion(v) {
      assert r == Trust(ByVersion(v), old_.node, old_.hash);
    }
  }

  // ---------- uploads stay on course ----------

  ghost predicate OnCourse(c: Config, s: State)
    requires c.size > 0
  {
    forall t :: IsUpload(s, t) ==>
      && s.tasks[t].next <= |Hashes(c, s.tasks[t].body)|
      && s.tasks[t].waiting <= c.Targets(Hashes(c, s.tasks[t].body), s.tasks[t].next)
  }

  lemma StepKeepsOnCourse(c: Config, s: State, e: Event)
    requires c.size > 0 && OnCourse(c, s) && Enabled(c, s, e)
    ensures OnCourse(c, Apply(c, s, e))
  {
    var after := Apply(c, s, e);
    forall t | IsUpload(after, t)
      ensures after.tasks[t].next <= |Hashes(c, after.tasks[t].body)|
      ensures after.tasks[t].waiting <= c.Targets(Hashes(c, after.tasks[t].body), after.tasks[t].next)
    {
      assert IsUpload(s, t) ==> s.tasks[t].waiting <= c.Targets(Hashes(c, s.tasks[t].body), s.tasks[t].next);
    }
  }

  // ---------- every holder is real ----------

  /** The holder is a live version that references the chunk, or an upload in progress that carries it. */
  predicate RealHolder(c: Config, s: State, r: Trust)
    requires c.size > 0
  {
    match r.holder
    case ByVersion(v) => v in s.meta.versions && r.hash in s.meta.versions[v].chunks
    case ByUpload(t) => IsUpload(s, t) && r.hash in Hashes(c, s.tasks[t].body)
  }

  ghost predicate Grounded(c: Config, s: State, b: Book)
    requires c.size > 0
  {
    && (forall r :: r in b.relied ==> RealHolder(c, s, r) && r.node in c.lists(r.hash))
    && (forall r :: r in b.taken ==> RealHolder(c, s, r))
  }

  /** Uploads keep their bodies, or end; versions keep their manifests. */
  ghost predicate SameHolders(c: Config, s: State, after: State) {
    && after.meta.versions == s.meta.versions
    && (forall t :: IsUpload(s, t) ==> IsUpload(after, t) && after.tasks[t].body == s.tasks[t].body)
  }

  lemma GroundedStays(c: Config, s: State, after: State, b: Book)
    requires c.size > 0 && Grounded(c, s, b) && SameHolders(c, s, after)
    ensures Grounded(c, after, b)
  {
    forall r | r in b.relied || r in b.taken ensures RealHolder(c, after, r) {
      assert RealHolder(c, s, r);
    }
  }

  lemma PutKeepsGrounded(c: Config, s: State, b: Book, e: Event)
    requires c.Valid() && OnCourse(c, s) && Grounded(c, s, b) && Enabled(c, s, e) && e.ReplicaPut?
    ensures Grounded(c, Apply(c, s, e), NextBook(c, s, b, e))
  {
    var after, u := Apply(c, s, e), s.tasks[e.t];
    GroundedStays(c, s, after, b);
    assert IsUpload(s, e.t) && e.d in c.Targets(Hashes(c, u.body), u.next);
    assert RealHolder(c, after, Trust(ByUpload(e.t), e.d, Hashes(c, u.body)[u.next]));
  }

  lemma FaultKeepsGrounded(c: Config, s: State, b: Book, e: Event)
    requires c.Valid() && Grounded(c, s, b) && Enabled(c, s, e) && e.Fault?
    ensures Grounded(c, Apply(c, s, e), NextBook(c, s, b, e))
  {
    var after := Apply(c, s, e);
    GroundedStays(c, s, after, b);
    forall r | r in Counting(c, s, b, e.d, e.h) ensures RealHolder(c, after, r) {
      assert r in b.relied || r.holder.ByVersion? || HasPut(c, s.tasks[r.holder.t], e.h);
    }
  }

  lemma EndKeepsGrounded(c: Config, s: State, after: State, b: Book, t: TaskId)
    requires c.size > 0 && Grounded(c, s, b) && after.meta.versions == s.meta.versions
    requires forall u :: IsUpload(s, u) && u != t ==> IsUpload(after, u) && after.tasks[u] == s.tasks[u]
    ensures Grounded(c, after, DropUpload(b, t))
  {
    var dropped := DropUpload(b, t);
    forall r | r in dropped.relied || r in dropped.taken ensures RealHolder(c, after, r) {
      assert RealHolder(c, s, r) && r.holder != ByUpload(t);
    }
  }

  /** A trust after a commit was there before, or was the upload's. */
  lemma CommitHolder(c: Config, s: State, t: TaskId, f: FileId, v: VersionId, r: Trust, old_: Trust)
    requires c.Valid() && Consistent(s) && Enabled(c, s, Commit(t, f, v)) && RealHolder(c, s, old_)
    requires old_.hash == r.hash
    requires if old_.holder == ByUpload(t) then r.holder == ByVersion(v)
             else r.holder == old_.holder && (s.tasks[t].prev.Some? ==> r.holder != ByVersion(s.tasks[t].prev.value))
    ensures RealHolder(c, Apply(c, s, Commit(t, f, v)), r)
  {
    CommitEffect(c, s, t, f, v);
  }

  lemma CommitKeepsGrounded(c: Config, s: State, b: Book, e: Event)
    requires c.Valid() && Consistent(s) && Grounded(c, s, b) && Enabled(c, s, e) && e.Commit?
    ensures Grounded(c, Apply(c, s, e), NextBook(c, s, b, e))
  {
    var after, next := Apply(c, s, e), NextBook(c, s, b, e);
    forall r | r in next.relied || r in next.taken
      ensures RealHolder(c, after, r) && (r in next.relied ==> r.node in c.lists(r.hash))
    {
      HandedMembers(b.relied, e.t, e.v, r);
      HandedMembers(b.taken, e.t, e.v, r);
      var mine := Trust(ByUpload(e.t), r.node, r.hash);
      if r in Handed(b.relied, e.t, e.v) || r in Handed(b.taken, e.t, e.v) {
        CommitHolder(c, s, e.t, e.f, e.v, r, mine);
      } else {
        CommitHolder(c, s, e.t, e.f, e.v, r, r);
      }
    }
  }

  lemma PutDoneKeepsGrounded(c: Config, s: State, b: Book, e: Event)
    requires c.Valid() && Grounded(c, s, b) && Enabled(c, s, e) && e.PutDone?
    ensures Grounded(c, Apply(c, s, e), NextBook(c, s, b, e))
  {
    if |s.tasks[e.t].acks| < c.w {
      EndKeepsGrounded(c, s, Apply(c, s, e), b, e.t);
    } else {
      GroundedStays(c, s, Apply(c, s, e), b);
    }
  }

  lemma OtherKeepsGrounded(c: Config, s: State, b: Book, e: Event)
    requires c.Valid() && Grounded(c, s, b) && Enabled(c, s, e)
    requires !e.ReplicaPut? && !e.Fault? && !e.Commit? && !e.Abort? && !e.PutDone?
    ensures Grounded(c, Apply(c, s, e), NextBook(c, s, b, e))
  {
    GroundedStays(c, s, Apply(c, s, e), b);
  }

  lemma StepKeepsGrounded(c: Config, s: State, b: Book, e: Event)
    requires c.Valid() && Consistent(s) && OnCourse(c, s) && Grounded(c, s, b) && Enabled(c, s, e)
    ensures Grounded(c, Apply(c, s, e), NextBook(c, s, b, e))
  {
    match e
    case ReplicaPut(_, _, _, _) => PutKeepsGrounded(c, s, b, e);
    case Fault(_, _, _) => FaultKeepsGrounded(c, s, b, e);
    case Commit(_, _, _) => CommitKeepsGrounded(c, s, b, e);
    case Abort(t) => EndKeepsGrounded(c, s, Apply(c, s, e), b, t);
    case PutDone(t) => PutDoneKeepsGrounded(c, s, b, e);
    case _ => OtherKeepsGrounded(c, s, b, e);
  }

  // ---------- every version rests on a quorum of acknowledgements ----------

  /** The nodes whose acknowledged copy of h the holder relies on. */
  function Relying(b: Book, holder: Holder, h: Hash): set<NodeId> {
    set r | r in b.relied && r.holder == holder && r.hash == h :: r.node
  }

  lemma RelyingMembers(b: Book, holder: Holder, h: Hash, d: NodeId)
    ensures d in Relying(b, holder, h) <==> Trust(holder, d, h) in b.relied
  {
    if Trust(holder, d, h) in b.relied {
      assert Trust(holder, d, h).node == d;
    }
  }

  ghost predicate UploadBacked(c: Config, b: Book, t: TaskId, u: Task)
    requires c.size > 0 && u.Upload?
  {
    var hashes := Hashes(c, u.body);
    && (forall k :: 0 <= k < u.next && k < |hashes| ==> |Relying(b, ByUpload(t), hashes[k])| >= c.w)
    && (u.next < |hashes| ==> u.acks <= Relying(b, ByUpload(t), hashes[u.next]))
  }

  ghost predicate VersionBacked(c: Config, b: Book, v: VersionId, version: Version) {
    forall h :: h in version.chunks ==> |Relying(b, ByVersion(v), h)| >= c.w
  }

  ghost predicate Backed(c: Config, s: State, b: Book)
    requires c.size > 0
  {
    && (forall v :: v in s.meta.versions ==> VersionBacked(c, b, v, s.meta.versions[v]))
    && (forall t :: IsUpload(s, t) ==> UploadBacked(c, b, t, s.tasks[t]))
  }

  /** What a holder relies on in the first book it relies on in the second. */
  ghost predicate KeepsTrusts(b: Book, next: Book, holder: Holder) {
    forall r :: r in b.relied && r.holder == holder ==> r in next.relied
  }

  lemma RelyingGrows(b: Book, next: Book, holder: Holder, h: Hash)
    requires KeepsTrusts(b, next, holder)
    ensures Relying(b, holder, h) <= Relying(next, holder, h)
    ensures |Relying(b, holder, h)| <= |Relying(next, holder, h)|
  {
    forall d | d in Relying(b, holder, h) ensures d in Relying(next, holder, h) {
      RelyingMembers(b, holder, h, d);
      RelyingMembers(next, holder, h, d);
    }
    SubsetCard(Relying(b, holder, h), Relying(next, holder, h));
  }

  lemma VersionStaysBacked(c: Config, b: Book, next: Book, v: VersionId, version: Version)
    requires VersionBacked(c, b, v, version) && KeepsTrusts(b, next, ByVersion(v))
    ensures VersionBacked(c, next, v, version)
  {
    forall h | h in version.chunks ensures |Relying(next, ByVersion(v), h)| >= c.w {
      RelyingGrows(b, next, ByVersion(v), h);
    }
  }

  lemma UploadStaysBacked(c: Config, b: Book, next: Book, t: TaskId, u: Task)
    requires c.size > 0 && u.Upload? && UploadBacked(c, b, t, u) && KeepsTrusts(b, next, ByUpload(t))
    ensures UploadBacked(c, next, t, u)
  {
    var hashes := Hashes(c, u.body);
    forall k | 0 <= k < |hashes| ensures Relying(b, ByUpload(t), hashes[k]) <= Relying(next, ByUpload(t), hashes[k])
      ensures |Relying(b, ByUpload(t), hashes[k])| <= |Relying(next, ByUpload(t), hashes[k])|
    {
      RelyingGrows(b, next, ByUpload(t), hashes[k]);
    }
  }

  lemma NewUploadBacked(c: Config, b: Book, t: TaskId, target: Option<FileId>, prev: Option<VersionId>, body: Bytes)
    requires c.size > 0
    ensures UploadBacked(c, b, t, Putting(c, target, prev, body, 0))
  {
  }

  /** A chunk whose quorum is in may be left behind. */
  lemma NextChunkBacked(c: Config, b: Book, t: TaskId, u: Task)
    requires c.size > 0 && u.Upload? && UploadBacked(c, b, t, u)
    requires u.next < |Hashes(c, u.body)| && |u.acks| >= c.w
    ensures UploadBacked(c, b, t, Putting(c, u.target, u.prev, u.body, u.next + 1))
  {
    SubsetCard(u.acks, Relying(b, ByUpload(t), Hashes(c, u.body)[u.next]));
  }

  lemma AckedUploadBacked(c: Config, s: State, b: Book, e: Event)
    requires c.Valid() && Backed(c, s, b) && Enabled(c, s, e) && e.ReplicaPut?
    ensures UploadBacked(c, NextBook(c, s, b, e), e.t, Apply(c, s, e).tasks[e.t])
  {
    var u, next := s.tasks[e.t], NextBook(c, s, b, e);
    assert IsUpload(s, e.t) && UploadBacked(c, b, e.t, u);
    UploadStaysBacked(c, b, next, e.t, u);
    RelyingMembers(next, ByUpload(e.t), Hashes(c, u.body)[u.next], e.d);
  }

  lemma PutKeepsBacked(c: Config, s: State, b: Book, e: Event)
    requires c.Valid() && Backed(c, s, b) && Enabled(c, s, e) && e.ReplicaPut?
    ensures Backed(c, Apply(c, s, e), NextBook(c, s, b, e))
  {
    var after, next := Apply(c, s, e), NextBook(c, s, b, e);
    assert b.relied <= next.relied;
    AckedUploadBacked(c, s, b, e);
    forall v | v in after.meta.versions ensures VersionBacked(c, next, v, after.meta.versions[v]) {
      VersionStaysBacked(c, b, next, v, s.meta.versions[v]);
    }
    forall t | IsUpload(after, t) && t != e.t ensures UploadBacked(c, next, t, after.tasks[t]) {
      assert IsUpload(s, t);
      UploadStaysBacked(c, b, next, t, s.tasks[t]);
    }
  }

  /** Holders other than those that are dropped are as they were. */
  lemma OthersStayBacked(c: Config, s: State, after: State, b: Book, next: Book, gone: set<Holder>)
    requires c.size > 0 && Backed(c, s, b)
    requires forall r :: r in b.relied && r.holder !in gone ==> r in next.relied
    ensures forall v :: v in s.meta.versions && ByVersion(v) !in gone ==> VersionBacked(c, next, v, s.meta.versions[v])
    ensures forall t :: IsUpload(s, t) && ByUpload(t) !in gone ==> UploadBacked(c, next, t, s.tasks[t])
  {
    forall v | v in s.meta.versions && ByVersion(v) !in gone ensures VersionBacked(c, next, v, s.meta.versions[v]) {
      VersionStaysBacked(c, b, next, v, s.meta.versions[v]);
    }
    forall t | IsUpload(s, t) && ByUpload(t) !in gone ensures UploadBacked(c, next, t, s.tasks[t]) {
      UploadStaysBacked(c, b, next, t, s.tasks[t]);
    }
  }

  /** The new version relies on what its upload relied on. */
  lemma CommittedVersionBacked(c: Config, b: Book, t: TaskId, u: Task, f: FileId, v: VersionId)
    requires c.size > 0 && u.Upload? && UploadBacked(c, b, t, u) && u.next >= |Hashes(c, u.body)|
    ensures VersionBacked(c, CommitBook(b, t, u.prev, v), v, Version(f, |u.body|, Hashes(c, u.body)))
  {
    var hashes, next := Hashes(c, u.body), CommitBook(b, t, u.prev, v);
    forall h | h in hashes ensures |Relying(next, ByVersion(v), h)| >= c.w {
      var k :| 0 <= k < |hashes| && hashes[k] == h;
      forall d | d in Relying(b, ByUpload(t), h) ensures d in Relying(next, ByVersion(v), h) {
        RelyingMembers(b, ByUpload(t), h, d);
        RelyingMembers(next, ByVersion(v), h, d);
        HandedMembers(b.relied, t, v, Trust(ByVersion(v), d, h));
      }
      SubsetCard(Relying(b, ByUpload(t), h), Relying(next, ByVersion(v), h));
    }
  }

  function CommitDrops(s: State, t: TaskId): set<Holder>
    requires IsUpload(s, t)
  {
    {ByUpload(t)} + if s.tasks[t].prev.Some? then {ByVersion(s.tasks[t].prev.value)} else {}
  }

  lemma CommitKeepsVersionsBacked(c: Config, s: State, b: Book, e: Event)
    requires c.Valid() && Consistent(s) && Backed(c, s, b) && Enabled(c, s, e) && e.Commit?
    ensures var m, next := Apply(c, s, e).meta, NextBook(c, s, b, e);
            forall v :: v in m.versions ==> VersionBacked(c, next, v, m.versions[v])
  {
    CommitEffect(c, s, e.t, e.f, e.v);
    assert IsUpload(s, e.t) && UploadBacked(c, b, e.t, s.tasks[e.t]);
    OthersStayBacked(c, s, Apply(c, s, e), b, NextBook(c, s, b, e), CommitDrops(s, e.t));
    CommittedVersionBacked(c, b, e.t, s.tasks[e.t], e.f, e.v);
  }

  lemma CommitKeepsBacked(c: Config, s: State, b: Book, e: Event)
    requires c.Valid() && Consistent(s) && Backed(c, s, b) && Enabled(c, s, e) && e.Commit?
    ensures Backed(c, Apply(c, s, e), NextBook(c, s, b, e))
  {
    var after, next := Apply(c, s, e), NextBook(c, s, b, e);
    CommitKeepsVersionsBacked(c, s, b, e);
    forall t | IsUpload(after, t) ensures UploadBacked(c, next, t, after.tasks[t]) {
      assert IsUpload(s, t) && t != e.t && after.tasks[t] == s.tasks[t];
      UploadStaysBacked(c, b, next, t, s.tasks[t]);
    }
  }

  lemma EndKeepsBacked(c: Config, s: State, after: State, b: Book, t: TaskId)
    requires c.size > 0 && Backed(c, s, b) && after.meta.versions == s.meta.versions
    requires forall u :: IsUpload(after, u) ==> u != t && IsUpload(s, u) && after.tasks[u] == s.tasks[u]
    ensures Backed(c, after, DropUpload(b, t))
  {
    OthersStayBacked(c, s, after, b, DropUpload(b, t), {ByUpload(t)});
  }

  lemma PutDoneKeepsBacked(c: Config, s: State, b: Book, e: Event)
    requires c.Valid() && Backed(c, s, b) && Enabled(c, s, e) && e.PutDone?
    ensures Backed(c, Apply(c, s, e), NextBook(c, s, b, e))
  {
    var after, u := Apply(c, s, e), s.tasks[e.t];
    assert IsUpload(s, e.t) && UploadBacked(c, b, e.t, u);
    if |u.acks| < c.w {
      EndKeepsBacked(c, s, after, b, e.t);
    } else {
      NextChunkBacked(c, b, e.t, u);
      forall t | IsUpload(after, t) && t != e.t ensures UploadBacked(c, b, t, after.tasks[t]) {
        assert IsUpload(s, t) && UploadBacked(c, b, t, s.tasks[t]);
      }
    }
  }

  lemma OtherKeepsBacked(c: Config, s: State, b: Book, e: Event)
    requires c.Valid() && Backed(c, s, b) && Enabled(c, s, e)
    requires !e.ReplicaPut? && !e.Commit? && !e.Abort? && !e.PutDone?
    ensures Backed(c, Apply(c, s, e), NextBook(c, s, b, e))
  {
    var after, next := Apply(c, s, e), NextBook(c, s, b, e);
    assert after.meta.versions == s.meta.versions && next.relied == b.relied;
    forall v | v in after.meta.versions ensures VersionBacked(c, next, v, after.meta.versions[v]) {
      VersionStaysBacked(c, b, next, v, s.meta.versions[v]);
    }
    forall t | IsUpload(after, t) ensures UploadBacked(c, next, t, after.tasks[t]) {
      var u := after.tasks[t];
      if IsUpload(s, t) {
        UploadStaysBacked(c, b, next, t, u);
      } else {
        NewUploadBacked(c, next, t, u.target, u.prev, u.body);
      }
    }
  }

  lemma StepKeepsBacked(c: Config, s: State, b: Book, e: Event)
    requires c.Valid() && Consistent(s) && Backed(c, s, b) && Enabled(c, s, e)
    ensures Backed(c, Apply(c, s, e), NextBook(c, s, b, e))
  {
    match e
    case ReplicaPut(_, _, _, _) => PutKeepsBacked(c, s, b, e);
    case Commit(_, _, _) => CommitKeepsBacked(c, s, b, e);
    case PutDone(_) => PutDoneKeepsBacked(c, s, b, e);
    case Abort(t) => EndKeepsBacked(c, s, Apply(c, s, e), b, t);
    case _ => OtherKeepsBacked(c, s, b, e);
  }

  /** In every run: each chunk of each live version was acknowledged by w nodes of its list, and the book names only
      live versions and uploads in progress. */
  lemma {:induction false} VersionsAreBacked(c: Config, es: seq<Event>)
    requires c.Valid() && Exec(c, es).Some?
    ensures OnCourse(c, Exec(c, es).value)
    ensures Grounded(c, Exec(c, es).value, BookOf(c, es)) && Backed(c, Exec(c, es).value, BookOf(c, es))
  {
    if es == [] {
    } else {
      var before, e := es[..|es| - 1], es[|es| - 1];
      VersionsAreBacked(c, before);
      RunsAreConsistent(c, before);
      StepKeepsOnCourse(c, Exec(c, before).value, e);
      StepKeepsGrounded(c, Exec(c, before).value, BookOf(c, before), e);
      StepKeepsBacked(c, Exec(c, before).value, BookOf(c, before), e);
    }
  }
}
