/** The request handlers, each run on its own: chunks go out one after another, then the tables change. */
module Servers {
  import opened Types
  import opened Chunker
  import opened ChunkStores
  import opened MetadataStores
  import opened Replication
  import opened Coordinators
  import StoreSystem

  type Config = StoreSystem.Config

  // ---------- what a request does ----------

  datatype Outcome = Uploaded(chunkHashes: seq<Hash>) | UploadFailed(at: nat)

  datatype Response =
    | Created(fileId: FileId, versionId: VersionId, chunkCount: nat, size: nat)
    | Updated(versionId: VersionId, previous: Option<VersionId>, chunkCount: nat, size: nat)
    | WriteFailed(at: nat)       // no write quorum for that chunk
    | NoSuchFile
    | Body(bytes: Bytes)
    | ReadFailed

  /** How each replica's PUT of chunk i fares. */
  function Deliveries(delivery: (nat, NodeId) -> Delivery, i: nat): NodeId -> Delivery {
    (d: NodeId) => delivery(i, d)
  }

  /** What each node answers to the GET of chunk i. */
  function GetAnswers(answer: (nat, NodeId) -> Answer, i: nat): NodeId -> Answer {
    (d: NodeId) => answer(i, d)
  }

  /** The nodes after the first k pieces have been put. */
  function AfterPieces(c: Config, nodes: Cluster, pieces: seq<Bytes>, k: nat,
                       delivery: (nat, NodeId) -> Delivery): Cluster
    requires k <= |pieces|
  {
    if k == 0 then nodes
    else
      var h := c.sha(pieces[k - 1]);
      ClusterAfterPut(AfterPieces(c, nodes, pieces, k - 1, delivery), c.lists(h), h, pieces[k - 1], c.sha,
          Deliveries(delivery, k - 1))
  }

  function PutOf(c: Config, nodes: Cluster, pieces: seq<Bytes>, k: nat, delivery: (nat, NodeId) -> Delivery): Write
    requires k < |pieces|
  {
    var h := c.sha(pieces[k]);
    PutResultOf(AfterPieces(c, nodes, pieces, k, delivery), c.lists(h), h, pieces[k], c.sha, Deliveries(delivery, k),
        c.w)
  }

  /** The first k pieces all reached their quorum. */
  ghost predicate QuorumsBefore(c: Config, nodes: Cluster, pieces: seq<Bytes>, k: nat,
                                delivery: (nat, NodeId) -> Delivery)
    requires k <= |pieces|
  {
    forall j :: 0 <= j < k ==> PutOf(c, nodes, pieces, j, delivery).Quorum?
  }

  lemma OneMoreQuorum(c: Config, nodes: Cluster, pieces: seq<Bytes>, k: nat, delivery: (nat, NodeId) -> Delivery)
    requires k < |pieces| && QuorumsBefore(c, nodes, pieces, k, delivery)
        && PutOf(c, nodes, pieces, k, delivery).Quorum?
    ensures QuorumsBefore(c, nodes, pieces, k + 1, delivery)
  {
  }

  /** Every chunk reached its quorum, or the first that did not ended the request. */
  ghost predicate IsUpload(c: Config, nodes: Cluster, buf: Bytes, delivery: (nat, NodeId) -> Delivery, r: Outcome,
                           after: Cluster)
    requires c.size > 0
  {
    var pieces := Pieces(buf, c.size);
    match r
    case Uploaded(hashes) =>
      && hashes == Manifest(buf, c.size, c.sha)
      && QuorumsBefore(c, nodes, pieces, |pieces|, delivery)
      && after == AfterPieces(c, nodes, pieces, |pieces|, delivery)
    case UploadFailed(at) =>
      && at < |pieces|
      && QuorumsBefore(c, nodes, pieces, at, delivery)
      && PutOf(c, nodes, pieces, at, delivery).NoQuorum?
      && after == AfterPieces(c, nodes, pieces, at + 1, delivery)
  }

  /** The chunks' reads, and the reply made of them: the bytes in manifest order, or a failure if any is missing. */
  ghost predicate IsDownload(c: Config, hashes: seq<Hash>, answer: (nat, NodeId) -> Answer, found: seq<Read>,
                             r: Response) {
    && |found| == |hashes|
    && (forall i :: 0 <= i < |hashes| ==> IsRead(c.lists(hashes[i]), hashes[i], GetAnswers(answer, i), c.sha, found[i]))
    && r == if forall i :: 0 <= i < |found| ==> found[i].Found? then Body(Flatten(BytesRead(found))) else ReadFailed
  }

  function BytesRead(found: seq<Read>): (parts: seq<Bytes>)
    requires forall i :: 0 <= i < |found| ==> found[i].Found?
    ensures |parts| == |found| && forall i :: 0 <= i < |found| ==> parts[i] == found[i].buf
  {
    seq(|found|, i requires 0 <= i < |found| => found[i].buf)
  }

  ghost predicate SomeoneSupplies(c: Config, h: Hash, answer: NodeId -> Answer) {
    exists d :: d in c.lists(h) && Good(answer(d), h, c.sha)
  }

  /** A reply carries bytes exactly when every chunk has some listed node with matching bytes; then they are, in
      manifest order, parts that answer to the manifest's names. Otherwise the reply is a failure. */
  lemma ReplyMatchesManifest(c: Config, hashes: seq<Hash>, answer: (nat, NodeId) -> Answer, found: seq<Read>,
                             r: Response)
    requires IsDownload(c, hashes, answer, found, r)
    ensures r.Body? <==> forall i :: 0 <= i < |hashes| ==> SomeoneSupplies(c, hashes[i], GetAnswers(answer, i))
    ensures r.Body? ==> exists parts :: Names(parts, c.sha) == hashes && Flatten(parts) == r.bytes
    ensures !r.Body? ==> r == ReadFailed
  {
    forall i | 0 <= i < |hashes|
      ensures found[i].Found? <==> SomeoneSupplies(c, hashes[i], GetAnswers(answer, i))
      ensures found[i].Found? ==> c.sha(found[i].buf) == hashes[i]
    {
      FoundIffSomeGood(c.lists(hashes[i]), hashes[i], GetAnswers(answer, i), c.sha, found[i]);
    }
    if r.Body? {
      assert Names(BytesRead(found), c.sha) == hashes;
    }
  }

  // ---------- upload, then download ----------

  /** The nodes with a corrupt copy of h. */
  function CorruptAt(nodes: Cluster, h: Hash, sha: Bytes -> Hash): set<NodeId> {
    set d | d in nodes && h in nodes[d] && sha(nodes[d][h]) != h
  }

  lemma PutAddsNoCorruption(nodes: Cluster, list: seq<NodeId>, h: Hash, buf: Bytes, sha: Bytes -> Hash,
                            delivery: NodeId -> Delivery, g: Hash)
    ensures CorruptAt(ClusterAfterPut(nodes, list, h, buf, sha, delivery), g, sha) <= CorruptAt(nodes, g, sha)
  {
  }

  /** Puts never make a copy corrupt. */
  lemma {:induction false} PutsAddNoCorruption(c: Config, nodes: Cluster, pieces: seq<Bytes>, k: nat,
                                               delivery: (nat, NodeId) -> Delivery, g: Hash)
    requires k <= |pieces|
    ensures CorruptAt(AfterPieces(c, nodes, pieces, k, delivery), g, c.sha) <= CorruptAt(nodes, g, c.sha)
  {
    if k > 0 {
      var h, before := c.sha(pieces[k - 1]), AfterPieces(c, nodes, pieces, k - 1, delivery);
      PutsAddNoCorruption(c, nodes, pieces, k - 1, delivery, g);
      PutAddsNoCorruption(before, c.lists(h), h, pieces[k - 1], c.sha, Deliveries(delivery, k - 1), g);
    }
  }

  predicate Holds(nodes: Cluster, d: NodeId, h: Hash) {
    d in nodes && h in nodes[d]
  }

  lemma PutKeepsCopy(nodes: Cluster, list: seq<NodeId>, h: Hash, buf: Bytes, sha: Bytes -> Hash,
                     delivery: NodeId -> Delivery, d: NodeId, g: Hash)
    requires Holds(nodes, d, g)
    ensures Holds(ClusterAfterPut(nodes, list, h, buf, sha, delivery), d, g)
  {
  }

  /** A chunk once on a node stays there while more are put. */
  lemma {:induction false} PutsKeepCopies(c: Config, nodes: Cluster, pieces: seq<Bytes>, j: nat, k: nat,
                                          delivery: (nat, NodeId) -> Delivery, d: NodeId, h: Hash)
    requires j <= k <= |pieces| && Holds(AfterPieces(c, nodes, pieces, j, delivery), d, h)
    ensures Holds(AfterPieces(c, nodes, pieces, k, delivery), d, h)
  {
    if j < k {
      var name, before := c.sha(pieces[k - 1]), AfterPieces(c, nodes, pieces, k - 1, delivery);
      PutsKeepCopies(c, nodes, pieces, j, k - 1, delivery, d, h);
      PutKeepsCopy(before, c.lists(name), name, pieces[k - 1], c.sha, Deliveries(delivery, k - 1), d, h);
    }
  }

  /** A node that acknowledges a put has the chunk. */
  lemma AckedCopy(nodes: Cluster, list: seq<NodeId>, h: Hash, buf: Bytes, sha: Bytes -> Hash,
                  delivery: NodeId -> Delivery, d: NodeId)
    requires d in Acks(nodes, list, h, buf, sha, delivery)
    ensures d in list && Holds(ClusterAfterPut(nodes, list, h, buf, sha, delivery), d, h)
  {
  }

  /** The nodes that acknowledge piece k. */
  function AcksOf(c: Config, nodes: Cluster, pieces: seq<Bytes>, k: nat,
                  delivery: (nat, NodeId) -> Delivery): set<NodeId>
    requires k < |pieces|
  {
    var h := c.sha(pieces[k]);
    Acks(AfterPieces(c, nodes, pieces, k, delivery), c.lists(h), h, pieces[k], c.sha, Deliveries(delivery, k))
  }

  lemma {:induction false} AckedPieceStays(c: Config, nodes: Cluster, pieces: seq<Bytes>, k: nat,
                                           delivery: (nat, NodeId) -> Delivery, d: NodeId)
    requires k < |pieces| && d in AcksOf(c, nodes, pieces, k, delivery)
    ensures d in c.lists(c.sha(pieces[k]))
    ensures Holds(AfterPieces(c, nodes, pieces, |pieces|, delivery), d, c.sha(pieces[k]))
  {
    var h := c.sha(pieces[k]);
    AckedCopy(AfterPieces(c, nodes, pieces, k, delivery), c.lists(h), h, pieces[k], c.sha, Deliveries(delivery, k), d);
    PutsKeepCopies(c, nodes, pieces, k + 1, |pieces|, delivery, d, h);
  }

  lemma QuorumAcked(c: Config, nodes: Cluster, pieces: seq<Bytes>, k: nat, delivery: (nat, NodeId) -> Delivery)
    requires k < |pieces| && PutOf(c, nodes, pieces, k, delivery).Quorum?
    ensures |AcksOf(c, nodes, pieces, k, delivery)| >= c.w
  {
  }

  /** After an upload succeeds, a chunk's read comes back with that chunk if fewer than w nodes misbehave or had a
      corrupt copy of it before. */
  lemma {:induction false} UploadedChunkIsFound(c: Config, nodes: Cluster, buf: Bytes,
                                                delivery: (nat, NodeId) -> Delivery,
                                                after: Cluster, k: nat, answer: NodeId -> Answer,
                                                faulty: set<NodeId>, r: Read)
    requires c.Valid() && k < |Pieces(buf, c.size)|
    requires |faulty + CorruptAt(nodes, c.sha(Pieces(buf, c.size)[k]), c.sha)| < c.w
    requires IsUpload(c, nodes, buf, delivery, Uploaded(Manifest(buf, c.size, c.sha)), after)
    requires forall d :: d in after && d !in faulty ==>
               answer(d) == HonestAnswer(after[d], c.sha(Pieces(buf, c.size)[k]), c.sha)
    requires NoForgery(c.lists(c.sha(Pieces(buf, c.size)[k])), Pieces(buf, c.size)[k], answer, c.sha)
    requires IsRead(c.lists(c.sha(Pieces(buf, c.size)[k])), c.sha(Pieces(buf, c.size)[k]), answer, c.sha, r)
    ensures r == Found(Pieces(buf, c.size)[k])
  {
    var pieces := Pieces(buf, c.size);
    var h := c.sha(pieces[k]);
    QuorumAcked(c, nodes, pieces, k, delivery);
    var d := OneOutside(AcksOf(c, nodes, pieces, k, delivery), faulty + CorruptAt(nodes, h, c.sha));
    AckedPieceStays(c, nodes, pieces, k, delivery, d);
    PutsAddNoCorruption(c, nodes, pieces, |pieces|, delivery, h);
    assert d !in CorruptAt(after, h, c.sha) && ValidName(c.sha(pieces[k]));
    assert Good(answer(d), h, c.sha);
    GoodNodeGivesOriginal(c.lists(h), pieces[k], answer, c.sha, r, d);
  }

  /** For each of the given chunks, fewer than w nodes are faulty or have a corrupt copy of it. */
  ghost predicate FewFail(nodes: Cluster, hashes: seq<Hash>, faulty: set<NodeId>, w: nat, sha: Bytes -> Hash) {
    forall h :: h in hashes ==> |faulty + CorruptAt(nodes, h, sha)| < w
  }

  /** Every node but the faulty ones answers each chunk's GET as it should. */
  ghost predicate HonestBut(faulty: set<NodeId>, nodes: Cluster, hashes: seq<Hash>,
                            answer: (nat, NodeId) -> Answer, sha: Bytes -> Hash) {
    forall i, d :: 0 <= i < |hashes| && d in nodes && d !in faulty ==>
        answer(i, d) == HonestAnswer(nodes[d], hashes[i], sha)
  }

  /** No answer passes for a piece of the upload without being it. */
  ghost predicate NoForgeries(c: Config, pieces: seq<Bytes>, answer: (nat, NodeId) -> Answer) {
    forall i :: 0 <= i < |pieces| ==> NoForgery(c.lists(c.sha(pieces[i])), pieces[i], GetAnswers(answer, i), c.sha)
  }

  /** Upload followed by download gives the input back, whatever chunks repeat and whatever was stored before, as long
      as for each chunk fewer than w nodes misbehave at the download or had a corrupt copy of it, and no answer shares
      a chunk's digest without being that chunk. */
  lemma {:induction false} UploadThenDownload(c: Config, nodes: Cluster, buf: Bytes,
                                              delivery: (nat, NodeId) -> Delivery,
                                              after: Cluster, answer: (nat, NodeId) -> Answer, faulty: set<NodeId>,
                                              found: seq<Read>, r: Response)
    requires c.Valid() && FewFail(nodes, Manifest(buf, c.size, c.sha), faulty, c.w, c.sha)
    requires IsUpload(c, nodes, buf, delivery, Uploaded(Manifest(buf, c.size, c.sha)), after)
    requires HonestBut(faulty, after, Manifest(buf, c.size, c.sha), answer, c.sha)
    requires NoForgeries(c, Pieces(buf, c.size), answer)
    requires IsDownload(c, Manifest(buf, c.size, c.sha), answer, found, r)
    ensures r == Body(buf)
  {
    var pieces := Pieces(buf, c.size);
    forall i | 0 <= i < |pieces| ensures found[i] == Found(pieces[i]) {
      assert Manifest(buf, c.size, c.sha)[i] in Manifest(buf, c.size, c.sha);
      UploadedChunkIsFound(c, nodes, buf, delivery, after, i, GetAnswers(answer, i), faulty, found[i]);
    }
    assert BytesRead(found) == pieces;
    PiecesRebuild(buf, c.size);
  }

  // ---------- the server object ----------

  class Server {
    const coordinator: Coordinator
    const store: MetadataStore

    ghost predicate Valid()
      reads coordinator.ring, store
    {
      coordinator.Valid() && store.Valid()
    }

    /** c describes this server's coordinator. */
    ghost predicate Describes(c: Config)
      reads coordinator.ring
    {
      && c.size == DEFAULT_CHUNK_SIZE && c.sha == coordinator.sha && c.w == coordinator.w
      && forall h {:trigger coordinator.Replicas(h)} :: c.lists(h) == coordinator.Replicas(h)
    }

    constructor (coordinator: Coordinator, store: MetadataStore)
      requires coordinator.Valid() && store.Valid()
      ensures Valid() && this.coordinator == coordinator && this.store == store
    {
      this.coordinator, this.store := coordinator, store;
    }

    /** One turn of uploadChunks: piece i of an upload that began when the nodes were as given. */
    method PutPiece(chunk: Chunk, i: nat, delivery: (nat, NodeId) -> Delivery,
                    ghost c: Config, ghost nodes: Cluster, ghost pieces: seq<Bytes>)
      returns (r: Write)
      requires Valid() && Describes(c) && i < |pieces|
      requires chunk.data == pieces[i] && chunk.hash == c.sha(pieces[i])
      requires coordinator.cluster == AfterPieces(c, nodes, pieces, i, delivery)
      modifies coordinator
      ensures Valid() && Describes(c)
      ensures r == PutOf(c, nodes, pieces, i, delivery)
      ensures coordinator.cluster == AfterPieces(c, nodes, pieces, i + 1, delivery)
    {
      r := coordinator.PutChunk(chunk.hash, chunk.data, Deliveries(delivery, i));
    }

    /** uploadChunks: chunk after chunk, until one misses its quorum. */
    method UploadChunks(buf: Bytes, delivery: (nat, NodeId) -> Delivery, ghost c: Config) returns (r: Outcome)
      requires Valid() && Describes(c)
      modifies coordinator
      ensures Valid() && Describes(c)
      ensures IsUpload(c, old(coordinator.cluster), buf, delivery, r, coordinator.cluster)
    {
      var chunks := ChunkBuffer(buf, DEFAULT_CHUNK_SIZE, coordinator.sha);
      ghost var pieces, nodes := Pieces(buf, c.size), coordinator.cluster;
      var hashes: seq<Hash> := [];
      for i := 0 to |chunks|
        invariant Valid() && Describes(c)
        invariant |hashes| == i && forall k :: 0 <= k < i ==> hashes[k] == chunks[k].hash
        invariant QuorumsBefore(c, nodes, pieces, i, delivery)
        invariant coordinator.cluster == AfterPieces(c, nodes, pieces, i, delivery)
      {
        var result := PutPiece(chunks[i], i, delivery, c, nodes, pieces);
        if result.NoQuorum? {
          return UploadFailed(i);
        }
        OneMoreQuorum(c, nodes, pieces, i, delivery);
        hashes := hashes + [chunks[i].hash];
      }
      assert hashes == Manifest(buf, c.size, c.sha);
      return Uploaded(hashes);
    }

    /** POST /files. The ids are the freshly generated ones. */
    method PostFile(buf: Bytes, delivery: (nat, NodeId) -> Delivery, fileId: FileId, versionId: VersionId,
                    ghost c: Config)
      returns (r: Response)
      requires Valid() && Describes(c) && fileId !in store.files && versionId !in store.versions
      modifies coordinator, store
      ensures Valid()
      ensures match r
              case Created(f, v, count, size) =>
                && f == fileId && v == versionId && count == |Manifest(buf, c.size, c.sha)| && size == |buf|
                && IsUpload(c, old(coordinator.cluster), buf, delivery, Uploaded(Manifest(buf, c.size, c.sha)),
                    coordinator.cluster)
                && store.View() == StoreSystem.Committed(c, old(store.View()),
                    StoreSystem.Putting(c, None, None, buf, 0), f, v)
              case WriteFailed(at) =>
                && IsUpload(c, old(coordinator.cluster), buf, delivery, UploadFailed(at), coordinator.cluster)
                && store.View() == old(store.View())
              case _ => false
    {
      var outcome := UploadChunks(buf, delivery, c);
      if outcome.UploadFailed? {
        return WriteFailed(outcome.at);
      }
      store.CreateFile(fileId);
      var ok := store.CommitVersion(fileId, outcome.chunkHashes, |buf|, versionId);
      return Created(fileId, versionId, |outcome.chunkHashes|, |buf|);
    }

    /** PUT /files/:fileId. */
    method PutFile(fileId: FileId, buf: Bytes, delivery: (nat, NodeId) -> Delivery, versionId: VersionId,
                   ghost c: Config)
      returns (r: Response)
      requires Valid() && Describes(c) && versionId !in store.versions
      modifies coordinator, store
      ensures Valid()
      ensures r == NoSuchFile <==> fileId !in old(store.files)
      ensures match r
              case NoSuchFile => coordinator.cluster == old(coordinator.cluster) && store.View() == old(store.View())
              case Updated(v, previous, count, size) =>
                && v == versionId && previous == old(store.files)[fileId]
                && count == |Manifest(buf, c.size, c.sha)| && size == |buf|
                && IsUpload(c, old(coordinator.cluster), buf, delivery, Uploaded(Manifest(buf, c.size, c.sha)),
                    coordinator.cluster)
                && store.View() ==
                     StoreSystem.Committed(c, old(store.View()),
                         StoreSystem.Putting(c, Some(fileId), previous, buf, 0), fileId, v)
              case WriteFailed(at) =>
                && IsUpload(c, old(coordinator.cluster), buf, delivery, UploadFailed(at), coordinator.cluster)
                && store.View() == old(store.View())
              case _ => false
    {
      var file := store.GetFile(fileId);
      if file.None? {
        return NoSuchFile;
      }
      var previous := file.value;
      var outcome := UploadChunks(buf, delivery, c);
      if outcome.UploadFailed? {
        return WriteFailed(outcome.at);
      }
      var ok := store.CommitVersion(fileId, outcome.chunkHashes, |buf|, versionId);
      if previous.Some? {
        store.DeleteVersion(previous.value);
      }
      return Updated(versionId, previous, |outcome.chunkHashes|, |buf|);
    }

    /** All chunks of a version, read independently. */
    method GetChunks(hashes: seq<Hash>, answer: (nat, NodeId) -> Answer, ghost c: Config) returns (parts: seq<Read>)
      requires Valid() && Describes(c)
      ensures |parts| == |hashes|
      ensures forall k :: 0 <= k < |hashes| ==>
          IsRead(c.lists(hashes[k]), hashes[k], GetAnswers(answer, k), c.sha, parts[k])
    {
      parts := [];
      for i := 0 to |hashes|
        invariant |parts| == i
        invariant forall k :: 0 <= k < i ==>
            IsRead(c.lists(hashes[k]), hashes[k], GetAnswers(answer, k), c.sha, parts[k])
      {
        var part := coordinator.GetChunk(hashes[i], GetAnswers(answer, i));
        parts := parts + [part];
      }
    }

    /** GET /files/:fileId/download. A current version missing from the table is an error like a missing chunk. */
    method Download(fileId: FileId, answer: (nat, NodeId) -> Answer, ghost c: Config) returns (r: Response)
      requires Valid() && Describes(c)
      ensures var m := store.View();
              if fileId !in m.files || m.files[fileId].None? then r == NoSuchFile
              else if m.files[fileId].value !in m.versions then r == ReadFailed
              else exists found :: IsDownload(c, m.versions[m.files[fileId].value].chunks, answer, found, r)
    {
      var file := store.GetFile(fileId);
      if file.None? || file.value.None? {
        return NoSuchFile;
      }
      var version := store.GetVersion(file.value.value);
      if version.None? {
        return ReadFailed;
      }
      var hashes := version.value.chunks;
      var parts := GetChunks(hashes, answer, c);
      if forall i :: 0 <= i < |parts| ==> parts[i].Found? {
        r := Body(Flatten(BytesRead(parts)));
      } else {
        r := ReadFailed;
      }
      assert IsDownload(c, hashes, answer, parts, r);
    }
  }
}
