/** Fixed-size chunking: a buffer's pieces, the manifest that names them, and putting it back together. */
module Chunker {
  import opened Types

  const DEFAULT_CHUNK_SIZE: nat := 256 * 1024

  datatype Chunk = Chunk(hash: Hash, size: nat, data: Bytes, index: nat)

  function Pieces(buf: Bytes, size: nat): (p: seq<Bytes>)
    requires size > 0
  {
    if buf == [] then []
    else if |buf| <= size then [buf]
    else [buf[..size]] + Pieces(buf[size..], size)
  }

  function Flatten(parts: seq<Bytes>): Bytes {
    if parts == [] then [] else parts[0] + Flatten(parts[1..])
  }

  /** The ordered chunk names of a buffer. */
  function Manifest(buf: Bytes, size: nat, sha: Bytes -> Hash): (m: seq<Hash>)
    requires size > 0
    ensures |m| == |Pieces(buf, size)|
  {
    Names(Pieces(buf, size), sha)
  }

  function Names(parts: seq<Bytes>, sha: Bytes -> Hash): (m: seq<Hash>)
    ensures |m| == |parts|
    ensures forall i :: 0 <= i < |parts| ==> m[i] == sha(parts[i])
  {
    seq(|parts|, i requires 0 <= i < |parts| => sha(parts[i]))
  }

  /** Every piece but the last is full, and none is empty. */
  predicate WellCut(parts: seq<Bytes>, size: nat) {
    && (forall i :: 0 <= i < |parts| ==> 0 < |parts[i]| <= size)
    && (forall i :: 0 <= i < |parts| - 1 ==> |parts[i]| == size)
  }

  /** The first piece is what fits, and the others are the pieces of the remainder. */
  lemma FirstPiece(buf: Bytes, size: nat)
    requires size > 0 && buf != []
    ensures var cut := if |buf| <= size then |buf| else size;
            Pieces(buf, size) == [buf[..cut]] + Pieces(buf[cut..], size)
  {
    if |buf| <= size {
      assert buf[..|buf|] == buf && buf[|buf|..] == [];
    }
  }

  lemma {:induction false} PiecesRebuild(buf: Bytes, size: nat)
    requires size > 0
    ensures Flatten(Pieces(buf, size)) == buf
  {
    if buf == [] {
    } else {
      var cut := if |buf| <= size then |buf| else size;
      FirstPiece(buf, size);
      PiecesRebuild(buf[cut..], size);
      assert Pieces(buf, size)[1..] == Pieces(buf[cut..], size);
      assert buf == buf[..cut] + buf[cut..];
    }
  }

  lemma {:induction false} PiecesAreWellCut(buf: Bytes, size: nat)
    requires size > 0
    ensures WellCut(Pieces(buf, size), size)
  {
    if |buf| > size {
      var rest := Pieces(buf[size..], size);
      PiecesAreWellCut(buf[size..], size);
      assert forall i :: 0 < i <= |rest| ==> Pieces(buf, size)[i] == rest[i - 1];
      assert rest != [];
    }
  }

  /** Well-cut pieces are determined by the bytes they spell. */
  lemma {:induction false} WellCutIsUnique(parts: seq<Bytes>, size: nat)
    requires size > 0 && WellCut(parts, size)
    ensures parts == Pieces(Flatten(parts), size)
  {
    if |parts| == 1 {
      assert parts[1..] == [];
      assert Flatten(parts) == parts[0] + [] == parts[0];
      assert parts == [parts[0]];
    } else if parts != [] {
      var rest := parts[1..];
      assert forall i :: 0 <= i < |rest| ==> rest[i] == parts[i + 1];
      WellCutIsUnique(rest, size);
      assert rest[0] == parts[1];
      assert Flatten(parts)[..size] == parts[0];
      assert Flatten(parts)[size..] == Flatten(rest);
      assert parts == [parts[0]] + rest;
    }
  }

  /** The number of pieces is the length divided by the size, rounded up. */
  lemma {:induction false} PieceCount(buf: Bytes, size: nat)
    requires size > 0
    ensures |buf| <= |Pieces(buf, size)| * size < |buf| + size
  {
    if |buf| > size {
      var rest := Pieces(buf[size..], size);
      PieceCount(buf[size..], size);
      assert |Pieces(buf, size)| == |rest| + 1;
      assert (|rest| + 1) * size == |rest| * size + size;
    }
  }

  /** Cutting at a chunk boundary first gives the two lists of pieces end to end. */
  lemma {:induction false} PiecesSplit(a: Bytes, b: Bytes, size: nat, k: nat)
    requires size > 0 && |a| == k * size
    ensures Pieces(a + b, size) == Pieces(a, size) + Pieces(b, size)
    decreases k
  {
    if k == 0 {
      assert a + b == b;
    } else {
      var rest := a[size..];
      assert |a| == (k - 1) * size + size;
      PiecesSplit(rest, b, size, k - 1);
      assert (a + b)[..size] == a[..size];
      assert (a + b)[size..] == rest + b;
      if |a| == size {
        assert rest == [] && a[..size] == a;
        if b == [] {
          assert a + b == a;
        }
      }
    }
  }

  // ---------- reading back ----------

  ghost predicate CollisionFree(sha: Bytes -> Hash, strings: set<Bytes>) {
    forall a, b :: a in strings && b in strings && sha(a) == sha(b) ==> a == b
  }

  /** Parts that answer to a manifest are the original pieces, repeats included. */
  lemma MatchingPartsRebuild(buf: Bytes, size: nat, sha: Bytes -> Hash, parts: seq<Bytes>, strings: set<Bytes>)
    requires size > 0 && CollisionFree(sha, strings)
    requires Names(parts, sha) == Manifest(buf, size, sha)
    requires forall p :: p in parts || p in Pieces(buf, size) ==> p in strings
    ensures Flatten(parts) == buf
  {
    var pieces := Pieces(buf, size);
    PiecesRebuild(buf, size);
    forall i | 0 <= i < |parts| ensures parts[i] == pieces[i] {
      assert parts[i] in parts && pieces[i] in pieces;
      assert Names(parts, sha)[i] == Manifest(buf, size, sha)[i];
    }
    assert parts == pieces;
  }

  /** The chunk records of a list of pieces, numbered from zero. */
  function Describe(parts: seq<Bytes>, sha: Bytes -> Hash): (chunks: seq<Chunk>)
    ensures |chunks| == |parts|
  {
    seq(|parts|, i requires 0 <= i < |parts| => Chunk(sha(parts[i]), |parts[i]|, parts[i], i))
  }

  lemma DescribeNext(parts: seq<Bytes>, p: Bytes, sha: Bytes -> Hash)
    ensures Describe(parts + [p], sha) == Describe(parts, sha) + [Chunk(sha(p), |p|, p, |parts|)]
  {
  }

  function Remainder(buf: Bytes, offset: nat): Bytes {
    if offset <= |buf| then buf[offset..] else []
  }

  lemma NextPiece(buf: Bytes, offset: nat, size: nat)
    requires size > 0 && offset < |buf|
    ensures var end := if offset + size < |buf| then offset + size else |buf|;
            var left := Pieces(Remainder(buf, offset), size);
            left != [] && left[0] == buf[offset..end] && left[1..] == Pieces(Remainder(buf, offset + size), size)
  {
    var end := if offset + size < |buf| then offset + size else |buf|;
    var rest := buf[offset..];
    FirstPiece(rest, size);
    assert buf[offset..end] == rest[..end - offset];
    assert Remainder(buf, offset + size) == rest[end - offset..];
  }

  lemma MovePiece(done: seq<Bytes>, left: seq<Bytes>)
    requires left != []
    ensures done + left == done + [left[0]] + left[1..]
  {
  }

  /** chunkBuffer. */
  method ChunkBuffer(buf: Bytes, chunkSize: nat, sha: Bytes -> Hash) returns (chunks: seq<Chunk>)
    requires chunkSize > 0
    ensures chunks == Describe(Pieces(buf, chunkSize), sha)
  {
    chunks := [];
    var offset: nat := 0;
    ghost var done: seq<Bytes>, left := [], Pieces(buf, chunkSize);
    assert Remainder(buf, 0) == buf;
    while offset < |buf|
      invariant chunks == Describe(done, sha)
      invariant left == Pieces(Remainder(buf, offset), chunkSize)
      invariant Pieces(buf, chunkSize) == done + left
      decreases |buf| - offset
    {
      var end := if offset + chunkSize < |buf| then offset + chunkSize else |buf|;
      var slice := buf[offset..end];
      NextPiece(buf, offset, chunkSize);
      DescribeNext(done, slice, sha);
      chunks := chunks + [Chunk(sha(slice), |slice|, slice, |chunks|)];
      MovePiece(done, left);
      done, left := done + [slice], left[1..];
      offset := offset + chunkSize;
    }
  }
}
