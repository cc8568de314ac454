/** The coordinator's HashRing object. */
module HashRings {
  import opened Types
  import opened Seqs
  import opened RingSpec
  import opened Placement
  import opened Points

  /** A binary-search start index splits a sorted ring into the part before p and the part from p on. */
  lemma RotationIsClockwise(a: Ring, b: Ring, p: Position)
    requires forall v :: v in a ==> v.position < p
    requires forall v :: v in b ==> v.position >= p
    ensures Clockwise(a + b, p) == b + a
  {
    FilterAppend(a, b, AtOrAfter(p));
    FilterAppend(a, b, Before(p));
    FilterNone(a, AtOrAfter(p));
    FilterAll(b, AtOrAfter(p));
    FilterAll(a, Before(p));
    FilterNone(b, Before(p));
    assert [] + b == b && a + [] == a;
  }

  /** Starting at lo, or at 0 when the search ran off the end, walks the ring clockwise from p. */
  lemma SearchedRotation(r: Ring, p: Position, lo: nat)
    requires lo <= |r|
    requires forall i :: 0 <= i < lo ==> r[i].position < p
    requires forall i :: lo <= i < |r| ==> r[i].position >= p
    ensures Rotation(r, if lo == |r| then 0 else lo) == Clockwise(r, p)
  {
    assert r == r[..lo] + r[lo..];
    RotationIsClockwise(r[..lo], r[lo..], p);
    if lo == |r| {
      assert r[lo..] + r[..lo] == r[0..] + r[..0];
    }
  }

  function Rotation(r: Ring, start: nat): Ring
    requires start <= |r|
  {
    r[start..] + r[..start]
  }

  lemma WrapIndex(k: nat, len: nat)
    requires 0 < len && k < 2 * len
    ensures k % len == if k < len then k else k - len
  {
    if k >= len {
      assert k == len + (k - len);
      assert k / len == 1;
    }
  }

  lemma RotationEntry(r: Ring, start: nat, i: nat)
    requires start < |r| && i < |r|
    ensures (start + i) % |r| < |r|
    ensures r[(start + i) % |r|] == Rotation(r, start)[i]
  {
    WrapIndex(start + i, |r|);
  }

  lemma DistinctNext(walk: Ring, i: nat)
    requires i < |walk|
    ensures var d := Distinct(walk[..i]);
            Distinct(walk[..i + 1]) == if walk[i].nodeId in d then d else d + [walk[i].nodeId]
  {
    assert walk[..i + 1][..i] == walk[..i];
  }

  /** Entry i of the walk adds its node to those seen, unless it is one of them. */
  lemma WalkStep(r: Ring, start: nat, i: nat)
    requires start < |r| && i < |r|
    ensures (start + i) % |r| < |r|
    ensures var x, d := r[(start + i) % |r|].nodeId, Distinct(Rotation(r, start)[..i]);
            Distinct(Rotation(r, start)[..i + 1]) == if x in d then d else d + [x]
  {
    RotationEntry(r, start, i);
    DistinctNext(Rotation(r, start), i);
  }

  lemma DistinctCut(walk: Ring, i: nat, n: nat)
    requires i <= |walk| && |Distinct(walk[..i])| <= n
    requires i == |walk| || |Distinct(walk[..i])| == n
    ensures Distinct(walk[..i]) == Take(Distinct(walk), n)
  {
    DistinctPrefix(walk, i);
    if i == |walk| {
      assert walk[..i] == walk;
    }
  }

  /** The binary search of preferenceList: the first entry at or after pos. */
  method LowerBound(r: Ring, pos: Position) returns (lo: nat)
    requires Sorted(r)
    ensures lo <= |r|
    ensures forall i :: 0 <= i < lo ==> r[i].position < pos
    ensures forall i :: lo <= i < |r| ==> r[i].position >= pos
  {
    var hi := |r|;
    lo := 0;
    while lo < hi
      invariant 0 <= lo <= hi <= |r|
      invariant forall i :: 0 <= i < lo ==> r[i].position < pos
      invariant forall i :: hi <= i < |r| ==> r[i].position >= pos
    {
      var mid := (lo + hi) / 2;
      if r[mid].position < pos {
        lo := mid + 1;
      } else {
        hi := mid;
      }
    }
  }

  /** The skip-seen walk of preferenceList: the first n distinct nodes from an index on, wrapping around. */
  method FirstDistinct(r: Ring, startIdx: nat, n: nat) returns (result: seq<NodeId>)
    requires startIdx < |r|
    ensures result == Take(Distinct(Rotation(r, startIdx)), n)
  {
    ghost var walk := Rotation(r, startIdx);
    result := [];
    var seen: set<NodeId> := {};
    var i := 0;
    while i < |r| && |result| < n
      invariant 0 <= i <= |r| == |walk|
      invariant result == Distinct(walk[..i]) && |result| <= n
      invariant seen == Elems(result)
    {
      WalkStep(r, startIdx, i);
      var entry := r[(startIdx + i) % |r|];
      if entry.nodeId !in seen {
        seen := seen + {entry.nodeId};
        result := result + [entry.nodeId];
      }
      i := i + 1;
    }
    DistinctCut(walk, i, n);
  }

  /** An addition puts the node's points on the ring and leaves the other entries as they stand. */
  lemma OthersStay(m: Members, l: Layout, x: NodeId)
    requires WellFormed(m, l)
    ensures var after := Step(m, Add(x), l);
            && Filter(after.ring, NotOf(x)) == Filter(m.ring, NotOf(x))
            && |Filter(after.ring, Of(x))| == l.vnodesPerNode
            && forall i :: 0 <= i < l.vnodesPerNode ==>
                 VNode(l.positionFor(x + "#vnode" + Decimal(i)), x) in after.ring
  {
    var after := Step(m, Add(x), l);
    StepKeepsWellFormed(m, Add(x), l);
    EntriesArePoints(after, l, x);
    EntriesLieAtKeys(after, l, x);
    if x !in m.nodes {
      RemoveUndoesAdd(m.ring, x, l.Points(x));
      FilterAll(m.ring, NotOf(x));
    }
  }

  class HashRing {
    const layout: Layout
    var ring: Ring
    var nodes: set<NodeId>

    ghost predicate Valid()
      reads this
    {
      WellFormed(Members(ring, nodes), layout)
    }

    constructor (layout: Layout)
      ensures Valid() && this.layout == layout && Members(ring, nodes) == EMPTY
    {
      this.layout := layout;
      ring, nodes := [], {};
    }

    /** The loop of addNode: the node's points are pushed, in order. */
    method PushPoints(nodeId: NodeId)
      modifies this`ring
      ensures ring == old(ring) + layout.Points(nodeId)
    {
      for i := 0 to layout.vnodesPerNode
        invariant ring == old(ring) + VNodes(nodeId, i, layout.positionFor)
      {
        var position := layout.positionFor(VNodeKey(nodeId, i));
        ring := ring + [VNode(position, nodeId)];
      }
    }

    method AddNode(nodeId: NodeId)
      requires Valid()
      modifies this
      ensures Valid()
      ensures Members(ring, nodes) == Step(old(Members(ring, nodes)), Add(nodeId), layout)
      ensures nodes == old(nodes) + {nodeId} && Filter(ring, NotOf(nodeId)) == Filter(old(ring), NotOf(nodeId))
      ensures forall i :: 0 <= i < layout.vnodesPerNode ==>
          VNode(layout.positionFor(nodeId + "#vnode" + Decimal(i)), nodeId) in ring
      ensures |Filter(ring, Of(nodeId))| == layout.vnodesPerNode
    {
      StepKeepsWellFormed(Members(ring, nodes), Add(nodeId), layout);
      OthersStay(Members(ring, nodes), layout, nodeId);
      if nodeId in nodes {
        return;
      }
      nodes := nodes + {nodeId};
      PushPoints(nodeId);
      ring := StableSort(ring);
    }

    method RemoveNode(nodeId: NodeId)
      requires Valid()
      modifies this
      ensures Valid()
      ensures Members(ring, nodes) == Step(old(Members(ring, nodes)), Remove(nodeId), layout)
      ensures nodes == old(nodes) - {nodeId} && ring == Filter(old(ring), NotOf(nodeId))
      ensures forall v :: v in ring ==> v.nodeId != nodeId
    {
      FilterMembers(ring, NotOf(nodeId));
      StepKeepsWellFormed(Members(ring, nodes), Remove(nodeId), layout);
      if nodeId !in nodes {
        FilterAll(ring, NotOf(nodeId));
        return;
      }
      nodes := nodes - {nodeId};
      ring := Filter(ring, NotOf(nodeId));
    }

    method Size() returns (n: nat)
      ensures n == |nodes|
    {
      n := |nodes|;
    }

    method PreferenceList(key: string, replicaCount: nat) returns (result: seq<NodeId>)
      requires Valid()
      ensures result == Prefs(ring, layout.positionFor(key), replicaCount)
    {
      if |ring| == 0 {
        return [];
      }
      var pos := layout.positionFor(key);
      var lo := LowerBound(ring, pos);
      var startIdx := if lo == |ring| then 0 else lo;

      SearchedRotation(ring, pos, lo);
      result := FirstDistinct(ring, startIdx, replicaCount);
    }
  }
}
