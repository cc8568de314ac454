/** Where a member's points lie on the ring. */
module Points {
  import opened Types
  import opened Seqs
  import opened RingSpec
  import opened Placement

  /** The positions of x's entries. */
  function PositionsOf(r: Ring, x: NodeId): set<Position> {
    set v | v in r && v.nodeId == x :: v.position
  }

  /** No two of x's keys are hashed to one position. */
  ghost predicate KeysApart(x: NodeId, l: Layout) {
    forall i, j :: 0 <= i < j < l.vnodesPerNode ==> l.positionFor(VNodeKey(x, i)) != l.positionFor(VNodeKey(x, j))
  }

  function KeyPositions(x: NodeId, l: Layout): (s: seq<Position>)
    ensures |s| == l.vnodesPerNode
    ensures forall i :: 0 <= i < |s| ==> s[i] == l.positionFor(VNodeKey(x, i))
  {
    seq<Position>(l.vnodesPerNode, (i: nat) => l.positionFor(VNodeKey(x, i)))
  }

  /** x's entries are its points, wherever the ring has put them. */
  lemma EntriesArePoints(m: Members, l: Layout, x: NodeId)
    requires WellFormed(m, l) && x in m.nodes
    ensures forall v :: v in m.ring && v.nodeId == x <==> v in l.Points(x)
    ensures |Filter(m.ring, Of(x))| == l.vnodesPerNode
  {
    FilterMembers(m.ring, Of(x));
    SortMembers(l.Points(x));
    SortPermutes(l.Points(x));
    assert |multiset(StableSort(l.Points(x)))| == |multiset(l.Points(x))|;
  }

  lemma PointAtKey(x: NodeId, l: Layout, i: nat)
    requires i < l.vnodesPerNode
    ensures l.Points(x)[i] == VNode(KeyPositions(x, l)[i], x)
    ensures KeyPositions(x, l)[i] == l.positionFor(x + "#vnode" + Decimal(i))
  {
    PointAt(x, l.vnodesPerNode, l.positionFor, i);
    assert VNodeKey(x, i) == x + "#vnode" + Decimal(i);
  }

  /** x has entries at the positions of its keys and nowhere else. */
  lemma EntriesLieAtKeys(m: Members, l: Layout, x: NodeId)
    requires WellFormed(m, l) && x in m.nodes
    ensures forall i :: 0 <= i < l.vnodesPerNode ==> VNode(l.positionFor(x + "#vnode" + Decimal(i)), x) in m.ring
    ensures PositionsOf(m.ring, x) == Elems(KeyPositions(x, l))
  {
    EntriesArePoints(m, l, x);
    PointsLieAtKeys(x, l);
    var points := l.Points(x);
    forall i | 0 <= i < l.vnodesPerNode ensures VNode(l.positionFor(x + "#vnode" + Decimal(i)), x) in m.ring {
      PointAtKey(x, l, i);
      assert points[i] in points;
    }
    assert forall v :: v in m.ring && v.nodeId == x <==> v in points && v.nodeId == x;
    assert PositionsOf(m.ring, x) == PositionsOf(points, x);
  }

  lemma PointsLieAtKeys(x: NodeId, l: Layout)
    ensures PositionsOf(l.Points(x), x) == Elems(KeyPositions(x, l))
  {
    var points, s := l.Points(x), KeyPositions(x, l);
    forall i | 0 <= i < |s| ensures points[i] == VNode(s[i], x) {
      PointAtKey(x, l, i);
    }
    forall p ensures p in PositionsOf(points, x) <==> p in Elems(s) {
      if p in PositionsOf(points, x) {
        var i :| 0 <= i < |points| && points[i].position == p;
        assert s[i] == p;
      }
      if p in Elems(s) {
        var i :| 0 <= i < |s| && s[i] == p;
        assert points[i] in points;
      }
    }
  }

  /** A member occupies as many different positions as it has virtual nodes exactly when the hash keeps its keys
      apart. */
  lemma PointsAreSpreadIff(m: Members, l: Layout, x: NodeId)
    requires WellFormed(m, l) && x in m.nodes
    ensures |PositionsOf(m.ring, x)| == l.vnodesPerNode <==> KeysApart(x, l)
  {
    EntriesLieAtKeys(m, l, x);
    NoDupCard(KeyPositions(x, l));
  }

  /** In particular when the position hash never collides on the keys: they are all different. */
  lemma InjectiveHashSpreadsPoints(m: Members, l: Layout, x: NodeId)
    requires WellFormed(m, l) && x in m.nodes
    requires forall i, j :: 0 <= i < l.vnodesPerNode && 0 <= j < l.vnodesPerNode && VNodeKey(x, i) != VNodeKey(x, j) ==>
               l.positionFor(VNodeKey(x, i)) != l.positionFor(VNodeKey(x, j))
    ensures |PositionsOf(m.ring, x)| == l.vnodesPerNode
  {
    forall i, j | 0 <= i < j < l.vnodesPerNode
      ensures l.positionFor(VNodeKey(x, i)) != l.positionFor(VNodeKey(x, j))
    {
      if VNodeKey(x, i) == VNodeKey(x, j) {
        KeysAreDistinct(x, i, j);
      }
    }
    PointsAreSpreadIff(m, l, x);
  }
}
