/** Preference lists measured on the circle: nearest nodes first, nobody nearer left out. */
module Proximity {
  import opened Types
  import opened Seqs
  import opened RingSpec
  import opened Placement

  /** How far clockwise of `from` the position `to` lies. */
  function Distance(from: Position, to: Position): (d: nat)
    ensures d < RING_SIZE && (from + d) % RING_SIZE == to
  {
    if to >= from then to - from else to + RING_SIZE - from
  }

  /** The clockwise distance from p to x's nearest point, if x has one. */
  function Nearest(r: Ring, p: Position, x: NodeId): (d: Option<nat>)
  {
    if r == [] then None
    else
      var d := Nearest(r[..|r| - 1], p, x);
      var l := r[|r| - 1];
      if l.nodeId != x || (d.Some? && d.value <= Distance(p, l.position)) then d
      else Some(Distance(p, l.position))
  }

  /** d is attained by a point of x and no point of x is nearer. */
  predicate IsNearest(r: Ring, p: Position, x: NodeId, d: nat) {
    && (exists v :: v in r && v.nodeId == x && Distance(p, v.position) == d)
    && (forall v :: v in r && v.nodeId == x ==> d <= Distance(p, v.position))
  }

  lemma {:induction false} NearestMeaning(r: Ring, p: Position, x: NodeId)
    ensures Nearest(r, p, x).None? <==> x !in NodesOn(r)
    ensures Nearest(r, p, x).Some? ==> IsNearest(r, p, x, Nearest(r, p, x).value)
  {
    if r == [] {
    } else {
      var t, l := r[..|r| - 1], r[|r| - 1];
      assert r == t + [l];
      NearestMeaning(t, p, x);
      assert NodesOn(r) == NodesOn(t) + {l.nodeId};
      if Nearest(t, p, x).Some? {
        var v :| v in t && v.nodeId == x && Distance(p, v.position) == Nearest(t, p, x).value;
        assert v in r;
      }
      assert l in r;
    }
  }

  predicate Outward(walk: Ring, p: Position) {
    forall i, j :: 0 <= i < j < |walk| ==> Distance(p, walk[i].position) <= Distance(p, walk[j].position)
  }

  lemma ClockwiseIsOutward(r: Ring, p: Position)
    requires Sorted(r)
    ensures Outward(Clockwise(r, p), p)
  {
    var a, b := Filter(r, AtOrAfter(p)), Filter(r, Before(p));
    FilterKeepsSorted(r, AtOrAfter(p));
    FilterKeepsSorted(r, Before(p));
    FilterMembers(r, AtOrAfter(p));
    FilterMembers(r, Before(p));
    forall i | 0 <= i < |a| ensures a[i].position >= p {
      assert a[i] in a;
    }
    forall i | 0 <= i < |b| ensures b[i].position < p {
      assert b[i] in b;
    }
  }

  lemma NearestNoFarther(a: Ring, b: Ring, p: Position, x: NodeId)
    requires forall v :: v in a ==> v in b
    requires Nearest(a, p, x).Some?
    ensures Nearest(b, p, x).Some? && Nearest(b, p, x).value <= Nearest(a, p, x).value
  {
    NearestMeaning(a, p, x);
    NearestMeaning(b, p, x);
    var v :| v in a && v.nodeId == x && Distance(p, v.position) == Nearest(a, p, x).value;
    assert v in b;
  }

  lemma SameEntriesSameNearest(a: Ring, b: Ring, p: Position, x: NodeId)
    requires forall v :: v in a <==> v in b
    ensures Nearest(a, p, x) == Nearest(b, p, x)
  {
    if Nearest(a, p, x).Some? {
      NearestNoFarther(a, b, p, x);
    }
    if Nearest(b, p, x).Some? {
      NearestNoFarther(b, a, p, x);
    }
  }

  lemma NearestSnoc(t: Ring, l: VNode, p: Position, x: NodeId)
    requires forall v :: v in t ==> Distance(p, v.position) <= Distance(p, l.position)
    ensures Nearest(t, p, x).Some? ==>
              Nearest(t + [l], p, x) == Nearest(t, p, x) && Nearest(t, p, x).value <= Distance(p, l.position)
    ensures Nearest(t, p, x).None? && l.nodeId == x ==> Nearest(t + [l], p, x) == Some(Distance(p, l.position))
  {
    assert (t + [l])[..|t|] == t;
    NearestMeaning(t, p, x);
  }

  predicate ByDistance(d: seq<NodeId>, r: Ring, p: Position) {
    && (forall i :: 0 <= i < |d| ==> Nearest(r, p, d[i]).Some?)
    && (forall i, j :: 0 <= i < j < |d| ==> Nearest(r, p, d[i]).value <= Nearest(r, p, d[j]).value)
  }

  lemma ByDistanceSnoc(d: seq<NodeId>, t: Ring, l: VNode, p: Position)
    requires ByDistance(d, t, p)
    requires forall v :: v in t ==> Distance(p, v.position) <= Distance(p, l.position)
    ensures ByDistance(d, t + [l], p)
    ensures Nearest(t, p, l.nodeId).None? ==> ByDistance(d + [l.nodeId], t + [l], p)
  {
    forall i | 0 <= i < |d|
      ensures Nearest(t + [l], p, d[i]) == Nearest(t, p, d[i])
      ensures Nearest(t, p, d[i]).value <= Distance(p, l.position)
    {
      NearestSnoc(t, l, p, d[i]);
    }
    NearestSnoc(t, l, p, l.nodeId);
  }

  /** On an outward walk nodes appear in order of their nearest point. */
  lemma {:induction false} DistinctByDistance(walk: Ring, p: Position)
    requires Outward(walk, p)
    ensures ByDistance(Distinct(walk), walk, p)
  {
    if walk == [] {
    } else {
      var t, l := walk[..|walk| - 1], walk[|walk| - 1];
      assert walk == t + [l];
      forall v | v in t ensures Distance(p, v.position) <= Distance(p, l.position) {
        var k :| 0 <= k < |t| && t[k] == v;
        assert walk[k] == v;
      }
      DistinctByDistance(t, p);
      DistinctMembers(t);
      NearestMeaning(t, p, l.nodeId);
      assert l.nodeId in Distinct(t) <==> l.nodeId in Elems(Distinct(t));
      ByDistanceSnoc(Distinct(t), t, l, p);
    }
  }

  lemma AllNodesByDistance(r: Ring, p: Position)
    requires Sorted(r)
    ensures Elems(Distinct(Clockwise(r, p))) == NodesOn(r)
    ensures ByDistance(Distinct(Clockwise(r, p)), r, p)
  {
    var walk := Clockwise(r, p);
    var d := Distinct(walk);
    ClockwiseMembers(r, p);
    ClockwiseIsOutward(r, p);
    DistinctByDistance(walk, p);
    DistinctMembers(walk);
    forall i | 0 <= i < |d| ensures Nearest(r, p, d[i]) == Nearest(walk, p, d[i]) {
      SameEntriesSameNearest(walk, r, p, d[i]);
    }
  }

  lemma NothingNearerCut(d: seq<NodeId>, n: nat, r: Ring, p: Position, x: NodeId, i: nat)
    requires ByDistance(d, r, p) && x in d && x !in Take(d, n) && i < |Take(d, n)|
    ensures Nearest(r, p, x).Some?
    ensures Nearest(r, p, Take(d, n)[i]).value <= Nearest(r, p, x).value
  {
    var j :| 0 <= j < |d| && d[j] == x;
    assert forall k :: 0 <= k < |Take(d, n)| ==> d[k] == Take(d, n)[k] && Take(d, n)[k] in Take(d, n);
  }

  function Smaller(a: nat, b: nat): nat {
    if a <= b then a else b
  }

  /** No node outside the list is strictly nearer than one inside. */
  ghost predicate NobodyNearer(list: seq<NodeId>, r: Ring, p: Position) {
    forall x, y :: x in NodesOn(r) && x !in list && y in list ==>
      && Nearest(r, p, x).Some? && Nearest(r, p, y).Some?
      && Nearest(r, p, y).value <= Nearest(r, p, x).value
  }

  /** The list is the first n of all nodes by distance: right length, no repeats, nearest first, and no node outside
      it strictly nearer than one inside. */
  lemma PrefsAreNearest(r: Ring, p: Position, n: nat)
    requires Sorted(r)
    ensures |Prefs(r, p, n)| == Smaller(n, |NodesOn(r)|)
    ensures NoDup(Prefs(r, p, n)) && Elems(Prefs(r, p, n)) <= NodesOn(r)
    ensures ByDistance(Prefs(r, p, n), r, p)
    ensures NobodyNearer(Prefs(r, p, n), r, p)
  {
    var d := Distinct(Clockwise(r, p));
    var list := Prefs(r, p, n);
    AllNodesByDistance(r, p);
    NoDupCard(d);
    assert list == Take(d, n);
    forall x | x in list ensures x in NodesOn(r) {
      assert x in Elems(d);
    }
    forall x, y | x in NodesOn(r) && x !in list && y in list
      ensures Nearest(r, p, x).Some? && Nearest(r, p, y).Some?
      ensures Nearest(r, p, y).value <= Nearest(r, p, x).value
    {
      assert x in Elems(d);
      var i :| 0 <= i < |list| && list[i] == y;
      NothingNearerCut(d, n, r, p, x, i);
    }
  }
}
