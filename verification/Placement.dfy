/** Preference lists: the first n distinct nodes clockwise of a key, and how they change as nodes come and go. */
module Placement {
  import opened Types
  import opened Seqs
  import opened RingSpec

  function AtOrAfter(p: Position): VNode -> bool {
    (v: VNode) => v.position >= p
  }

  function Before(p: Position): VNode -> bool {
    (v: VNode) => v.position < p
  }

  function NotOf(x: NodeId): VNode -> bool {
    (v: VNode) => v.nodeId != x
  }

  /** The ring's entries in the order a clockwise walk from p meets them. */
  function Clockwise(r: Ring, p: Position): Ring {
    Filter(r, AtOrAfter(p)) + Filter(r, Before(p))
  }

  /** The node ids of a walk in order of first appearance. */
  function Distinct(walk: Ring): (d: seq<NodeId>)
    ensures NoDup(d)
  {
    if walk == [] then []
    else
      var d := Distinct(walk[..|walk| - 1]);
      if walk[|walk| - 1].nodeId in d then d else d + [walk[|walk| - 1].nodeId]
  }

  function NodesOn(r: Ring): set<NodeId> {
    set v | v in r :: v.nodeId
  }

  lemma {:induction false} DistinctMembers(walk: Ring)
    ensures Elems(Distinct(walk)) == NodesOn(walk)
  {
    if walk == [] {
    } else {
      var t, l := walk[..|walk| - 1], walk[|walk| - 1];
      DistinctMembers(t);
      assert walk == t + [l];
      assert NodesOn(walk) == NodesOn(t) + {l.nodeId};
      assert Elems(Distinct(walk)) == Elems(Distinct(t)) + {l.nodeId};
    }
  }

  /** What preferenceList returns for a key at position p. */
  function Prefs(r: Ring, p: Position, n: nat): (list: seq<NodeId>)
    ensures NoDup(list)
  {
    Take(Distinct(Clockwise(r, p)), n)
  }

  lemma ClockwiseFilter(r: Ring, p: Position, f: VNode -> bool)
    ensures Clockwise(Filter(r, f), p) == Filter(Clockwise(r, p), f)
  {
    FilterCommutes(r, f, AtOrAfter(p));
    FilterCommutes(r, f, Before(p));
    FilterAppend(Filter(r, AtOrAfter(p)), Filter(r, Before(p)), f);
  }

  lemma ClockwiseMembers(r: Ring, p: Position)
    ensures forall v :: v in Clockwise(r, p) <==> v in r
  {
    FilterMembers(r, AtOrAfter(p));
    FilterMembers(r, Before(p));
  }

  lemma {:induction false} DistinctWithout(walk: Ring, x: NodeId)
    ensures Distinct(Filter(walk, NotOf(x))) == Filter(Distinct(walk), Other(x))
  {
    if walk == [] {
    } else {
      var t, l := walk[..|walk| - 1], walk[|walk| - 1];
      DistinctWithout(t, x);
      FilterMembers(Distinct(t), Other(x));
      var ft := Filter(t, NotOf(x));
      if l.nodeId != x {
        assert (ft + [l])[..|ft + [l]| - 1] == ft;
        if l.nodeId !in Distinct(t) {
          FilterSnoc(Distinct(t), l.nodeId, Other(x));
        }
      } else if l.nodeId !in Distinct(t) {
        FilterSnoc(Distinct(t), l.nodeId, Other(x));
      }
    }
  }

  lemma {:induction false} DistinctPrefix(walk: Ring, k: nat)
    requires k <= |walk|
    ensures Distinct(walk[..k]) <= Distinct(walk)
  {
    if k == |walk| {
      assert walk[..k] == walk;
    } else {
      var t := walk[..|walk| - 1];
      DistinctPrefix(t, k);
      assert t[..k] == walk[..k];
    }
  }

  lemma PrefsPrefix(r: Ring, p: Position, m: nat, n: nat)
    requires m <= n
    ensures Prefs(r, p, m) == Take(Prefs(r, p, n), m)
  {
  }

  // ---------- membership changes ----------

  /** The ring after removeNode(x). */
  function Without(r: Ring, x: NodeId): Ring {
    Filter(r, NotOf(x))
  }

  /** A list that lacks x in its first n entries is the longer one without x, cut to n. */
  lemma UnlistedCut(l: seq<NodeId>, x: NodeId, n: nat)
    requires NoDup(l) && |l| <= n + 1 && x !in Take(l, n)
    ensures Take(Filter(l, Other(x)), n) == Take(l, n)
  {
    if x in l {
      assert l == l[..n] + [x] + [];
      WithoutAt(l[..n], x, []);
    } else {
      FilterAll(l, Other(x));
    }
  }

  /** Removing x deletes x from the list one longer, and does nothing else. */
  lemma RemovalShiftsList(r: Ring, x: NodeId, p: Position, n: nat)
    ensures Prefs(Without(r, x), p, n) == Take(Filter(Prefs(r, p, n + 1), Other(x)), n)
    ensures x !in Prefs(r, p, n) ==> Prefs(Without(r, x), p, n) == Prefs(r, p, n)
  {
    ClockwiseFilter(r, p, NotOf(x));
    var d := Distinct(Clockwise(r, p));
    DistinctWithout(Clockwise(r, p), x);
    TakeWithout(d, x, n);
    if x !in Prefs(r, p, n) {
      UnlistedCut(Prefs(r, p, n + 1), x, n);
    }
  }

  /** The ring after addNode(x) with the given virtual nodes. */
  function With(r: Ring, points: Ring): Ring {
    StableSort(r + points)
  }

  /** removeNode undoes addNode exactly, position ties included. */
  lemma RemoveUndoesAdd(r: Ring, x: NodeId, points: Ring)
    requires Sorted(r)
    requires forall v :: v in r ==> v.nodeId != x
    requires forall v :: v in points ==> v.nodeId == x
    ensures Without(With(r, points), x) == r
  {
    FilterSort(r + points, NotOf(x));
    FilterAppend(r, points, NotOf(x));
    FilterAll(r, NotOf(x));
    FilterNone(points, NotOf(x));
    assert r + [] == r;
    SortOfSorted(r);
  }

  /** list is base with x slipped in at place i, cut to n. */
  predicate InsertedAt(list: seq<NodeId>, base: seq<NodeId>, x: NodeId, i: nat, n: nat) {
    i <= |base| && i < n && list == Take(base[..i] + [x] + base[i..], n)
  }

  lemma {:induction false} CutAround(l: seq<NodeId>, x: NodeId, i: nat, n: nat)
    requires NoDup(l) && |l| <= n + 1 && i < |l| && i < n && l[i] == x
    ensures InsertedAt(Take(l, n), Take(Filter(l, Other(x)), n), x, i, n)
  {
    var a, b := l[..i], l[i + 1..];
    assert l == a + [x] + b;
    assert forall j :: 0 <= j < |b| ==> b[j] == l[i + 1 + j];
    assert x !in b;
    WithoutAt(a, x, b);
    assert (a + b)[..i] == a && (a + b)[i..] == b;
  }

  /** Adding x leaves a list alone, or slips x in at one place and cuts back to n. */
  lemma AdditionInsertsNode(r: Ring, x: NodeId, points: Ring, p: Position, n: nat)
    requires Sorted(r)
    requires forall v :: v in r ==> v.nodeId != x
    requires forall v :: v in points ==> v.nodeId == x
    ensures x !in Prefs(With(r, points), p, n) ==> Prefs(With(r, points), p, n) == Prefs(r, p, n)
    ensures x in Prefs(With(r, points), p, n) ==>
              exists i :: InsertedAt(Prefs(With(r, points), p, n), Prefs(r, p, n), x, i, n)
  {
    var grown := With(r, points);
    RemoveUndoesAdd(r, x, points);
    RemovalShiftsList(grown, x, p, n);
    var list, longer := Prefs(grown, p, n), Prefs(grown, p, n + 1);
    PrefsPrefix(grown, p, n, n + 1);
    assert list == Take(longer, n) && |longer| <= n + 1;
    if x in list {
      var i :| 0 <= i < |list| && list[i] == x;
      assert longer[i] == x;
      CutAround(longer, x, i, n);
      assert InsertedAt(list, Prefs(r, p, n), x, i, n);
    }
  }

  /** With at least one point, a node that finds room in the list takes it. */
  lemma AdditionFillsRoom(r: Ring, x: NodeId, points: Ring, p: Position, n: nat)
    requires Sorted(r) && points != []
    requires forall v :: v in r ==> v.nodeId != x
    requires forall v :: v in points ==> v.nodeId == x
    requires |Prefs(r, p, n)| < n
    ensures x in Prefs(With(r, points), p, n)
  {
    var grown := With(r, points);
    RemoveUndoesAdd(r, x, points);
    var d := Distinct(Clockwise(grown, p));
    ClockwiseFilter(grown, p, NotOf(x));
    DistinctWithout(Clockwise(grown, p), x);
    SortMembers(r + points);
    assert points[0] in r + points;
    ClockwiseMembers(grown, p);
    DistinctMembers(Clockwise(grown, p));
    assert x in NodesOn(Clockwise(grown, p));
    assert x in Elems(d);
    WithoutLength(d, x);
  }

  // ---------- histories of membership changes ----------

  datatype Members = Members(ring: Ring, nodes: set<NodeId>)

  datatype Change = Add(nodeId: NodeId) | Remove(nodeId: NodeId)

  /** How a cluster numbers its points: virtual nodes per node, and the position hash. */
  datatype Layout = Layout(vnodesPerNode: nat, positionFor: string -> Position)
  {
    function Points(x: NodeId): (r: Ring)
      ensures forall v :: v in r ==> v.nodeId == x
    {
      VNodes(x, vnodesPerNode, positionFor)
    }
  }

  function Of(x: NodeId): VNode -> bool {
    (v: VNode) => v.nodeId == x
  }

  const EMPTY := Members([], {})

  function Step(m: Members, c: Change, l: Layout): Members {
    match c
    case Add(x) =>
      if x in m.nodes then m else Members(With(m.ring, l.Points(x)), m.nodes + {x})
    case Remove(x) =>
      if x !in m.nodes then m else Members(Without(m.ring, x), m.nodes - {x})
  }

  function After(m: Members, cs: seq<Change>, l: Layout): Members {
    if cs == [] then m else Step(After(m, cs[..|cs| - 1], l), cs[|cs| - 1], l)
  }

  lemma {:induction false} AfterAppend(m: Members, cs: seq<Change>, more: seq<Change>, l: Layout)
    ensures After(m, cs + more, l) == After(After(m, cs, l), more, l)
  {
    if more == [] {
      assert cs + more == cs;
    } else {
      AfterAppend(m, cs, more[..|more| - 1], l);
      assert (cs + more)[..|cs + more| - 1] == cs + more[..|more| - 1];
    }
  }

  /** Sorted, with exactly each member's points, a member's tied points in the order they were pushed. */
  ghost predicate WellFormed(m: Members, l: Layout) {
    && Sorted(m.ring)
    && (forall v :: v in m.ring ==> v.nodeId in m.nodes)
    && (forall x :: x in m.nodes ==> Filter(m.ring, Of(x)) == StableSort(l.Points(x)))
  }

  lemma {:induction false} FilterKeepsSorted(r: Ring, f: VNode -> bool)
    requires Sorted(r)
    ensures Sorted(Filter(r, f))
  {
    if r == [] {
    } else {
      var t, e := r[..|r| - 1], r[|r| - 1];
      FilterKeepsSorted(t, f);
      FilterMembers(t, f);
      var ft := Filter(t, f);
      assert forall i :: 0 <= i < |ft| ==> ft[i] in t && ft[i].position <= e.position;
    }
  }

  lemma StepKeepsWellFormed(m: Members, c: Change, l: Layout)
    requires WellFormed(m, l)
    ensures WellFormed(Step(m, c, l), l)
  {
    var x := c.nodeId;
    var after := Step(m, c, l);
    if c.Add? && x !in m.nodes {
      var points := l.Points(x);
      SortIsSorted(m.ring + points);
      SortMembers(m.ring + points);
      forall y | y in after.nodes ensures Filter(after.ring, Of(y)) == StableSort(l.Points(y)) {
        FilterSort(m.ring + points, Of(y));
        FilterAppend(m.ring, points, Of(y));
        if y == x {
          FilterNone(m.ring, Of(y));
          FilterAll(points, Of(y));
          assert [] + points == points;
        } else {
          FilterNone(points, Of(y));
          assert Filter(m.ring, Of(y)) + [] == Filter(m.ring, Of(y));
          FilterKeepsSorted(m.ring, Of(y));
          SortOfSorted(Filter(m.ring, Of(y)));
        }
      }
    } else if c.Remove? && x in m.nodes {
      FilterKeepsSorted(m.ring, NotOf(x));
      FilterMembers(m.ring, NotOf(x));
      forall y | y in after.nodes ensures Filter(after.ring, Of(y)) == StableSort(l.Points(y)) {
        FilterCommutes(m.ring, NotOf(x), Of(y));
        FilterMembers(m.ring, Of(y));
        FilterAll(Filter(m.ring, Of(y)), NotOf(x));
      }
    }
  }

  lemma {:induction false} AfterIsWellFormed(m: Members, cs: seq<Change>, l: Layout)
    requires WellFormed(m, l)
    ensures WellFormed(After(m, cs, l), l)
  {
    if cs == [] {
    } else {
      AfterIsWellFormed(m, cs[..|cs| - 1], l);
      StepKeepsWellFormed(After(m, cs[..|cs| - 1], l), cs[|cs| - 1], l);
    }
  }

  // ---------- replicas survive churn ----------

  lemma InsertionLosesLast(list: seq<NodeId>, base: seq<NodeId>, x: NodeId, i: nat, n: nat)
    requires InsertedAt(list, base, x, i, n) && |base| <= n
    ensures forall y :: y in base && (|base| == n ==> y != base[n - 1]) ==> y in list
  {
    forall y | y in base && (|base| == n ==> y != base[n - 1]) ensures y in list {
      var j :| 0 <= j < |base| && base[j] == y;
      var whole := base[..i] + [x] + base[i..];
      var k := if j < i then j else j + 1;
      assert whole[k] == y;
      assert list[k] == whole[k];
    }
  }

  lemma RemovalLosesOnlyX(l: seq<NodeId>, x: NodeId, n: nat)
    requires NoDup(l) && |l| <= n + 1 && x in l
    ensures forall y :: y in l && y != x ==> y in Take(Filter(l, Other(x)), n)
  {
    var i :| 0 <= i < |l| && l[i] == x;
    var a, b := l[..i], l[i + 1..];
    assert l == a + [x] + b;
    assert forall j :: 0 <= j < |b| ==> b[j] == l[i + 1 + j];
    WithoutAt(a, x, b);
  }

  /** One change of membership costs a key at most one of the nodes in its list. */
  lemma StepLosesAtMostOne(m: Members, c: Change, l: Layout, p: Position, n: nat)
    returns (lost: NodeId)
    requires WellFormed(m, l)
    ensures forall y :: y in Prefs(m.ring, p, n) && y != lost ==> y in Prefs(Step(m, c, l).ring, p, n)
  {
    var x := c.nodeId;
    var before, after := Prefs(m.ring, p, n), Prefs(Step(m, c, l).ring, p, n);
    lost := x;
    if c.Add? && x !in m.nodes {
      AdditionInsertsNode(m.ring, x, l.Points(x), p, n);
      if x in after {
        var i :| InsertedAt(after, before, x, i, n);
        InsertionLosesLast(after, before, x, i, n);
        if |before| == n {
          lost := before[n - 1];
        }
      }
    } else if c.Remove? && x in m.nodes {
      RemovalShiftsList(m.ring, x, p, n);
      if x in before {
        var longer := Prefs(m.ring, p, n + 1);
        assert before == Take(longer, n);
        RemovalLosesOnlyX(longer, x, n);
      }
    }
  }

  /** After m membership changes at most m of a chunk's replicas have left its preference list. */
  lemma {:induction false} ChurnKeepsReplicas(m: Members, cs: seq<Change>, l: Layout, p: Position, n: nat,
                                              acked: set<NodeId>)
    requires WellFormed(m, l)
    requires acked <= Elems(Prefs(m.ring, p, n))
    ensures |acked * Elems(Prefs(After(m, cs, l).ring, p, n))| >= |acked| - |cs|
  {
    if cs == [] {
      assert acked * Elems(Prefs(m.ring, p, n)) == acked;
    } else {
      var mid := After(m, cs[..|cs| - 1], l);
      ChurnKeepsReplicas(m, cs[..|cs| - 1], l, p, n, acked);
      AfterIsWellFormed(m, cs[..|cs| - 1], l);
      var lost := StepLosesAtMostOne(mid, cs[|cs| - 1], l, p, n);
      var kept := acked * Elems(Prefs(mid.ring, p, n));
      var now := acked * Elems(Prefs(After(m, cs, l).ring, p, n));
      assert kept - {lost} <= now;
      SubsetCard(kept - {lost}, now);
    }
  }

  lemma {:induction false} SubsetCard<T>(a: set<T>, b: set<T>)
    requires a <= b
    ensures |a| <= |b|
  {
    if a == {} {
    } else {
      var x :| x in a;
      SubsetCard(a - {x}, b - {x});
    }
  }
}
