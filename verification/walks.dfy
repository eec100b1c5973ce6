// Chains of calls through the overlay that never turn straight back, and what the absence
// of rings makes of them.

module Walks {
  import opened Lists
  import opened Overlay
  import opened OverlayTheorems

  // Never straight back to the node just come from.
  ghost predicate Onward(p: seq<Node>) {
    forall i, j :: 0 <= i && j == i + 2 && j < |p| ==> p[i] != p[j]
  }

  ghost predicate OnwardWalk(t: Topology, p: seq<Node>) { Walk(t, p) && Onward(p) }

  // Distinct nodes in a ring, other than two neighbours going back and forth.
  ghost predicate Ring(t: Topology, c: seq<Node>) {
    Walk(t, c) && Distinct(c) && t.Edge(Last(c), c[0]) && |c| != 2
  }

  // No ring within the portal's reach.
  ghost predicate Acyclic(t: Topology) { forall c :: Ring(t, c) ==> !Connected(t, t.root, c[0]) }

  // ---- on an acyclic overlay ----

  lemma PortalConnected(t: Topology)
    requires t.Valid()
    ensures Connected(t, t.root, t.root)
  {
    assert Walk(t, [t.root]) && Last([t.root]) == t.root;
  }

  lemma {:induction false} ConnectedOn(t: Topology, p: seq<Node>, i: nat)
    requires Walk(t, p) && Connected(t, t.root, p[0]) && i < |p|
    ensures Connected(t, t.root, p[i])
    decreases i
  {
    if i > 0 {
      ConnectedOn(t, p, i - 1);
      var q :| Walk(t, q) && q[0] == t.root && Last(q) == p[i - 1];
      assert t.Edge(p[i - 1], p[i]);
      ExtendWalk(t, q, p[i]);
      assert (q + [p[i]])[0] == t.root && Last(q + [p[i]]) == p[i];
    }
  }

  lemma DistinctIffNew<T>(s: seq<T>, x: T)
    requires Distinct(s)
    ensures Distinct(s + [x]) <==> x !in s
  {
    var more := s + [x];
    if x in s {
      var k :| 0 <= k < |s| && s[k] == x;
      assert more[k] == more[|s|];
    }
  }

  lemma {:induction false} FirstRepeat(p: seq<Node>) returns (i: nat, j: nat)
    requires !Distinct(p)
    ensures i < j < |p| && p[i] == p[j] && Distinct(p[i..j])
  {
    var init := p[..|p| - 1];
    if Distinct(init) {
      assert p == init + [Last(p)];
      DistinctIffNew(init, Last(p));
      i :| 0 <= i < |init| && init[i] == Last(p);
      j := |p| - 1;
      forall a, b | 0 <= a < b < |p[i..j]| ensures p[i..j][a] != p[i..j][b] {
        assert init[i + a] != init[i + b];
      }
    } else {
      i, j := FirstRepeat(init);
      assert init[i..j] == p[i..j];
    }
  }

  lemma SubWalk(t: Topology, p: seq<Node>, i: nat, j: nat)
    requires Walk(t, p) && i < j <= |p| && t.Valid()
    ensures Walk(t, p[i..j])
  {
    forall a, b | 0 <= a && b == a + 1 && b < |p[i..j]| ensures t.Edge(p[i..j][a], p[i..j][b]) {
      assert t.Edge(p[i + a], p[i + b]);
    }
    if i > 0 {
      assert t.Edge(p[i - 1], p[i]);
      EdgeBoth(t, p[i - 1], p[i]);
    }
  }

  // Coming back to a node, without having turned back, closes a ring.
  lemma RepeatIsRing(t: Topology, p: seq<Node>, i: nat, j: nat)
    requires t.Valid() && OnwardWalk(t, p) && i < j < |p| && p[i] == p[j] && Distinct(p[i..j])
    ensures Ring(t, p[i..j])
  {
    SubWalk(t, p, i, j);
    assert t.Edge(p[j - 1], p[j]);
    assert |p[i..j]| != 2;
  }

  lemma OnwardNeverRepeats(t: Topology, p: seq<Node>)
    requires t.Valid() && Acyclic(t) && OnwardWalk(t, p) && Connected(t, t.root, p[0])
    ensures Distinct(p)
  {
    if !Distinct(p) {
      var i, j := FirstRepeat(p);
      ConnectedOn(t, p, i);
      RepeatIsRing(t, p, i, j);
    }
  }

  lemma {:induction false} DistinctFits(p: seq<Node>, s: set<Node>)
    requires Distinct(p) && forall k :: 0 <= k < |p| ==> p[k] in s
    ensures |p| <= |s|
    decreases |p|
  {
    if p != [] {
      var last := p[|p| - 1];
      DistinctFits(p[..|p| - 1], s - {last});
    }
  }

  lemma WalkStaysIn(t: Topology, p: seq<Node>, k: nat)
    requires t.Valid() && Walk(t, p) && k < |p|
    ensures p[k] in t.peers
  {
    if k > 0 {
      assert t.Edge(p[k - 1], p[k]);
      EdgeBoth(t, p[k - 1], p[k]);
    }
  }

  lemma OnwardIsShort(t: Topology, p: seq<Node>)
    requires t.Valid() && Acyclic(t) && OnwardWalk(t, p) && Connected(t, t.root, p[0])
    ensures Distinct(p) && |p| <= |t.peers|
  {
    OnwardNeverRepeats(t, p);
    forall k | 0 <= k < |p| ensures p[k] in t.peers.Keys {
      WalkStaysIn(t, p, k);
    }
    DistinctFits(p, t.peers.Keys);
  }

  // ---- one way there ----

  function Reversed<T>(s: seq<T>): (r: seq<T>)
    ensures |r| == |s| && forall k :: 0 <= k < |s| ==> r[k] == s[|s| - 1 - k]
  {
    seq(|s|, i requires 0 <= i < |s| => s[|s| - 1 - i])
  }

  // There by one walk and back by another that arrives differently.
  lemma ThereAndBack(t: Topology, p: seq<Node>, q: seq<Node>) returns (r: seq<Node>)
    requires t.Valid() && OnwardWalk(t, p) && OnwardWalk(t, q) && |p| > 1 && |q| > 1
    requires Last(p) == Last(q) && p[|p| - 2] != q[|q| - 2]
    ensures OnwardWalk(t, r) && r[0] == p[0] && Last(r) == q[0] && |r| > 2
  {
    var back := Reversed(q[..|q| - 1]);
    r := p + back;
    forall k | 0 <= k < |back| ensures back[k] == q[|q| - 2 - k] {}
    forall i, j | 0 <= i && j == i + 1 && j < |r| ensures t.Edge(r[i], r[j]) {
      if j < |p| {
        assert t.Edge(p[i], p[j]);
      } else {
        var a, b := |q| - 2 - (j - |p|), |q| - 1 - (j - |p|);
        assert t.Edge(q[a], q[b]);
        EdgeBoth(t, q[a], q[b]);
        assert r[j] == q[a] && r[i] == q[b];
      }
    }
    forall i, j | 0 <= i && j == i + 2 && j < |r| ensures r[i] != r[j] {
      if j < |p| {
        assert p[i] != p[j];
      } else if i >= |p| - 1 {
        var a, b := |q| - 2 - (j - |p|), |q| - (j - |p|);
        assert q[a] != q[b];
        assert r[j] == q[a] && r[i] == q[b];
      }
    }
  }

  // Between two nodes within reach of an acyclic overlay's portal there is at most one
  // onward walk.
  lemma {:induction false} OneWay(t: Topology, p: seq<Node>, q: seq<Node>)
    requires t.Valid() && Acyclic(t) && OnwardWalk(t, p) && OnwardWalk(t, q)
    requires p[0] == q[0] && Last(p) == Last(q) && Connected(t, t.root, p[0])
    ensures p == q
    decreases |p|
  {
    OnwardNeverRepeats(t, p);
    OnwardNeverRepeats(t, q);
    if |p| > 1 && |q| > 1 {
      if p[|p| - 2] == q[|q| - 2] {
        OnwardInit(t, p);
        OnwardInit(t, q);
        OneWay(t, p[..|p| - 1], q[..|q| - 1]);
        assert p == p[..|p| - 1] + [Last(p)] && q == q[..|q| - 1] + [Last(q)];
      } else {
        var r := ThereAndBack(t, p, q);
        assert r[0] == r[|r| - 1];
        OnwardNeverRepeats(t, r);
      }
    }
  }

  lemma OnwardInit(t: Topology, p: seq<Node>)
    requires OnwardWalk(t, p) && |p| > 1
    ensures OnwardWalk(t, p[..|p| - 1])
  {
    var init := p[..|p| - 1];
    forall i, j | 0 <= i && j == i + 1 && j < |init| ensures t.Edge(init[i], init[j]) {
      assert t.Edge(p[i], p[j]);
    }
    forall i, j | 0 <= i && j == i + 2 && j < |init| ensures init[i] != init[j] {
      assert p[i] != p[j];
    }
  }

  lemma OnwardExtends(t: Topology, p: seq<Node>, n: Node)
    requires OnwardWalk(t, p) && t.Edge(Last(p), n) && (|p| > 1 ==> p[|p| - 2] != n)
    ensures OnwardWalk(t, p + [n])
  {
    ExtendWalk(t, p, n);
    forall i, j | 0 <= i && j == i + 2 && j < |p + [n]| ensures (p + [n])[i] != (p + [n])[j] {
      if j < |p| { assert p[i] != p[j]; }
    }
  }

  // Any walk can be made onward by cutting its turns, over the same nodes.
  lemma {:induction false} Straightened(t: Topology, p: seq<Node>) returns (q: seq<Node>)
    requires Walk(t, p)
    ensures OnwardWalk(t, q) && q[0] == p[0] && Last(q) == Last(p) && forall x :: x in q ==> x in p
    decreases |p|
  {
    if |p| == 1 {
      q := p;
    } else {
      var init, n := p[..|p| - 1], Last(p);
      assert p == init + [n];
      forall i, j | 0 <= i && j == i + 1 && j < |init| ensures t.Edge(init[i], init[j]) {
        assert t.Edge(p[i], p[j]);
      }
      assert t.Edge(p[|p| - 2], p[|p| - 1]);
      var r := Straightened(t, init);
      if |r| > 1 && r[|r| - 2] == n {
        q := r[..|r| - 1];
        OnwardInit(t, r);
        assert forall x :: x in q ==> x in r;
      } else {
        q := r + [n];
        OnwardExtends(t, r, n);
      }
    }
  }

  // Any walk can be cut short to one that repeats no node.
  lemma {:induction false} Shortened(t: Topology, p: seq<Node>) returns (q: seq<Node>)
    requires t.Valid() && Walk(t, p)
    ensures OnwardWalk(t, q) && Distinct(q) && q[0] == p[0] && Last(q) == Last(p)
    decreases |p|
  {
    if |p| == 1 {
      q := p;
    } else {
      var n := Last(p);
      SubWalk(t, p, 0, |p| - 1);
      assert t.Edge(p[|p| - 2], n);
      var r := Shortened(t, p[..|p| - 1]);
      if n in r {
        var k :| 0 <= k < |r| && r[k] == n;
        SubWalk(t, r, 0, k + 1);
        q := r[..k + 1];
      } else {
        q := r + [n];
        DistinctIffNew(r, n);
        OnwardExtends(t, r, n);
      }
    }
  }

  // ---- with self-edges ----

  // No node straight after itself.
  ghost predicate Steady(p: seq<Node>) {
    forall i, j :: 0 <= i && j == i + 1 && j < |p| ==> p[i] != p[j]
  }

  // No ring of three or more nodes within the portal's reach.
  ghost predicate NoWideRing(t: Topology) { forall c :: Ring(t, c) && |c| > 2 ==> !Connected(t, t.root, c[0]) }

  ghost predicate LoopWithin(t: Topology, a: Node) { Connected(t, t.root, a) && t.Edge(a, a) }

  lemma SteadyNeverRepeats(t: Topology, p: seq<Node>)
    requires t.Valid() && NoWideRing(t) && OnwardWalk(t, p) && Steady(p) && Connected(t, t.root, p[0])
    ensures Distinct(p) && |p| <= |t.peers|
  {
    if !Distinct(p) {
      var i, j := FirstRepeat(p);
      ConnectedOn(t, p, i);
      RepeatIsRing(t, p, i, j);
    }
    forall k | 0 <= k < |p| ensures p[k] in t.peers.Keys {
      WalkStaysIn(t, p, k);
    }
    DistinctFits(p, t.peers.Keys);
  }

  ghost predicate OneLoop(t: Topology) { forall a, b :: LoopWithin(t, a) && LoopWithin(t, b) ==> a == b }

  // With a single self-edge within reach a walk takes it once at most, so it is two walks
  // that repeat no node.
  lemma OneLoopIsShort(t: Topology, p: seq<Node>)
    requires t.Valid() && NoWideRing(t) && OneLoop(t) && OnwardWalk(t, p) && Connected(t, t.root, p[0])
    ensures |p| <= 2 * |t.peers|
  {
    hide Connected, NoWideRing, OneLoop, Walk;
    if Steady(p) {
      SteadyNeverRepeats(t, p);
    } else {
      var i, j := FirstStutter(p);
      OnwardPart(t, p, 0, j);
      SteadyNeverRepeats(t, p[0..j]);
      OnwardPart(t, p, j, |p|);
      ConnectedOn(t, p, j);
      LoopAt(t, p, i);
      RestIsSteady(t, p[j..|p|]);
      SteadyNeverRepeats(t, p[j..|p|]);
    }
  }

  // A walk that has just taken the self-edge does not take it again.
  lemma RestIsSteady(t: Topology, p: seq<Node>)
    requires t.Valid() && NoWideRing(t) && OneLoop(t) && OnwardWalk(t, p) && LoopWithin(t, p[0])
    requires |p| > 1 ==> p[1] != p[0]
    ensures Steady(p)
  {
    hide NoWideRing, Walk, Onward;
    if !Steady(p) {
      var i, j := FirstStutter(p);
      LoopAt(t, p, i);
      OnwardPart(t, p, 0, j);
      SteadyNeverRepeats(t, p[0..j]);
    }
  }

  lemma FirstStutter(p: seq<Node>) returns (i: nat, j: nat)
    requires !Steady(p)
    ensures j == i + 1 && j < |p| && p[i] == p[j] && Steady(p[0..j])
  {
    var a, b :| 0 <= a && b == a + 1 && b < |p| && p[a] == p[b];
    i := 0;
    while p[i] != p[i + 1]
      invariant i <= a && forall k, l :: 0 <= k < i && l == k + 1 ==> p[k] != p[l]
      decreases a - i
    {
      i := i + 1;
    }
    j := i + 1;
  }

  lemma LoopAt(t: Topology, p: seq<Node>, i: nat)
    requires Walk(t, p) && Connected(t, t.root, p[0]) && i + 1 < |p| && p[i] == p[i + 1]
    ensures LoopWithin(t, p[i])
  {
    ConnectedOn(t, p, i);
    assert t.Edge(p[i], p[i + 1]);
  }

  lemma OnwardPart(t: Topology, p: seq<Node>, i: nat, j: nat)
    requires t.Valid() && OnwardWalk(t, p) && i < j <= |p|
    ensures OnwardWalk(t, p[i..j])
  {
    SubWalk(t, p, i, j);
    forall a, b | 0 <= a && b == a + 2 && b < |p[i..j]| ensures p[i..j][a] != p[i..j][b] {
      assert p[i + a] != p[i + b];
    }
  }

  // A tree overlay separates its portal's neighbours, so its fan-out rejects nobody.
  lemma AcyclicSeparates(t: Topology)
    requires t.Valid() && Acyclic(t)
    ensures PortalSeparates(t)
  {
    PortalConnected(t);
    assert [t.root][0] == t.root && !Ring(t, [t.root]);
    forall a, b | t.Edge(t.root, a) && t.Edge(t.root, b) && OffPortal(t, a, b) ensures a == b {
      var p :| Walk(t, p) && p[0] == a && Last(p) == b && t.root !in p;
      var q := Straightened(t, p);
      var long, short := [t.root] + q, [t.root, b];
      assert OnwardWalk(t, long) by {
        assert forall k :: 0 <= k < |q| ==> q[k] in q;
        forall i, j | 0 <= i && j == i + 1 && j < |long| ensures t.Edge(long[i], long[j]) {
          if i > 0 { assert t.Edge(q[i - 1], q[j - 1]); }
        }
        forall i, j | 0 <= i && j == i + 2 && j < |long| ensures long[i] != long[j] {
          if i > 0 { assert q[i - 1] != q[j - 1]; }
        }
      }
      OneWay(t, long, short);
      assert long[1] == short[1];
    }
  }
}
