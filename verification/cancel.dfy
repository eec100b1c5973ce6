// Cancelling a request: the portal cancels its buffer, then every node passes the abort
// on to all its neighbours but the one it came from. Nothing remembers having been
// aborted, so how far the calls nest is the overlay's doing.

module CancelPropagation {
  import Lists
  import ChunkBuffers
  import opened Overlay
  import opened OverlayTheorems
  import opened Walks

  // The nodes of nested abort calls in progress, from the portal on.
  ghost predicate CallChain(t: Topology, p: seq<Node>) { OnwardWalk(t, p) && p[0] == t.root }

  // ---- how deep the calls nest ----

  ghost predicate NestsAtMost(t: Topology, bound: nat) {
    forall p :: CallChain(t, p) ==> |p| <= bound
  }

  // The k-th place around a ring of the given size, from place m on.
  function Around(size: nat, m: nat, k: nat): (place: nat)
    requires m < size
    ensures place < size
  {
    if k == 0 then m
    else if Around(size, m, k - 1) + 1 == size then 0
    else Around(size, m, k - 1) + 1
  }

  function Laps(c: seq<Node>, m: nat, n: nat): (s: seq<Node>)
    requires m < |c|
    ensures |s| == n && forall k :: 0 <= k < n ==> s[k] == c[Around(|c|, m, k)]
  {
    seq(n, k requires 0 <= k < n => c[Around(|c|, m, k)])
  }

  lemma StartsAt(c: seq<Node>, m: nat, n: nat)
    requires m < |c| && n > 0
    ensures Laps(c, m, n)[0] == c[m]
  {}

  lemma NextInRing(t: Topology, c: seq<Node>, m: nat, k: nat)
    requires Ring(t, c) && |c| > 2 && m < |c|
    ensures t.Edge(c[Around(|c|, m, k)], c[Around(|c|, m, k + 1)])
    ensures c[Around(|c|, m, k)] != c[Around(|c|, m, k + 2)]
  {
    var a, b := Around(|c|, m, k), Around(|c|, m, k + 1);
    assert b == if a + 1 == |c| then 0 else a + 1;
    assert Around(|c|, m, k + 2) == if b + 1 == |c| then 0 else b + 1;
    if a + 1 < |c| { assert t.Edge(c[a], c[a + 1]); }
  }

  // A walk that meets the ring only at its end can go on around it for ever.
  lemma AroundTheRing(t: Topology, p: seq<Node>, c: seq<Node>, m: nat, n: nat)
    requires OnwardWalk(t, p) && Ring(t, c) && |c| > 2 && m < |c| && Last(p) == c[m] && n > 0
    requires forall k :: 0 <= k < |p| - 1 ==> p[k] !in c
    ensures var r := p[..|p| - 1] + Laps(c, m, n); OnwardWalk(t, r) && r[0] == p[0]
  {
    hide Around, Lists.Distinct;
    var init, laps := p[..|p| - 1], Laps(c, m, n);
    var r := init + laps;
    assert laps[0] == Last(p) by { StartsAt(c, m, n); }
    forall i, j | 0 <= i && j == i + 1 && j < |r| ensures t.Edge(r[i], r[j]) {
      if j <= |init| {
        assert t.Edge(p[i], p[j]);
      } else {
        NextInRing(t, c, m, i - |init|);
      }
    }
    forall i, j | 0 <= i && j == i + 2 && j < |r| ensures r[i] != r[j] {
      if j < |init| {
        assert p[i] != p[j];
      } else if i < |init| {
        assert r[i] == p[i] && r[j] in c;
      } else {
        NextInRing(t, c, m, i - |init|);
      }
    }
  }

  lemma FirstMeeting(p: seq<Node>, c: seq<Node>) returns (i: nat)
    requires p != [] && Last(p) in c
    ensures i < |p| && p[i] in c && forall k :: 0 <= k < i ==> p[k] !in c
  {
    i := 0;
    while p[i] !in c
      invariant i < |p| && forall k :: 0 <= k < i ==> p[k] !in c
      decreases |p| - i
    {
      assert i != |p| - 1;
      i := i + 1;
    }
  }

  // A ring within reach lets the calls nest deeper than any bound.
  lemma RingNestsDeeper(t: Topology, c: seq<Node>, n: nat) returns (p: seq<Node>)
    requires t.Valid() && Ring(t, c) && |c| > 2 && Connected(t, t.root, c[0])
    ensures CallChain(t, p) && |p| > n
  {
    var w :| Walk(t, w) && w[0] == t.root && Last(w) == c[0];
    var q := Straightened(t, w);
    var i := FirstMeeting(q, c);
    var m :| 0 <= m < |c| && c[m] == q[i];
    OnwardPrefix(t, q, i + 1);
    assert q[..i + 1][..i] == q[..i];
    AroundTheRing(t, q[..i + 1], c, m, n + 1);
    p := q[..i] + Laps(c, m, n + 1);
  }

  lemma {:induction false} OnwardPrefix(t: Topology, p: seq<Node>, n: nat)
    requires OnwardWalk(t, p) && 0 < n <= |p|
    ensures OnwardWalk(t, p[..n])
    decreases |p|
  {
    if n < |p| {
      OnwardInit(t, p);
      OnwardPrefix(t, p[..|p| - 1], n);
      assert p[..|p| - 1][..n] == p[..n];
    } else {
      assert p[..n] == p;
    }
  }

  // Two walks that meet at a self-edge join.
  lemma JoinAtLoop(t: Topology, p: seq<Node>, q: seq<Node>)
    requires t.Valid() && OnwardWalk(t, p) && OnwardWalk(t, q) && Last(p) == q[0] && t.Edge(q[0], q[0])
    requires (|p| > 1 ==> p[|p| - 2] != Last(p)) && (|q| > 1 ==> q[1] != q[0])
    ensures OnwardWalk(t, p + q)
  {
    var r := p + q;
    forall i, j | 0 <= i && j == i + 1 && j < |r| ensures t.Edge(r[i], r[j]) {
      if j < |p| { assert t.Edge(p[i], p[j]); } else if i >= |p| { assert t.Edge(q[i - |p|], q[j - |p|]); }
    }
    forall i, j | 0 <= i && j == i + 2 && j < |r| ensures r[i] != r[j] {
      if j < |p| { assert p[i] != p[j]; } else if i >= |p| { assert q[i - |p|] != q[j - |p|]; }
    }
  }

  // There and back n times between two self-edges.
  function Bounce(p: seq<Node>, n: nat): (s: seq<Node>)
    requires p != []
    ensures |s| >= n && (n > 0 ==> p <= s)
    decreases n
  {
    if n == 0 then [] else p + Bounce(Reversed(p), n - 1)
  }

  lemma {:induction false} BounceIsOnward(t: Topology, p: seq<Node>, n: nat)
    requires t.Valid() && OnwardWalk(t, p) && Lists.Distinct(p) && |p| > 1 && n > 0
    requires t.Edge(p[0], p[0]) && t.Edge(Last(p), Last(p))
    ensures OnwardWalk(t, Bounce(p, n))
    decreases n
  {
    if n == 1 {
      assert Bounce(p, 1) == p + [];
      assert p + [] == p;
    } else {
      var back := Reversed(p);
      BackIsOnward(t, p);
      BounceIsOnward(t, back, n - 1);
      var rest := Bounce(back, n - 1);
      assert rest[0] == back[0] && rest[1] == back[1];
      JoinAtLoop(t, p, rest);
    }
  }

  lemma BackIsOnward(t: Topology, p: seq<Node>)
    requires t.Valid() && OnwardWalk(t, p) && Lists.Distinct(p) && |p| > 1
    ensures OnwardWalk(t, Reversed(p)) && Lists.Distinct(Reversed(p))
  {
    var r := Reversed(p);
    forall i, j | 0 <= i && j == i + 1 && j < |r| ensures t.Edge(r[i], r[j]) {
      var a, b := |p| - 1 - j, |p| - 1 - i;
      assert t.Edge(p[a], p[b]);
      EdgeBoth(t, p[a], p[b]);
    }
    assert t.Edge(p[|p| - 2], p[|p| - 1]);
    EdgeBoth(t, p[|p| - 2], p[|p| - 1]);
  }

  // From the end of one walk back to its start and along another.
  function Across(w: seq<Node>, v: seq<Node>): seq<Node>
    requires v != []
  {
    Reversed(w) + v[1..]
  }

  lemma AcrossIsWalk(t: Topology, w: seq<Node>, v: seq<Node>)
    requires t.Valid() && Walk(t, w) && Walk(t, v) && w[0] == v[0]
    ensures var r := Across(w, v); Walk(t, r) && r[0] == Last(w) && Last(r) == Last(v)
  {
    var r := Across(w, v);
    forall i, j | 0 <= i && j == i + 1 && j < |r| ensures t.Edge(r[i], r[j]) {
      if j < |w| {
        var a, b := |w| - 1 - j, |w| - 1 - i;
        assert t.Edge(w[a], w[b]);
        EdgeBoth(t, w[a], w[b]);
      } else {
        var a, b := i - |w| + 1, j - |w| + 1;
        assert t.Edge(v[a], v[b]);
      }
    }
    WalkStaysIn(t, w, |w| - 1);
  }

  // Two self-edges within reach let the calls nest deeper than any bound.
  lemma LoopsNestDeeper(t: Topology, a: Node, b: Node, n: nat) returns (p: seq<Node>)
    requires t.Valid() && LoopWithin(t, a) && LoopWithin(t, b) && a != b
    ensures CallChain(t, p) && |p| > n
  {
    var w :| Walk(t, w) && w[0] == t.root && Last(w) == a;
    var v :| Walk(t, v) && v[0] == t.root && Last(v) == b;
    AcrossIsWalk(t, w, v);
    var there := Shortened(t, w);
    var across := Shortened(t, Across(w, v));
    BounceIsOnward(t, across, n + 1);
    JoinAtLoop(t, there, Bounce(across, n + 1));
    p := there + Bounce(across, n + 1);
  }

  // Abort calls end if and only if no ring of three or more nodes and no two self-edges are
  // within the portal's reach.
  lemma AbortEndsIff(t: Topology)
    requires t.Valid()
    ensures (exists bound :: NestsAtMost(t, bound)) <==> NoWideRing(t) && OneLoop(t)
  {
    if !NoWideRing(t) {
      var c :| Ring(t, c) && |c| > 2 && Connected(t, t.root, c[0]);
      forall bound: nat ensures !NestsAtMost(t, bound) {
        var p := RingNestsDeeper(t, c, bound);
      }
    } else if a, b :| LoopWithin(t, a) && LoopWithin(t, b) && a != b {
      forall bound: nat ensures !NestsAtMost(t, bound) {
        var p := LoopsNestDeeper(t, a, b, bound);
      }
    } else {
      forall p | CallChain(t, p) ensures |p| <= 2 * |t.peers| {
        PortalConnected(t);
        OneLoopIsShort(t, p);
      }
      assert NestsAtMost(t, 2 * |t.peers|);
    }
  }

  // The overlay as shipped has the ring B, E, D: there a cancel nests without end.
  lemma ShippedAbortNeverEnds(t: Topology, bound: nat)
    requires Shipped(t)
    ensures !NestsAtMost(t, bound)
  {
    var c := ["B", "E", "D"];
    EdgeBoth(t, "B", "D");
    EdgeBoth(t, "E", "D");
    assert Walk(t, c) && Lists.Distinct(c);
    assert Connected(t, "A", "B") by {
      var p := ["A", "B"];
      assert Walk(t, p) && p[0] == "A" && Last(p) == "B";
    }
    var p := RingNestsDeeper(t, c, bound);
  }

  // ---- which nodes a call reaches ----

  // Some chain of calls that begins with this one ends at n.
  ghost predicate Under(t: Topology, chain: seq<Node>, n: Node) {
    exists q :: OnwardWalk(t, q) && chain <= q && Last(q) == n
  }

  ghost predicate UnderNth(t: Topology, chain: seq<Node>, k: nat, n: Node)
    requires chain != [] && Last(chain) in t.peers
  {
    k < |t.peers[Last(chain)]| && Under(t, chain + [t.peers[Last(chain)][k]], n)
  }

  // Under the call to one of the first i neighbours.
  ghost predicate Below(t: Topology, chain: seq<Node>, i: nat, n: Node)
    requires chain != [] && Last(chain) in t.peers
  {
    exists k: nat :: UnderNth(t, chain, k, n) && k < i
  }

  // A node is under at most one neighbour, and never under a neighbour of itself.
  lemma UnderOne(t: Topology, chain: seq<Node>, i: nat, n: Node)
    requires t.Valid() && Acyclic(t) && CallChain(t, chain) && Last(chain) in t.peers
    requires UnderNth(t, chain, i, n)
    ensures !Below(t, chain, i, n) && n != Last(chain)
  {
    var me := Last(chain);
    var q :| OnwardWalk(t, q) && chain + [t.peers[me][i]] <= q && Last(q) == n;
    assert q[0] == chain[0];
    PortalConnected(t);
    OnwardNeverRepeats(t, q);
    assert q[|chain| - 1] == me && q[|chain|] == t.peers[me][i];
    forall k: nat | UnderNth(t, chain, k, n) ensures k == i {
      var q' :| OnwardWalk(t, q') && chain + [t.peers[me][k]] <= q' && Last(q') == n;
      assert q'[|chain|] == t.peers[me][k] && q'[0] == chain[0] == q[0];
      OneWay(t, q, q');
      assert t.Linked(me);
    }
  }

  // The node itself and what is below it is all there is under a call.
  lemma UnderAll(t: Topology, chain: seq<Node>, n: Node)
    requires CallChain(t, chain) && Last(chain) in t.peers
    ensures Under(t, chain, n) <==> n == Last(chain) || Below(t, chain, |t.peers[Last(chain)]|, n)
  {
    var me := Last(chain);
    if Under(t, chain, n) {
      var q :| OnwardWalk(t, q) && chain <= q && Last(q) == n;
      if |q| > |chain| {
        assert t.Edge(q[|chain| - 1], q[|chain|]);
        var k :| 0 <= k < |t.peers[me]| && t.peers[me][k] == q[|chain|];
        assert chain + [q[|chain|]] <= q;
        assert UnderNth(t, chain, k, n);
      } else {
        assert q == chain;
      }
    }
    if Below(t, chain, |t.peers[me]|, n) {
      var k: nat :| UnderNth(t, chain, k, n) && k < |t.peers[me]|;
      var q :| OnwardWalk(t, q) && chain + [t.peers[me][k]] <= q && Last(q) == n;
      assert chain <= chain + [t.peers[me][k]] <= q;
    }
    if n == me { assert chain <= chain; }
  }

  // Nothing is under a call straight back.
  lemma NothingBack(t: Topology, chain: seq<Node>, i: nat, n: Node)
    requires |chain| > 1 && Last(chain) in t.peers && i < |t.peers[Last(chain)]|
    requires t.peers[Last(chain)][i] == chain[|chain| - 2]
    ensures !UnderNth(t, chain, i, n)
  {
    var back := chain + [t.peers[Last(chain)][i]];
    forall q | Walk(t, q) && back <= q ensures !Onward(q) {
      assert q[|chain| - 2] == back[|chain| - 2] && q[|chain|] == back[|chain|];
    }
  }

  lemma UnderPortal(t: Topology, n: Node)
    requires t.Valid()
    ensures Under(t, [t.root], n) <==> Connected(t, t.root, n)
  {
    if Connected(t, t.root, n) {
      var p :| Walk(t, p) && p[0] == t.root && Last(p) == n;
      var q := Straightened(t, p);
      assert [t.root] <= q;
    }
    if Under(t, [t.root], n) {
      var q :| OnwardWalk(t, q) && [t.root] <= q && Last(q) == n;
      assert q[0] == t.root;
    }
  }

  lemma CallOn(t: Topology, chain: seq<Node>, i: nat)
    requires t.Valid() && Acyclic(t) && CallChain(t, chain) && Last(chain) in t.peers && i < |t.peers[Last(chain)]|
    requires |chain| > 1 ==> chain[|chain| - 2] != t.peers[Last(chain)][i]
    ensures CallChain(t, chain + [t.peers[Last(chain)][i]]) && t.peers[Last(chain)][i] in t.peers
    ensures |chain| < |t.peers|
  {
    var nb := t.peers[Last(chain)][i];
    assert t.Edge(Last(chain), nb);
    EdgeBoth(t, Last(chain), nb);
    OnwardExtends(t, chain, nb);
    PortalConnected(t);
    OnwardIsShort(t, chain + [nb]);
  }

  // ---- the calls themselves ----

  // Each node's "canceled" flag, where it has a route for the request, and how many
  // abort calls it got.
  datatype Marks = Marks(canceled: map<Node, bool>, calls: multiset<Node>)

  // From a to b: n was called once more and its flag, if it has one, set; or neither.
  ghost predicate Marked(a: Marks, b: Marks, n: Node, hit: bool) {
    && b.calls[n] == a.calls[n] + (if hit then 1 else 0)
    && (n in b.canceled <==> n in a.canceled)
    && (n in a.canceled ==> b.canceled[n] == (a.canceled[n] || hit))
  }

  lemma BelowNext(t: Topology, chain: seq<Node>, i: nat, a: Marks, b: Marks, c: Marks, n: Node)
    requires t.Valid() && Acyclic(t) && CallChain(t, chain) && Last(chain) in t.peers && i < |t.peers[Last(chain)]|
    requires Marked(a, b, n, Below(t, chain, i, n)) && Marked(b, c, n, UnderNth(t, chain, i, n))
    ensures Marked(a, c, n, Below(t, chain, i + 1, n))
  {
    if UnderNth(t, chain, i, n) { UnderOne(t, chain, i, n); }
  }

  class CancelFabric<R> {
    const topo: Topology
    // The portal's, if the request is registered.
    const buffer: ChunkBuffers.ChunkBuffer?<R>
    var canceled: map<Node, bool>
    ghost var calls: multiset<Node>

    constructor (t: Topology, buffer: ChunkBuffers.ChunkBuffer?<R>, routed: set<Node>)
      ensures topo == t && this.buffer == buffer && calls == multiset{}
      ensures canceled.Keys == routed && forall n :: n in canceled ==> !canceled[n]
    {
      topo, this.buffer, calls := t, buffer, multiset{};
      canceled := map n | n in routed :: false;
    }

    ghost function State(): Marks
      reads this
    {
      Marks(canceled, calls)
    }

    // With no ring in reach: every call returns, every other connected node is called
    // exactly once, and on return every connected node's route is canceled and the
    // portal's buffer is canceled and empty.
    method CancelQuery()
      requires topo.Valid() && Acyclic(topo)
      modifies this, buffer
      ensures forall n :: calls[n] == old(calls)[n] + if n != topo.root && Connected(topo, topo.root, n) then 1 else 0
      ensures canceled.Keys == old(canceled).Keys
      ensures forall n :: n in canceled ==> canceled[n] == (old(canceled)[n] || Connected(topo, topo.root, n))
      ensures buffer != null ==> buffer.State() == old(buffer.State()).Cancel()
    {
      if buffer != null {
        buffer.CancelBuffer();
      }
      var me := topo.root;
      PassOn(me, SelfRoute, [me]);
      ghost var before := State();
      if me in canceled {
        canceled := canceled[me := true];
      }
      forall n
        ensures calls[n] == old(calls)[n] + if n != me && Connected(topo, me, n) then 1 else 0
        ensures n in canceled <==> n in old(canceled)
        ensures n in canceled ==> canceled[n] == (old(canceled)[n] || Connected(topo, me, n))
      {
        PortalMarks(topo, old(State()), before, n);
      }
    }

    // Marks its own route, if any, and passes the abort on to every neighbour but the
    // one it came from.
    method Abort(me: Node, from: Node, ghost chain: seq<Node>)
      requires topo.Valid() && Acyclic(topo) && CallChain(topo, chain) && me in topo.peers
      requires |chain| > 1 && me == Last(chain) && from == chain[|chain| - 2]
      modifies this
      ensures forall n :: Marked(old(State()), State(), n, Under(topo, chain, n))
      decreases |topo.peers| + 1 - |chain|, 1
    {
      if me in canceled {
        canceled := canceled[me := true];
      }
      calls := calls + multiset{me};
      ghost var before := State();
      PortalConnected(topo);
      OnwardIsShort(topo, chain);
      PassOn(me, Peer(from), chain);
      forall n ensures Marked(old(State()), State(), n, Under(topo, chain, n)) {
        UnderAll(topo, chain, n);
        OwnThenBelow(topo, chain, old(State()), before, State(), n);
      }
    }

    method PassOn(me: Node, from: Upstream, ghost chain: seq<Node>)
      requires topo.Valid() && Acyclic(topo) && CallChain(topo, chain) && me in topo.peers && me == Last(chain)
      requires if |chain| > 1 then from == Peer(chain[|chain| - 2]) else from == SelfRoute
      modifies this
      ensures forall n :: Marked(old(State()), State(), n, Below(topo, chain, |topo.peers[me]|, n))
      decreases |topo.peers| + 1 - |chain|, 0
    {
      var i := 0;
      while i < |topo.peers[me]|
        invariant 0 <= i <= |topo.peers[me]|
        invariant forall n :: Marked(old(State()), State(), n, Below(topo, chain, i, n))
      {
        var nb := topo.peers[me][i];
        ghost var before := State();
        if from != Peer(nb) {
          CallOn(topo, chain, i);
          Abort(nb, me, chain + [nb]);
        }
        ghost var j := i;
        i := i + 1;
        forall n ensures Marked(old(State()), State(), n, Below(topo, chain, i, n)) {
          if from == Peer(nb) { NothingBack(topo, chain, j, n); }
          assert Marked(before, State(), n, UnderNth(topo, chain, j, n));
          BelowNext(topo, chain, j, old(State()), before, State(), n);
        }
      }
    }
  }

  lemma OwnThenBelow(t: Topology, chain: seq<Node>, a: Marks, b: Marks, c: Marks, n: Node)
    requires t.Valid() && Acyclic(t) && CallChain(t, chain) && Last(chain) in t.peers
    requires Marked(a, b, n, n == Last(chain)) && Marked(b, c, n, Below(t, chain, |t.peers[Last(chain)]|, n))
    ensures Marked(a, c, n, n == Last(chain) || Below(t, chain, |t.peers[Last(chain)]|, n))
  {
    if Below(t, chain, |t.peers[Last(chain)]|, n) {
      var k: nat :| UnderNth(t, chain, k, n);
      UnderOne(t, chain, k, n);
    }
  }

  lemma PortalMarks(t: Topology, a: Marks, b: Marks, n: Node)
    requires t.Valid() && Acyclic(t) && Marked(a, b, n, Below(t, [t.root], |t.peers[t.root]|, n))
    ensures Marked(a, b, n, n != t.root && Connected(t, t.root, n))
    ensures Connected(t, t.root, t.root)
  {
    UnderPortal(t, n);
    UnderAll(t, [t.root], n);
    assert Walk(t, [t.root]) && Last([t.root]) == t.root;
    if Below(t, [t.root], |t.peers[t.root]|, n) {
      var k: nat :| UnderNth(t, [t.root], k, n);
      UnderOne(t, [t.root], k, n);
    }
  }
}
