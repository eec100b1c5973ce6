// What the fan-out achieves on every finite symmetric overlay, cycles included.

module OverlayTheorems {
  import Lists
  import opened Overlay

  function Iterate<S>(step: S -> S, s: S, k: nat): S
    decreases k
  {
    if k == 0 then s else Iterate(step, step(s), k - 1)
  }

  lemma {:induction false} IterateMore<S>(step: S -> S, s: S, j: nat, k: nat)
    ensures Iterate(step, s, j + k) == Iterate(step, Iterate(step, s, j), k)
    decreases j
  {
    if j > 0 {
      IterateMore(step, step(s), j - 1, k);
    }
  }

  lemma {:induction false} IterateKeeps<S(!new)>(step: S -> S, inv: S -> bool, s: S, k: nat)
    requires inv(s) && forall x :: inv(x) ==> inv(step(x))
    ensures inv(Iterate(step, s, k))
    decreases k
  {
    if k > 0 {
      IterateKeeps(step, inv, step(s), k - 1);
    }
  }

  function Stepper(t: Topology): Fan -> Fan { f => FanStep(t, f) }

  // The state after k steps; an ended fan-out stays as it is.
  function FanRun(t: Topology, f: Fan, k: nat): Fan { Iterate(Stepper(t), f, k) }

  lemma NextInv(t: Topology, f: Fan)
    requires t.Valid() && FanInv(t, f)
    ensures FanInv(t, FanStep(t, f))
  {
    if f.path != [] { FanStepInv(t, f); }
  }

  // Every state of the fan-out of a submitted query keeps the invariant.
  lemma EveryStateInv(t: Topology, f: Fan, k: nat)
    requires t.Valid() && FanInv(t, f)
    ensures FanInv(t, FanRun(t, f, k))
  {
    var inv := x => FanInv(t, x);
    forall x | inv(x) ensures inv(Stepper(t)(x)) {
      NextInv(t, x);
    }
    IterateKeeps(Stepper(t), inv, f, k);
  }

  // ---- the fan-out ends ----

  // Within one set of routes the call stack can only shrink; below that the innermost
  // node's scan is still to be scheduled, or its loop advances.
  function Unrouted(t: Topology, f: Fan): set<Node> { t.peers.Keys - f.routes.Keys }

  function Unscheduled(f: Fan): nat { if f.path != [] && Last(f.path) in f.scans then 0 else 1 }

  function Left(t: Topology, f: Fan): nat {
    if f.path != [] && Last(f.path) in t.peers && Last(f.path) in f.next
      && f.next[Last(f.path)] <= |t.peers[Last(f.path)]|
    then |t.peers[Last(f.path)]| - f.next[Last(f.path)] else 0
  }

  datatype Rank = Rank(unrouted: set<Node>, depth: nat, unscheduled: nat, left: nat)

  ghost predicate Lower(a: Rank, b: Rank) {
    || a.unrouted < b.unrouted
    || (a.unrouted == b.unrouted && a.depth < b.depth)
    || (a.unrouted == b.unrouted && a.depth == b.depth && a.unscheduled < b.unscheduled)
    || (a.unrouted == b.unrouted && a.depth == b.depth && a.unscheduled == b.unscheduled && a.left < b.left)
  }

  function RankOf(t: Topology, f: Fan): Rank { Rank(Unrouted(t, f), |f.path|, Unscheduled(f), Left(t, f)) }

  lemma {:induction false} IterateEnds<S(!new)>(step: S -> S, inv: S -> bool, done: S -> bool, rank: S -> Rank, s: S)
    returns (k: nat)
    requires inv(s)
    requires forall x :: inv(x) && !done(x) ==> inv(step(x)) && Lower(rank(step(x)), rank(x))
    ensures done(Iterate(step, s, k))
    decreases rank(s).unrouted, rank(s).depth, rank(s).unscheduled, rank(s).left
  {
    if done(s) {
      k := 0;
    } else {
      var j := IterateEnds(step, inv, done, rank, step(s));
      k := j + 1;
    }
  }

  // A fan-out always ends: no cycle of the overlay can keep it going.
  lemma FanOutEnds(t: Topology, f: Fan) returns (k: nat)
    requires t.Valid() && FanInv(t, f)
    ensures FanRun(t, f, k).path == []
  {
    var inv := x => FanInv(t, x);
    var done := (x: Fan) => x.path == [];
    var rank := x => RankOf(t, x);
    forall x | inv(x) && !done(x) ensures inv(Stepper(t)(x)) && Lower(rank(Stepper(t)(x)), rank(x)) {
      StepDown(t, x);
    }
    k := IterateEnds(Stepper(t), inv, done, rank, f);
  }

  lemma StepDown(t: Topology, f: Fan)
    requires t.Valid() && FanInv(t, f) && f.path != []
    ensures FanInv(t, FanStep(t, f)) && Lower(RankOf(t, FanStep(t, f)), RankOf(t, f))
  {
    FanStepInv(t, f);
    if f.next[Last(f.path)] < |t.peers[Last(f.path)]| {
      PassedIsRouted(t, f, Last(f.path));
      LoopGoesDown(t, f, Last(f.path));
    } else {
      EndGoesDown(t, f, Last(f.path));
    }
  }

  lemma LoopGoesDown(t: Topology, f: Fan, n: Node)
    requires AtTop(t, f, n) && Ready(t, f) && f.next[n] < |t.peers[n]|
    requires t.peers[n][f.next[n]] !in f.routes ==> CanAccept(t, f, n, t.peers[n][f.next[n]])
    ensures var f' := FanStep(t, f);
      || Unrouted(t, f') < Unrouted(t, f)
      || (Unrouted(t, f') == Unrouted(t, f) && f'.path == f.path && Unscheduled(f') == Unscheduled(f)
          && Left(t, f') < Left(t, f))
  {
    var nb := t.peers[n][f.next[n]];
    if !Skips(f.routes[n], nb) && !Refuses(f.routes, nb, f.routes[n].visited) {
      assert nb in Unrouted(t, f) && nb !in Unrouted(t, FanStep(t, f));
    }
  }

  lemma EndGoesDown(t: Topology, f: Fan, n: Node)
    requires AtTop(t, f, n) && Ready(t, f) && f.next[n] == |t.peers[n]|
    ensures var f' := FanStep(t, f);
      Unrouted(t, f') == Unrouted(t, f)
      && (|f'.path| < |f.path| || (f'.path == f.path && Unscheduled(f') < Unscheduled(f)))
  {
    var f' := FanStep(t, f);
    assert f'.routes.Keys == f.routes.Keys;
  }

  // ---- it reaches exactly the nodes connected to the portal, each once ----

  ghost predicate Walk(t: Topology, p: seq<Node>) {
    && p != [] && p[0] in t.peers
    && forall i, j :: 0 <= i && j == i + 1 && j < |p| ==> t.Edge(p[i], p[j])
  }

  ghost predicate Connected(t: Topology, a: Node, b: Node) {
    exists p :: Walk(t, p) && p[0] == a && Last(p) == b
  }

  // An inner node skips exactly the neighbours that would refuse its call as a loop, its sender
  // among them; the portal skips nobody. So the only call ever refused as a loop is one the
  // portal makes to itself.
  lemma SkipsExactlyLoops(t: Topology, routes: map<Node, Route>, n: Node, nb: Node)
    requires Tree(t, routes) && n in routes
    ensures Skips(routes[n], nb) <==> n != t.root && nb in routes[n].visited
    ensures !Skips(routes[n], nb) && nb in routes[n].visited ==> n == nb == t.root
  {
    assert Simple(routes, n) && Rooted(t, routes, n);
    if n != t.root {
      var u := routes[n].upstream.id;
      assert Simple(routes, u);
      assert routes[n].visited[|routes[u].visited| - 1] == u;
    }
  }

  // A node's recorded path is a walk from the portal to it, without repetition.
  lemma {:induction false} VisitedIsPath(t: Topology, routes: map<Node, Route>, n: Node)
    requires Tree(t, routes) && n in routes
    ensures Walk(t, routes[n].visited) && Lists.Distinct(routes[n].visited)
    ensures routes[n].visited[0] == t.root && Last(routes[n].visited) == n
    decreases |routes[n].visited|
  {
    assert Rooted(t, routes, n) && Simple(routes, n);
    if n != t.root {
      var u := routes[n].upstream.id;
      assert Simple(routes, u);
      VisitedIsPath(t, routes, u);
      ExtendWalk(t, routes[u].visited, n);
    }
  }

  lemma ExtendWalk(t: Topology, p: seq<Node>, n: Node)
    requires Walk(t, p) && t.Edge(Last(p), n)
    ensures Walk(t, p + [n])
  {
    forall i, j | 0 <= i && j == i + 1 && j < |p + [n]| ensures t.Edge((p + [n])[i], (p + [n])[j]) {
      if j < |p| { assert t.Edge(p[i], p[j]); }
    }
  }

  // Nothing off a closed set is connected to it.
  lemma {:induction false} ClosedHoldsWalks(t: Topology, s: set<Node>, p: seq<Node>, k: nat)
    requires Walk(t, p) && p[0] in s && k < |p|
    requires forall a, b :: a in s && t.Edge(a, b) ==> b in s
    ensures p[k] in s
  {
    if k > 0 {
      ClosedHoldsWalks(t, s, p, k - 1);
      assert t.Edge(p[k - 1], p[k]);
    }
  }

  lemma EndedIsClosed(t: Topology, f: Fan)
    requires t.Valid() && FanInv(t, f) && f.path == []
    ensures f.busy == {} && forall a, b :: a in f.routes && t.Edge(a, b) ==> b in f.routes
  {
    assert f.busy == {} by {
      forall n ensures n !in f.busy { BusyIff(f, t, n); }
    }
    forall a, b | a in f.routes && t.Edge(a, b) ensures b in f.routes {
      assert Covers(t, f, a);
      var k :| 0 <= k < |t.peers[a]| && t.peers[a][k] == b;
    }
  }

  // At the end a node has a route, and its scan is scheduled exactly once, if and only
  // if the overlay connects it to the portal.
  lemma ReachesExactlyConnected(t: Topology, f: Fan, n: Node)
    requires t.Valid() && FanInv(t, f) && f.path == []
    ensures n in f.routes <==> Connected(t, t.root, n)
    ensures f.scans[n] == if Connected(t, t.root, n) then 1 else 0
  {
    EndedIsClosed(t, f);
    if n in f.routes {
      VisitedIsPath(t, f.routes, n);
    }
    if Connected(t, t.root, n) {
      var p :| Walk(t, p) && p[0] == t.root && Last(p) == n;
      ClosedHoldsWalks(t, f.routes.Keys, p, |p| - 1);
    }
    assert Scans(t, f, n);
  }

  // ---- the routes form a tree, and the walk back follows it ----

  // k hops up from n.
  function Climb(routes: map<Node, Route>, n: Node, k: nat): Node
    decreases k
  {
    if k == 0 || n !in routes || routes[n].upstream.SelfRoute? then n
    else Climb(routes, routes[n].upstream.id, k - 1)
  }

  // In every intermediate state a node's path lists its ancestors: k hops up is the
  // k-th node from its end, with a route of its own.
  lemma {:induction false} ClimbFollowsPath(t: Topology, routes: map<Node, Route>, n: Node, k: nat)
    requires Tree(t, routes) && n in routes && k < |routes[n].visited|
    ensures Climb(routes, n, k) == routes[n].visited[|routes[n].visited| - 1 - k]
    decreases k
  {
    assert Rooted(t, routes, n) && Simple(routes, n);
    if k > 0 {
      var u := routes[n].upstream.id;
      ClimbFollowsPath(t, routes, u, k - 1);
      assert Climb(routes, n, k) == Climb(routes, u, k - 1);
    }
  }

  // So the walk back arrives at the portal after |visited| - 1 hops, no fewer, through
  // nodes that all hold a route.
  lemma ClimbReachesPortal(t: Topology, routes: map<Node, Route>, n: Node, k: nat)
    requires Tree(t, routes) && n in routes && k < |routes[n].visited|
    ensures Climb(routes, n, k) in routes
    ensures Climb(routes, n, k) == t.root <==> k == |routes[n].visited| - 1
  {
    ClimbFollowsPath(t, routes, n, k);
    PathStartsAtRoot(t, routes, n);
    assert Simple(routes, n);
  }

  // Once the fan-out has ended, the recorded fan-outs and the upstream links are
  // inverse to each other: every node but the portal is recorded by exactly one node,
  // its upstream peer.
  lemma FanoutInvertsUpstream(t: Topology, f: Fan, a: Node, c: Node)
    requires t.Valid() && FanInv(t, f) && f.path == [] && a in f.routes
    ensures c in f.routes[a].fanout <==> c in f.routes && f.routes[c].upstream == Peer(a)
  {
    EndedIsClosed(t, f);
    assert FansOut(f, a);
    if c in f.routes {
      assert Called(t, f, c);
    }
  }

  ghost function TreeEdges(routes: map<Node, Route>): set<(Node, Node)> {
    set a, c | a in routes && c in routes[a].fanout :: (a, c)
  }

  // So the tree has one edge fewer than it has nodes.
  lemma TreeEdgeCount(t: Topology, f: Fan)
    requires t.Valid() && FanInv(t, f) && f.path == []
    ensures |TreeEdges(f.routes)| == |f.routes| - 1
  {
    var children := f.routes.Keys - {t.root};
    forall c | c in children ensures f.routes[c].upstream.Peer? && f.routes[c].upstream.id in f.routes {
      assert Rooted(t, f.routes, c);
    }
    EdgesAreChildren(t, f, children);
    EdgePairsCount(f.routes, children);
    assert |children| == |f.routes.Keys| - 1;
  }

  ghost function UpEdges(routes: map<Node, Route>, s: set<Node>): set<(Node, Node)>
    requires forall c :: c in s ==> c in routes && routes[c].upstream.Peer?
  {
    set c | c in s :: (routes[c].upstream.id, c)
  }

  lemma EdgesAreChildren(t: Topology, f: Fan, children: set<Node>)
    requires t.Valid() && FanInv(t, f) && f.path == [] && children == f.routes.Keys - {t.root}
    requires forall c :: c in children ==> f.routes[c].upstream.Peer? && f.routes[c].upstream.id in f.routes
    ensures TreeEdges(f.routes) == UpEdges(f.routes, children)
  {
    forall e ensures e in TreeEdges(f.routes) <==> e in UpEdges(f.routes, children) {
      if e.0 in f.routes {
        FanoutInvertsUpstream(t, f, e.0, e.1);
        assert Rooted(t, f.routes, t.root);
      }
    }
  }

  lemma {:induction false} EdgePairsCount(routes: map<Node, Route>, s: set<Node>)
    requires forall c :: c in s ==> c in routes && routes[c].upstream.Peer?
    ensures |UpEdges(routes, s)| == |s|
    decreases s
  {
    if s != {} {
      var c :| c in s;
      EdgePairsCount(routes, s - {c});
      assert UpEdges(routes, s) == UpEdges(routes, s - {c}) + {(routes[c].upstream.id, c)};
    } else {
      assert UpEdges(routes, s) == {};
    }
  }

  // ---- when the portal marks a live producer done early ----

  // A walk that stays off the portal.
  ghost predicate OffPortal(t: Topology, a: Node, b: Node) {
    exists p :: Walk(t, p) && p[0] == a && Last(p) == b && t.root !in p
  }

  // No neighbour of the portal can be reached from another without passing through the
  // portal, and the portal is not its own neighbour.
  ghost predicate PortalSeparates(t: Topology) {
    && !t.Edge(t.root, t.root)
    && forall a, b :: t.Edge(t.root, a) && t.Edge(t.root, b) && OffPortal(t, a, b) ==> a == b
  }

  lemma {:induction false} WalkKeepsBranch(t: Topology, f: Fan, p: seq<Node>, k: nat)
    requires t.Valid() && FanInv(t, f) && f.path == []
    requires Walk(t, p) && p[0] in f.routes && t.root !in p && k < |p|
    ensures p[k] in f.routes && Branch(f.routes, p[k]) == Branch(f.routes, p[0])
  {
    EndedIsClosed(t, f);
    if k > 0 {
      WalkKeepsBranch(t, f, p, k - 1);
      assert t.Edge(p[k - 1], p[k]) && p[k - 1] in p && p[k] in p;
      assert OneBranch(t, f, p[k - 1]);
    }
  }

  // A routed node hangs off the walk from its branch, which stays off the portal.
  lemma BranchWalk(t: Topology, routes: map<Node, Route>, n: Node)
    requires Tree(t, routes) && n in routes && n != t.root
    ensures t.Edge(t.root, Branch(routes, n)) && OffPortal(t, Branch(routes, n), n)
    ensures Branch(routes, n) == n <==> routes[n].upstream == Peer(t.root)
  {
    assert Rooted(t, routes, n) && Simple(routes, n);
    VisitedIsPath(t, routes, n);
    var v := routes[n].visited;
    var p := v[1..];
    assert t.Edge(v[0], v[1]);
    forall i, j | 0 <= i && j == i + 1 && j < |p| ensures t.Edge(p[i], p[j]) {
      assert t.Edge(v[i + 1], v[j + 1]);
    }
    assert Walk(t, p) by { assert v[1] in routes && Simple(routes, v[1]); }
    assert t.root !in p by {
      forall k | 0 <= k < |p| ensures p[k] != t.root { assert v[0] != v[k + 1]; }
    }
    var u := routes[n].upstream.id;
    assert Rooted(t, routes, u) && Simple(routes, u);
    assert v[1] == n ==> |v| == 2;
  }

  // The fan-out leaves the portal with a rejected, early-done producer exactly when
  // two of its neighbours are connected off it (or it is its own neighbour), whatever
  // the iteration order.
  lemma RejectsUnlessSeparated(t: Topology, f: Fan)
    requires t.Valid() && FanInv(t, f) && f.path == []
    ensures f.rejected == {} <==> PortalSeparates(t)
  {
    EndedIsClosed(t, f);
    assert Covers(t, f, t.root);
    if f.rejected == {} {
      forall a | t.Edge(t.root, a) ensures a in f.routes && f.routes[a].upstream == Peer(t.root) {
        var k :| 0 <= k < |t.peers[t.root]| && t.peers[t.root][k] == a;
        assert DealtWith(t, f.next, t.root, a);
        assert a !in f.rejected;
        assert !Refused(t, f, a);
      }
      assert !t.Edge(t.root, t.root) by { assert Rooted(t, f.routes, t.root); }
      forall a, b | t.Edge(t.root, a) && t.Edge(t.root, b) && OffPortal(t, a, b) ensures a == b {
        var p :| Walk(t, p) && p[0] == a && Last(p) == b && t.root !in p;
        WalkKeepsBranch(t, f, p, |p| - 1);
        BranchWalk(t, f.routes, a);
        assert p[|p| - 1] in p;
        BranchWalk(t, f.routes, b);
      }
    } else {
      var nb :| nb in f.rejected;
      assert Refused(t, f, nb);
      var k :| 0 <= k < |t.peers[t.root]| && t.peers[t.root][k] == nb;
      assert t.Edge(t.root, nb);
      if nb != t.root {
        BranchWalk(t, f.routes, nb);
      }
    }
  }

  // ---- the overlay as shipped ----

  // Portal A and the edges AB BC BD BE EF ED EG AH AG AI, in any iteration order.
  ghost predicate Shipped(t: Topology) {
    && t.Valid() && t.root == "A"
    && t.Edge("A", "B") && t.Edge("B", "C") && t.Edge("B", "D") && t.Edge("B", "E") && t.Edge("E", "F")
    && t.Edge("E", "D") && t.Edge("E", "G") && t.Edge("A", "H") && t.Edge("A", "G") && t.Edge("A", "I")
  }

  // B and G are joined through E, so one of the portal's neighbours always refuses and
  // is marked done although its rows are still to come.
  lemma ShippedOverlayRejects(t: Topology, f: Fan)
    requires Shipped(t) && FanInv(t, f) && f.path == []
    ensures f.rejected != {}
  {
    ThreeWalk(t, "B", "E", "G");
    RejectsUnlessSeparated(t, f);
  }

  lemma ThreeWalk(t: Topology, a: Node, b: Node, c: Node)
    requires t.Edge(a, b) && t.Edge(b, c) && t.root != a && t.root != b && t.root != c
    ensures OffPortal(t, a, c)
  {
    var p := [a, b, c];
    assert Walk(t, p) && p[0] == a && Last(p) == c && t.root !in p;
  }
}
