// The overlay graph and the fan-out of one request over it. Forwards are blocking,
// nested calls, so the fan-out is a depth-first search: each node's call holds its
// place in its neighbour loop, and each node's route is the search's mark.

module Overlay {
  import Lists

  type Node = string

  // Each node's neighbours in iteration order, and the portal.
  datatype Topology = Topology(peers: map<Node, seq<Node>>, root: Node)
  {
    // Every declared edge is entered on both sides.
    ghost predicate Valid() {
      root in peers && forall a {:trigger Linked(a)} :: a in peers ==> Linked(a)
    }

    ghost predicate Linked(a: Node)
      requires a in peers
    {
      && Lists.Distinct(peers[a])
      && forall k :: 0 <= k < |peers[a]| ==> Edge(peers[a][k], a)
    }

    predicate Edge(a: Node, b: Node) { a in peers && b in peers[a] }
  }

  lemma EdgeBoth(t: Topology, a: Node, b: Node)
    requires t.Valid() && t.Edge(a, b)
    ensures t.Edge(b, a) && b in t.peers && a in t.peers
  {
    assert t.Linked(a);
    var k :| 0 <= k < |t.peers[a]| && t.peers[a][k] == b;
  }

  // ---- the fan-out, one step at a time ----

  // The portal is its own upstream.
  datatype Upstream = SelfRoute | Peer(id: Node)

  datatype Route = Route(upstream: Upstream, visited: seq<Node>, fanout: set<Node>)

  // Routes of all nodes; the nested calls in progress, innermost last, and their
  // nodes; how many neighbours each node has dealt with; the local scans scheduled;
  // and the producers the portal marked done because they refused.
  datatype Fan = Fan(
    routes: map<Node, Route>, path: seq<Node>, busy: set<Node>, next: map<Node, nat>,
    scans: multiset<Node>, rejected: set<Node>)

  function Submitted(t: Topology): Fan {
    Fan(map[t.root := Route(SelfRoute, [t.root], {})], [t.root], {t.root}, map[t.root := 0], multiset{}, {})
  }

  function Last(s: seq<Node>): Node
    requires s != []
  {
    s[|s| - 1]
  }

  function Init(s: seq<Node>): seq<Node>
    requires s != []
  {
    s[..|s| - 1]
  }

  // A callee refuses a loop, and a request it already has a route for.
  predicate Refuses(routes: map<Node, Route>, callee: Node, visited: seq<Node>) {
    callee in visited || callee in routes
  }

  // An inner node does not call back its sender or anyone on the current path; the
  // portal calls every neighbour.
  predicate Skips(route: Route, nb: Node) {
    route.upstream.Peer? && (nb == route.upstream.id || nb in route.visited)
  }

  // The innermost call is of a node with a route, at some place in its loop, and so is
  // its caller.
  predicate Ready(t: Topology, f: Fan) {
    && f.path != [] && Last(f.path) in t.peers && Last(f.path) in f.routes && Last(f.path) in f.next
    && f.next[Last(f.path)] <= |t.peers[Last(f.path)]|
    && (|f.path| > 1 ==> Last(Init(f.path)) in f.routes && Last(Init(f.path)) in f.next)
  }

  function Advance(next: map<Node, nat>, n: Node): map<Node, nat>
    requires n in next
  {
    next[n := next[n] + 1]
  }

  // The loop moves on; the portal marks a refusing neighbour done.
  function Pass(f: Fan, n: Node, rejects: set<Node>): Fan
    requires n in f.next
  {
    f.(next := Advance(f.next, n), rejected := f.rejected + rejects)
  }

  function Accept(f: Fan, n: Node, nb: Node): Fan
    requires n in f.routes
  {
    f.(routes := f.routes[nb := Route(Peer(n), f.routes[n].visited + [nb], {})],
       next := f.next[nb := 0], path := f.path + [nb], busy := f.busy + {nb})
  }

  function Schedule(f: Fan, n: Node): Fan {
    f.(scans := f.scans + multiset{n})
  }

  // The innermost call is answered "accepted": its caller records that and moves on.
  function Return(f: Fan, n: Node): Fan
    requires f.path != [] && (|f.path| > 1 ==> Last(Init(f.path)) in f.routes && Last(Init(f.path)) in f.next)
  {
    if |f.path| == 1 then f.(path := [], busy := f.busy - {n})
    else
      var caller := Last(Init(f.path));
      f.(path := Init(f.path), busy := f.busy - {n}, next := Advance(f.next, caller),
         routes := f.routes[caller := f.routes[caller].(fanout := f.routes[caller].fanout + {n})])
  }

  function FanStep(t: Topology, f: Fan): Fan {
    if !Ready(t, f) then f else Step(t, f, Last(f.path))
  }

  function Step(t: Topology, f: Fan, n: Node): Fan
    requires Ready(t, f) && n == Last(f.path)
  {
    var route := f.routes[n];
    if f.next[n] < |t.peers[n]| then
      var nb := t.peers[n][f.next[n]];
      if Skips(route, nb) then Pass(f, n, {})
      else if Refuses(f.routes, nb, route.visited) then Pass(f, n, if n == t.root then {nb} else {})
      else Accept(f, n, nb)
    else if n !in f.scans then Schedule(f, n)
    else Return(f, n)
  }

  // ---- what every intermediate state keeps ----

  // A node's path repeats no node, holds only nodes with routes, and ends at the node.
  ghost predicate Simple(routes: map<Node, Route>, n: Node)
    requires n in routes
  {
    && Lists.Distinct(routes[n].visited)
    && (forall k :: 0 <= k < |routes[n].visited| ==> routes[n].visited[k] in routes)
    && routes[n].visited != [] && Last(routes[n].visited) == n
  }

  // It hangs under an accepted neighbour, whose path its own path extends.
  ghost predicate Hangs(t: Topology, routes: map<Node, Route>, n: Node)
    requires n in routes
  {
    && routes[n].upstream.Peer?
    && routes[n].upstream.id in routes
    && t.Edge(routes[n].upstream.id, n)
    && routes[n].visited == routes[routes[n].upstream.id].visited + [n]
    && |routes[n].visited| > 1
  }

  ghost predicate Rooted(t: Topology, routes: map<Node, Route>, n: Node)
    requires n in routes
  {
    if n == t.root then routes[n].upstream == SelfRoute && routes[n].visited == [n] else Hangs(t, routes, n)
  }

  ghost predicate Tree(t: Topology, routes: map<Node, Route>) {
    && t.root in routes
    && forall n {:trigger Simple(routes, n)} {:trigger Rooted(t, routes, n)} ::
         n in routes ==> n in t.peers && Simple(routes, n) && Rooted(t, routes, n)
  }

  // The calls in progress are the path of the innermost one.
  ghost predicate Nested(t: Topology, f: Fan) {
    && (f.path != [] ==> Last(f.path) in f.routes && f.routes[Last(f.path)].visited == f.path)
    && (forall k :: 0 <= k < |f.path| ==> f.path[k] in f.busy)
    && (forall n :: n in f.busy ==> n in f.path)
    && f.next.Keys == f.routes.Keys
  }

  // A node has dealt with nb.
  ghost predicate DealtWith(t: Topology, next: map<Node, nat>, n: Node, nb: Node) {
    n in t.peers && n in next && exists k :: 0 <= k < next[n] && k < |t.peers[n]| && t.peers[n][k] == nb
  }

  // A node's loop is within bounds; every neighbour dealt with has a route; and a node
  // no longer in progress has dealt with them all.
  ghost predicate Covers(t: Topology, f: Fan, n: Node) {
    && n in t.peers && n in f.next
    && f.next[n] <= |t.peers[n]|
    && (forall k :: 0 <= k < f.next[n] ==> t.peers[n][k] in f.routes)
    && (n !in f.busy ==> f.next[n] == |t.peers[n]|)
  }

  ghost predicate Covered(t: Topology, f: Fan) {
    forall n {:trigger Covers(t, f, n)} :: n in f.routes ==> Covers(t, f, n)
  }

  // While a call is in progress its caller waits at it; afterwards its caller has dealt
  // with it, and recorded it. A child in progress is not recorded yet.
  ghost predicate Called(t: Topology, f: Fan, c: Node)
    requires c in f.routes
  {
    f.routes[c].upstream.Peer? ==>
      var u := f.routes[c].upstream.id;
      && u in t.peers && u in f.next && u in f.routes
      && (c in f.busy ==> f.next[u] < |t.peers[u]| && t.peers[u][f.next[u]] == c && u in f.busy)
      && (c !in f.busy ==> DealtWith(t, f.next, u, c))
      && (c in f.routes[u].fanout <==> c !in f.busy)
  }

  // fanout_to holds nothing but children.
  ghost predicate FansOut(f: Fan, a: Node)
    requires a in f.routes
  {
    forall c :: c in f.routes[a].fanout ==> c in f.routes && f.routes[c].upstream == Peer(a)
  }

  ghost predicate Recorded(t: Topology, f: Fan) {
    forall n {:trigger Called(t, f, n)} {:trigger FansOut(f, n)} :: n in f.routes ==> Called(t, f, n) && FansOut(f, n)
  }

  // A node's scan is scheduled once, after its neighbour loop and before it answers.
  ghost predicate Scans(t: Topology, f: Fan, n: Node) {
    && f.scans[n] <= 1
    && (n in f.scans ==> n in f.routes)
    && (n in f.routes && n !in f.busy ==> n in f.scans)
    && (n in f.scans && n in f.busy ==>
         f.path != [] && n == Last(f.path) && n in t.peers && n in f.next && f.next[n] == |t.peers[n]|)
  }

  ghost predicate Scheduled(t: Topology, f: Fan) {
    forall n :: Scans(t, f, n)
  }

  // The rejected producers are the neighbours the portal has dealt with that hang
  // elsewhere (or are the portal itself).
  ghost predicate Refused(t: Topology, f: Fan, nb: Node) {
    nb in f.routes && f.routes[nb].upstream != Peer(t.root) && DealtWith(t, f.next, t.root, nb)
  }

  ghost predicate Rejections(t: Topology, f: Fan) {
    forall nb {:trigger Refused(t, f, nb)} :: nb in f.rejected <==> Refused(t, f, nb)
  }

  // The portal's neighbour a node was reached through.
  function Branch(routes: map<Node, Route>, n: Node): Node {
    if n in routes && |routes[n].visited| > 1 then routes[n].visited[1] else n
  }

  // Off the portal, no edge joins two branches, and all calls in progress are in one.
  ghost predicate OneBranch(t: Topology, f: Fan, n: Node) {
    && (forall m :: m in f.routes && m != t.root && t.Edge(n, m) ==> Branch(f.routes, n) == Branch(f.routes, m))
    && (n in f.busy ==> |f.path| > 1 && Branch(f.routes, n) == f.path[1])
  }

  ghost predicate Branches(t: Topology, f: Fan) {
    forall n {:trigger OneBranch(t, f, n)} :: n in f.routes && n != t.root ==> OneBranch(t, f, n)
  }

  ghost predicate FanInv(t: Topology, f: Fan) {
    && Tree(t, f.routes) && Nested(t, f) && Covered(t, f) && Recorded(t, f)
    && Scheduled(t, f) && Rejections(t, f) && Branches(t, f)
  }

  // ---- every step keeps it ----

  lemma SubmittedInv(t: Topology)
    requires t.Valid()
    ensures FanInv(t, Submitted(t)) && Ready(t, Submitted(t))
  {}

  // What the invariant says of the innermost call.
  ghost predicate AtTop(t: Topology, f: Fan, n: Node) {
    && f.path != [] && n == Last(f.path) && n in t.peers && n in f.routes && n in f.next && n in f.busy
    && f.next[n] <= |t.peers[n]| && f.routes[n].visited == f.path
    && (if |f.path| == 1 then n == t.root
        else n != t.root && f.routes[n].upstream == Peer(Last(Init(f.path)))
             && Last(Init(f.path)) in f.routes && Last(Init(f.path)) in f.next && Last(Init(f.path)) in f.busy
             && f.routes[Last(Init(f.path))].visited == Init(f.path))
  }

  lemma TopFacts(t: Topology, f: Fan)
    requires t.Valid() && FanInv(t, f) && f.path != []
    ensures AtTop(t, f, Last(f.path)) && Ready(t, f)
  {
    var n := Last(f.path);
    assert f.path[|f.path| - 1] in f.busy;
    assert Simple(f.routes, n) && Rooted(t, f.routes, n) && Covers(t, f, n);
    if |f.path| > 1 {
      var u := f.routes[n].upstream.id;
      assert Simple(f.routes, u);
      assert Init(f.path) == f.routes[u].visited;
      assert f.path[|f.path| - 2] in f.busy;
    }
  }

  lemma BusyIff(f: Fan, t: Topology, m: Node)
    requires Nested(t, f)
    ensures m in f.busy <==> m in f.path
  {
    if m in f.path {
      var k :| 0 <= k < |f.path| && f.path[k] == m;
    }
  }

  // No child of the innermost call is itself in progress.
  lemma TopHasNoBusyChild(t: Topology, f: Fan, n: Node, m: Node)
    requires Tree(t, f.routes) && AtTop(t, f, n) && m in f.routes && f.routes[m].upstream == Peer(n)
    ensures m !in f.path
  {
    assert Rooted(t, f.routes, m) && Simple(f.routes, m);
    var v := f.routes[m].visited;
    assert v == f.path + [m];
    assert v[|f.path|] == m;
    forall k | 0 <= k < |f.path| ensures f.path[k] != m {
      assert v[k] == f.path[k];
    }
  }

  // -- moving past a neighbour --

  lemma DealtWithMore(t: Topology, next: map<Node, nat>, n: Node, m: Node, x: Node)
    requires n in next && n in t.peers && next[n] < |t.peers[n]|
    ensures DealtWith(t, Advance(next, n), m, x) <==> DealtWith(t, next, m, x) || (m == n && x == t.peers[n][next[n]])
  {
    var next' := Advance(next, n);
    if DealtWith(t, next', m, x) {
      var k :| 0 <= k < next'[m] && k < |t.peers[m]| && t.peers[m][k] == x;
      assert k < next[m] || (m == n && k == next[n]);
    }
    if DealtWith(t, next, m, x) {
      var k :| 0 <= k < next[m] && k < |t.peers[m]| && t.peers[m][k] == x;
      assert k < next'[m];
    }
    if m == n && x == t.peers[n][next[n]] {
      assert next[n] < next'[n];
    }
  }

  lemma PassNested(t: Topology, f: Fan, n: Node, rejects: set<Node>)
    requires Nested(t, f) && n in f.next
    ensures Nested(t, Pass(f, n, rejects))
  {}

  lemma PassCovered(t: Topology, f: Fan, n: Node, rejects: set<Node>)
    requires Covered(t, f) && AtTop(t, f, n) && f.next[n] < |t.peers[n]| && t.peers[n][f.next[n]] in f.routes
    ensures Covered(t, Pass(f, n, rejects))
  {
    forall m | m in f.routes ensures Covers(t, Pass(f, n, rejects), m) {
      assert Covers(t, f, m);
    }
  }

  lemma PassRecorded(t: Topology, f: Fan, n: Node, rejects: set<Node>)
    requires Tree(t, f.routes) && Nested(t, f) && Recorded(t, f) && AtTop(t, f, n) && f.next[n] < |t.peers[n]|
    ensures Recorded(t, Pass(f, n, rejects))
  {
    var f' := Pass(f, n, rejects);
    forall m | m in f.routes ensures Called(t, f', m) && FansOut(f', m) {
      assert Called(t, f, m) && FansOut(f, m);
      if f.routes[m].upstream.Peer? {
        DealtWithMore(t, f.next, n, f.routes[m].upstream.id, m);
        if f.routes[m].upstream.id == n {
          TopHasNoBusyChild(t, f, n, m);
          BusyIff(f, t, m);
        }
      }
    }
  }

  lemma PassScheduled(t: Topology, f: Fan, n: Node, rejects: set<Node>)
    requires Scheduled(t, f) && AtTop(t, f, n) && f.next[n] < |t.peers[n]|
    ensures Scheduled(t, Pass(f, n, rejects))
  {
    forall m ensures Scans(t, Pass(f, n, rejects), m) {
      assert Scans(t, f, m) && Scans(t, f, n);
    }
  }

  // A neighbour the portal finds routed hangs elsewhere: its own child it would have
  // met earlier in a loop that meets each neighbour once.
  lemma RefusedElsewhere(t: Topology, f: Fan)
    requires t.Valid() && Tree(t, f.routes) && Nested(t, f) && Recorded(t, f) && AtTop(t, f, t.root) && |f.path| == 1
    requires f.next[t.root] < |t.peers[t.root]| && t.peers[t.root][f.next[t.root]] in f.routes
    ensures f.routes[t.peers[t.root][f.next[t.root]]].upstream != Peer(t.root)
  {
    var nb := t.peers[t.root][f.next[t.root]];
    assert t.Linked(t.root);
    assert Called(t, f, nb) && Rooted(t, f.routes, nb);
    BusyIff(f, t, nb);
    assert f.path == [t.root];
  }

  lemma PassRejections(t: Topology, f: Fan, n: Node)
    requires t.Valid() && Tree(t, f.routes) && Nested(t, f) && Recorded(t, f) && Rejections(t, f)
    requires AtTop(t, f, n) && f.next[n] < |t.peers[n]| && t.peers[n][f.next[n]] in f.routes
    ensures Rejections(t, Pass(f, n, if n == t.root then {t.peers[n][f.next[n]]} else {}))
  {
    var nb := t.peers[n][f.next[n]];
    var f' := Pass(f, n, if n == t.root then {nb} else {});
    if n == t.root {
      RefusedElsewhere(t, f);
    }
    forall x ensures x in f'.rejected <==> Refused(t, f', x) {
      assert x in f.rejected <==> Refused(t, f, x);
      DealtWithMore(t, f.next, n, t.root, x);
    }
  }

  lemma PassBranches(t: Topology, f: Fan, n: Node, rejects: set<Node>)
    requires Branches(t, f) && n in f.next
    ensures Branches(t, Pass(f, n, rejects))
  {
    forall m | m in f.routes && m != t.root ensures OneBranch(t, Pass(f, n, rejects), m) {
      assert OneBranch(t, f, m);
    }
  }

  // -- accepting a new node --

  ghost predicate CanAccept(t: Topology, f: Fan, n: Node, nb: Node) {
    && AtTop(t, f, n) && f.next[n] < |t.peers[n]| && nb == t.peers[n][f.next[n]]
    && nb !in f.routes && t.Edge(n, nb) && nb in t.peers
  }

  lemma AcceptTree(t: Topology, f: Fan, n: Node, nb: Node)
    requires Tree(t, f.routes) && CanAccept(t, f, n, nb)
    ensures Tree(t, Accept(f, n, nb).routes)
  {
    var routes' := Accept(f, n, nb).routes;
    assert Simple(f.routes, n);
    forall k | 0 <= k < |f.routes[n].visited| ensures f.routes[n].visited[k] != nb {
      assert f.routes[n].visited[k] in f.routes;
    }
    forall m | m in routes' ensures m in t.peers && Simple(routes', m) && Rooted(t, routes', m) {
      if m != nb {
        assert Simple(f.routes, m) && Rooted(t, f.routes, m);
      }
    }
  }

  lemma AcceptNested(t: Topology, f: Fan, n: Node, nb: Node)
    requires Nested(t, f) && CanAccept(t, f, n, nb)
    ensures Nested(t, Accept(f, n, nb))
  {
    var f' := Accept(f, n, nb);
    forall m | m in f'.busy ensures m in f'.path {
      if m != nb { assert m in f.path; } else { assert f'.path[|f.path|] == nb; }
    }
  }

  lemma AcceptCovered(t: Topology, f: Fan, n: Node, nb: Node)
    requires Covered(t, f) && CanAccept(t, f, n, nb)
    ensures Covered(t, Accept(f, n, nb))
  {
    forall m | m in Accept(f, n, nb).routes ensures Covers(t, Accept(f, n, nb), m) {
      if m != nb { assert Covers(t, f, m); }
    }
  }

  lemma AcceptRecorded(t: Topology, f: Fan, n: Node, nb: Node)
    requires Tree(t, f.routes) && Nested(t, f) && Recorded(t, f) && CanAccept(t, f, n, nb)
    ensures Recorded(t, Accept(f, n, nb))
  {
    var f' := Accept(f, n, nb);
    forall m | m in f'.routes ensures Called(t, f', m) && FansOut(f', m) {
      assert FansOut(f, n);
      if m != nb {
        assert Called(t, f, m) && FansOut(f, m) && Rooted(t, f.routes, m);
        if f.routes[m].upstream.Peer? {
          assert DealtWith(t, f'.next, f.routes[m].upstream.id, m)
            <==> DealtWith(t, f.next, f.routes[m].upstream.id, m);
        }
      }
    }
  }

  lemma AcceptScheduled(t: Topology, f: Fan, n: Node, nb: Node)
    requires Scheduled(t, f) && CanAccept(t, f, n, nb)
    ensures Scheduled(t, Accept(f, n, nb))
  {
    forall m ensures Scans(t, Accept(f, n, nb), m) {
      assert Scans(t, f, m) && Scans(t, f, n) && Scans(t, f, nb);
    }
  }

  lemma AcceptRejections(t: Topology, f: Fan, n: Node, nb: Node)
    requires Tree(t, f.routes) && Covered(t, f) && Rejections(t, f) && CanAccept(t, f, n, nb)
    ensures Rejections(t, Accept(f, n, nb))
  {
    var f' := Accept(f, n, nb);
    forall x ensures x in f'.rejected <==> Refused(t, f', x) {
      assert x in f.rejected <==> Refused(t, f, x);
      assert DealtWith(t, f'.next, t.root, x) <==> DealtWith(t, f.next, t.root, x);
      assert Covers(t, f, t.root);
      assert DealtWith(t, f.next, t.root, x) ==> x in f.routes;
    }
  }

  // A new node touches no finished node off the portal, since those have every
  // neighbour routed already; so all its routed neighbours are calls in progress, of
  // its own branch.
  lemma AcceptBranches(t: Topology, f: Fan, n: Node, nb: Node)
    requires t.Valid() && Tree(t, f.routes) && Nested(t, f) && Covered(t, f) && Branches(t, f) && CanAccept(t, f, n, nb)
    ensures Branches(t, Accept(f, n, nb))
  {
    var f' := Accept(f, n, nb);
    assert f'.path == f'.routes[nb].visited;
    forall m | m in f.routes && m != t.root && (t.Edge(m, nb) || t.Edge(nb, m))
      ensures Branch(f'.routes, m) == Branch(f'.routes, nb)
    {
      if t.Edge(nb, m) { EdgeBoth(t, nb, m); }
      NewTouchesBusy(t, f, nb, m);
      assert OneBranch(t, f, m);
    }
    forall m | m in f'.routes && m != t.root ensures OneBranch(t, f', m) {
      if m != nb {
        assert OneBranch(t, f, m);
      }
    }
  }

  lemma NewTouchesBusy(t: Topology, f: Fan, nb: Node, m: Node)
    requires Covered(t, f) && m in f.routes && nb !in f.routes && t.Edge(m, nb)
    ensures m in f.busy
  {
    assert Covers(t, f, m);
    var k :| 0 <= k < |t.peers[m]| && t.peers[m][k] == nb;
  }

  // -- scheduling the scan --

  lemma ScheduleInv(t: Topology, f: Fan, n: Node)
    requires FanInv(t, f) && AtTop(t, f, n) && f.next[n] == |t.peers[n]| && n !in f.scans
    ensures FanInv(t, Schedule(f, n))
  {
    var f' := Schedule(f, n);
    forall m | m in f.routes ensures Covers(t, f', m) && Called(t, f', m) && FansOut(f', m) {
      assert Covers(t, f, m) && Called(t, f, m) && FansOut(f, m);
    }
    forall m ensures Scans(t, f', m) { assert Scans(t, f, m); }
    forall x ensures Refused(t, f', x) <==> Refused(t, f, x) {}
    forall m | m in f.routes && m != t.root ensures OneBranch(t, f', m) { assert OneBranch(t, f, m); }
  }

  // -- returning --

  ghost predicate CanReturn(t: Topology, f: Fan, n: Node) {
    AtTop(t, f, n) && f.next[n] == |t.peers[n]| && n in f.scans
  }

  lemma ReturnTree(t: Topology, f: Fan, n: Node)
    requires Tree(t, f.routes) && AtTop(t, f, n)
    ensures Tree(t, Return(f, n).routes)
  {
    var routes' := Return(f, n).routes;
    forall m | m in routes' ensures m in t.peers && Simple(routes', m) && Rooted(t, routes', m) {
      assert Simple(f.routes, m) && Rooted(t, f.routes, m);
    }
  }

  // The innermost node is on its path once, so leaving the path and leaving the busy
  // nodes are the same.
  lemma LeavesPath(t: Topology, f: Fan, n: Node)
    requires Tree(t, f.routes) && AtTop(t, f, n)
    ensures forall k :: 0 <= k < |Init(f.path)| ==> Init(f.path)[k] != n
  {
    assert Simple(f.routes, n);
  }

  lemma ReturnNested(t: Topology, f: Fan, n: Node)
    requires Tree(t, f.routes) && Nested(t, f) && AtTop(t, f, n)
    ensures Nested(t, Return(f, n))
  {
    var f' := Return(f, n);
    LeavesPath(t, f, n);
    forall m | m in f'.busy ensures m in f'.path {
      assert m in f.path;
      var k :| 0 <= k < |f.path| && f.path[k] == m;
      assert k < |f.path| - 1 && Init(f.path)[k] == m;
    }
  }

  lemma ReturnCovered(t: Topology, f: Fan, n: Node)
    requires Covered(t, f) && Recorded(t, f) && CanReturn(t, f, n)
    ensures Covered(t, Return(f, n))
  {
    var f' := Return(f, n);
    assert Called(t, f, n);
    forall m | m in f'.routes ensures Covers(t, f', m) {
      assert Covers(t, f, m);
    }
  }

  lemma ReturnRecorded(t: Topology, f: Fan, n: Node)
    requires Tree(t, f.routes) && Nested(t, f) && Recorded(t, f) && CanReturn(t, f, n)
    ensures Recorded(t, Return(f, n))
  {
    if |f.path| > 1 {
      forall m | m in Return(f, n).routes ensures Called(t, Return(f, n), m) && FansOut(Return(f, n), m) {
        if m == n { ReturnCalledTop(t, f, n); } else { ReturnCalled(t, f, n, m); }
        ReturnFansOut(t, f, n, m);
      }
    } else {
      LastReturnRecorded(t, f, n);
    }
  }

  lemma ReturnFansOut(t: Topology, f: Fan, n: Node, m: Node)
    requires Recorded(t, f) && CanReturn(t, f, n) && |f.path| > 1 && m in f.routes
    ensures FansOut(Return(f, n), m)
  {
    assert FansOut(f, m);
  }

  lemma LastReturnRecorded(t: Topology, f: Fan, n: Node)
    requires Tree(t, f.routes) && Nested(t, f) && Recorded(t, f) && CanReturn(t, f, n) && |f.path| == 1
    ensures Recorded(t, Return(f, n))
  {
    var f' := Return(f, n);
    forall m | m in f'.routes ensures Called(t, f', m) && FansOut(f', m) {
      assert Called(t, f, m) && FansOut(f, m) && Rooted(t, f.routes, m);
      BusyIff(f, t, m);
    }
  }

  lemma ReturnCalledTop(t: Topology, f: Fan, n: Node)
    requires Recorded(t, f) && CanReturn(t, f, n) && |f.path| > 1
    ensures Called(t, Return(f, n), n)
  {
    assert Called(t, f, n);
    DealtWithMore(t, f.next, Last(Init(f.path)), Last(Init(f.path)), n);
  }

  lemma ReturnCalled(t: Topology, f: Fan, n: Node, m: Node)
    requires Tree(t, f.routes) && Nested(t, f) && Recorded(t, f) && CanReturn(t, f, n)
    requires |f.path| > 1 && m in f.routes && m != n
    ensures Called(t, Return(f, n), m)
  {
    assert Called(t, f, n) && Called(t, f, m);
    if f.routes[m].upstream == Peer(n) {
      TopHasNoBusyChild(t, f, n, m);
      BusyIff(f, t, m);
    }
    StillCalled(t, f, n, m);
  }

  // Only n leaves and only its caller moves on, so another node's standing is kept.
  lemma StillCalled(t: Topology, f: Fan, n: Node, m: Node)
    requires CanReturn(t, f, n) && |f.path| > 1 && m in f.routes && m != n
    requires Called(t, f, n) && Called(t, f, m)
    requires f.routes[m].upstream == Peer(n) ==> m !in f.busy
    ensures Called(t, Return(f, n), m)
  {
    var caller, f' := Last(Init(f.path)), Return(f, n);
    if f.routes[m].upstream.Peer? && f.routes[m].upstream.id == caller {
      DealtWithMore(t, f.next, caller, caller, m);
    } else if f.routes[m].upstream.Peer? {
      var u := f.routes[m].upstream.id;
      assert f'.next[u] == f.next[u] && f'.routes[u] == f.routes[u];
      assert DealtWith(t, f.next, u, m) ==> DealtWith(t, f'.next, u, m);
    }
  }

  lemma ReturnScheduled(t: Topology, f: Fan, n: Node)
    requires Tree(t, f.routes) && Nested(t, f) && Scheduled(t, f) && CanReturn(t, f, n)
    ensures Scheduled(t, Return(f, n))
  {
    forall m ensures Scans(t, Return(f, n), m) {
      assert Scans(t, f, m) && Scans(t, f, n);
    }
  }

  lemma ReturnRejections(t: Topology, f: Fan, n: Node)
    requires Recorded(t, f) && Rejections(t, f) && CanReturn(t, f, n)
    ensures Rejections(t, Return(f, n))
  {
    var f' := Return(f, n);
    assert Called(t, f, n);
    forall x ensures x in f'.rejected <==> Refused(t, f', x) {
      assert x in f.rejected <==> Refused(t, f, x);
      if |f.path| > 1 {
        DealtWithMore(t, f.next, Last(Init(f.path)), t.root, x);
      }
    }
  }

  lemma ReturnBranches(t: Topology, f: Fan, n: Node)
    requires Tree(t, f.routes) && Nested(t, f) && Branches(t, f) && CanReturn(t, f, n)
    ensures Branches(t, Return(f, n))
  {
    var f' := Return(f, n);
    assert forall m :: Branch(f'.routes, m) == Branch(f.routes, m);
    forall m | m in f'.routes && m != t.root ensures OneBranch(t, f', m) {
      assert OneBranch(t, f, m);
      if m in f'.busy {
        assert m in f.path;
        var k :| 0 <= k < |f.path| && f.path[k] == m;
        assert f.path[0] == t.root by { PathStartsAtRoot(t, f.routes, n); }
        assert k > 0 && k < |f.path| - 1;
      }
    }
  }

  lemma {:induction false} PathStartsAtRoot(t: Topology, routes: map<Node, Route>, n: Node)
    requires Tree(t, routes) && n in routes
    ensures routes[n].visited != [] && routes[n].visited[0] == t.root
    decreases |routes[n].visited|
  {
    assert Rooted(t, routes, n);
    if n != t.root {
      var u := routes[n].upstream.id;
      PathStartsAtRoot(t, routes, u);
    }
  }

  lemma PassInv(t: Topology, f: Fan, n: Node)
    requires t.Valid() && FanInv(t, f) && AtTop(t, f, n)
    requires f.next[n] < |t.peers[n]| && t.peers[n][f.next[n]] in f.routes
    ensures FanInv(t, Pass(f, n, if n == t.root then {t.peers[n][f.next[n]]} else {}))
  {
    var rejects := if n == t.root then {t.peers[n][f.next[n]]} else {};
    PassNested(t, f, n, rejects);
    PassCovered(t, f, n, rejects);
    PassRecorded(t, f, n, rejects);
    PassScheduled(t, f, n, rejects);
    PassRejections(t, f, n);
    PassBranches(t, f, n, rejects);
  }

  lemma AcceptInv(t: Topology, f: Fan, n: Node, nb: Node)
    requires t.Valid() && FanInv(t, f) && CanAccept(t, f, n, nb)
    ensures FanInv(t, Accept(f, n, nb))
  {
    AcceptTree(t, f, n, nb);
    AcceptNested(t, f, n, nb);
    AcceptCovered(t, f, n, nb);
    AcceptRecorded(t, f, n, nb);
    AcceptScheduled(t, f, n, nb);
    AcceptRejections(t, f, n, nb);
    AcceptBranches(t, f, n, nb);
  }

  lemma ReturnInv(t: Topology, f: Fan, n: Node)
    requires t.Valid() && FanInv(t, f) && CanReturn(t, f, n)
    ensures FanInv(t, Return(f, n))
  {
    ReturnTree(t, f, n);
    ReturnNested(t, f, n);
    ReturnCovered(t, f, n);
    ReturnRecorded(t, f, n);
    ReturnScheduled(t, f, n);
    ReturnRejections(t, f, n);
    ReturnBranches(t, f, n);
  }

  // The portal skips nobody; whom an inner node skips, and whoever refuses, has a route.
  lemma PassedIsRouted(t: Topology, f: Fan, n: Node)
    requires t.Valid() && FanInv(t, f) && AtTop(t, f, n) && f.next[n] < |t.peers[n]|
    ensures var nb := t.peers[n][f.next[n]];
      && (Skips(f.routes[n], nb) ==> n != t.root && nb in f.routes)
      && (Refuses(f.routes, nb, f.routes[n].visited) <==> nb in f.routes)
      && (nb !in f.routes ==> CanAccept(t, f, n, nb))
  {
    var nb := t.peers[n][f.next[n]];
    assert Simple(f.routes, n) && Rooted(t, f.routes, n);
    assert t.Edge(n, nb);
    EdgeBoth(t, n, nb);
  }

  // Every step of the fan-out keeps the invariant.
  lemma FanStepInv(t: Topology, f: Fan)
    requires t.Valid() && FanInv(t, f) && f.path != []
    ensures AtTop(t, f, Last(f.path)) && Ready(t, f) && FanInv(t, FanStep(t, f))
  {
    TopFacts(t, f);
    var n := Last(f.path);
    if f.next[n] < |t.peers[n]| {
      PassedIsRouted(t, f, n);
      if t.peers[n][f.next[n]] in f.routes {
        PassInv(t, f, n);
      } else {
        AcceptInv(t, f, n, t.peers[n][f.next[n]]);
      }
    } else if n !in f.scans {
      ScheduleInv(t, f, n);
    } else {
      ReturnInv(t, f, n);
    }
  }
}
