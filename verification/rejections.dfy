// Which of its neighbours the portal marks done early: exactly those that an earlier
// neighbour in its loop is connected to without passing through the portal, and itself.

module Rejections {
  import opened Overlay
  import opened OverlayTheorems

  // The j-th neighbour in the portal's loop.
  ghost predicate At(t: Topology, j: nat, n: Node) {
    t.root in t.peers && j < |t.peers[t.root]| && t.peers[t.root][j] == n
  }

  ghost predicate Joined(t: Topology, i: nat, j: nat, n: Node) {
    i < j && At(t, j, n) && OffPortal(t, t.peers[t.root][i], n)
  }

  // The condition a caller can read off the overlay before the query.
  ghost predicate MarkedEarly(t: Topology, n: Node) {
    t.Edge(t.root, n) && (n == t.root || exists i: nat, j: nat :: Joined(t, i, j, n))
  }

  // ---- branches are entered in loop order ----

  ghost predicate NotLater(t: Topology, a: Node, j: nat) {
    exists i: nat :: At(t, i, a) && i <= j
  }

  // A neighbour of the portal hangs in the branch of a neighbour that is not later.
  ghost predicate Ordered(t: Topology, f: Fan) {
    forall n, j: nat {:trigger At(t, j, n)} ::
      At(t, j, n) && n in f.routes && n != t.root ==> NotLater(t, Branch(f.routes, n), j)
  }

  // The path of a node on the way is the way so far.
  lemma {:induction false} PathOfAncestor(t: Topology, routes: map<Node, Route>, n: Node, k: nat)
    requires Tree(t, routes) && n in routes && k < |routes[n].visited|
    ensures routes[n].visited[k] in routes
    ensures routes[routes[n].visited[k]].visited == routes[n].visited[..k + 1]
    decreases |routes[n].visited|
  {
    assert Simple(routes, n) && Rooted(t, routes, n);
    var v := routes[n].visited;
    if k == |v| - 1 {
      assert v[..k + 1] == v;
    } else {
      var u := routes[n].upstream.id;
      PathOfAncestor(t, routes, u, k);
      assert routes[u].visited == v[..|v| - 1];
      assert v[..|v| - 1][..k + 1] == v[..k + 1];
    }
  }

  // The branch in progress is the neighbour the portal's loop is at.
  lemma BranchInProgress(t: Topology, f: Fan)
    requires t.Valid() && FanInv(t, f) && |f.path| > 1
    ensures t.root in f.next && At(t, f.next[t.root], f.path[1])
  {
    TopFacts(t, f);
    var n := Last(f.path);
    PathOfAncestor(t, f.routes, n, 1);
    PathStartsAtRoot(t, f.routes, n);
    var b := f.path[1];
    assert f.routes[b].visited == [t.root, b];
    assert Simple(f.routes, n) && Rooted(t, f.routes, b);
    assert f.path[0] != f.path[1];
    assert Simple(f.routes, f.routes[b].upstream.id);
    assert f.routes[f.routes[b].upstream.id].visited == [t.root];
    assert f.path[1] in f.busy;
    assert Called(t, f, b);
  }

  lemma AcceptOrdered(t: Topology, f: Fan, n: Node, nb: Node)
    requires t.Valid() && FanInv(t, f) && Ordered(t, f) && CanAccept(t, f, n, nb)
    ensures Ordered(t, Accept(f, n, nb))
  {
    var f' := Accept(f, n, nb);
    forall m, j: nat | At(t, j, m) && m in f'.routes && m != t.root ensures NotLater(t, Branch(f'.routes, m), j) {
      if m == nb {
        NewIsNotEarlier(t, f, n, nb, j);
        if |f.path| > 1 {
          BranchInProgress(t, f);
          assert Branch(f'.routes, nb) == f.path[1];
        } else {
          assert Branch(f'.routes, nb) == nb;
        }
      } else {
        assert Branch(f'.routes, m) == Branch(f.routes, m);
      }
    }
  }

  // Whoever is accepted now comes at or after the portal's place in its loop.
  lemma NewIsNotEarlier(t: Topology, f: Fan, n: Node, nb: Node, j: nat)
    requires t.Valid() && FanInv(t, f) && CanAccept(t, f, n, nb) && At(t, j, nb)
    ensures t.root in f.next && f.next[t.root] <= j
  {
    assert Covers(t, f, t.root);
  }

  lemma StepOrdered(t: Topology, f: Fan)
    requires t.Valid() && FanInv(t, f) && Ordered(t, f)
    ensures Ordered(t, FanStep(t, f))
  {
    if f.path != [] {
      TopFacts(t, f);
      var n := Last(f.path);
      if f.next[n] < |t.peers[n]| && t.peers[n][f.next[n]] !in f.routes {
        PassedIsRouted(t, f, n);
        AcceptOrdered(t, f, n, t.peers[n][f.next[n]]);
      } else {
        if f.next[n] < |t.peers[n]| { PassedIsRouted(t, f, n); }
        SameBranches(t, f, FanStep(t, f));
      }
    }
  }

  lemma SameBranches(t: Topology, f: Fan, f': Fan)
    requires Ordered(t, f) && f'.routes.Keys == f.routes.Keys
    requires forall n :: n in f.routes ==> f'.routes[n].visited == f.routes[n].visited
    ensures Ordered(t, f')
  {
    forall m, j: nat | At(t, j, m) && m in f'.routes && m != t.root ensures NotLater(t, Branch(f'.routes, m), j) {
      assert Branch(f'.routes, m) == Branch(f.routes, m);
    }
  }

  lemma SubmittedOrdered(t: Topology)
    ensures Ordered(t, Submitted(t))
  {}

  // ---- the exact rejections ----

  // When the fan-out has ended, the rejected producers are exactly the neighbours marked
  // early.
  lemma RejectedExactly(t: Topology, f: Fan, n: Node)
    requires t.Valid() && FanInv(t, f) && Ordered(t, f) && f.path == []
    ensures n in f.rejected <==> MarkedEarly(t, n)
  {
    EndedIsClosed(t, f);
    assert n in f.rejected <==> Refused(t, f, n);
    assert Covers(t, f, t.root) && Rooted(t, f.routes, t.root);
    if Refused(t, f, n) && n != t.root {
      RejectedIsJoined(t, f, n);
    }
    if MarkedEarly(t, n) {
      assert t.Edge(t.root, n);
      var k :| 0 <= k < |t.peers[t.root]| && t.peers[t.root][k] == n;
      assert DealtWith(t, f.next, t.root, n);
      if n != t.root {
        var i: nat, j: nat :| Joined(t, i, j, n);
        JoinedHangsElsewhere(t, f, i, j, n);
      }
    }
  }

  lemma RejectedIsJoined(t: Topology, f: Fan, n: Node)
    requires t.Valid() && FanInv(t, f) && Ordered(t, f) && f.path == [] && Refused(t, f, n) && n != t.root
    ensures MarkedEarly(t, n)
  {
    BranchWalk(t, f.routes, n);
    var j: nat :| j < f.next[t.root] && j < |t.peers[t.root]| && t.peers[t.root][j] == n;
    assert At(t, j, n);
    var i: nat :| At(t, i, Branch(f.routes, n)) && i <= j;
    assert Joined(t, i, j, n);
  }

  lemma JoinedHangsElsewhere(t: Topology, f: Fan, i: nat, j: nat, n: Node)
    requires t.Valid() && FanInv(t, f) && Ordered(t, f) && f.path == [] && Joined(t, i, j, n) && n != t.root
    ensures n in f.routes && f.routes[n].upstream != Peer(t.root)
  {
    EndedIsClosed(t, f);
    var a := t.peers[t.root][i];
    assert At(t, i, a) && t.Edge(t.root, a);
    var p :| Walk(t, p) && p[0] == a && Last(p) == n && t.root !in p;
    assert p[0] in p;
    assert t.root in f.routes && a in f.routes;
    WalkKeepsBranch(t, f, p, |p| - 1);
    BranchWalk(t, f.routes, n);
    var h: nat :| At(t, h, Branch(f.routes, a)) && h <= i;
    assert t.Linked(t.root);
    assert t.peers[t.root][h] != t.peers[t.root][j];
  }

  // An overlay separates its portal's neighbours exactly when none is marked early.
  lemma SeparatesIffNoneEarly(t: Topology)
    requires t.Valid()
    ensures PortalSeparates(t) <==> forall n :: !MarkedEarly(t, n)
  {
    SubmittedInv(t);
    var k := FanOutEnds(t, Submitted(t));
    var f := FanRun(t, Submitted(t), k);
    EveryStateOrdered(t, k);
    RejectsUnlessSeparated(t, f);
    forall n ensures n in f.rejected <==> MarkedEarly(t, n) {
      RejectedExactly(t, f, n);
    }
  }

  lemma EveryStateOrdered(t: Topology, k: nat)
    requires t.Valid()
    ensures FanInv(t, FanRun(t, Submitted(t), k)) && Ordered(t, FanRun(t, Submitted(t), k))
  {
    var inv := x => FanInv(t, x) && Ordered(t, x);
    SubmittedInv(t);
    SubmittedOrdered(t);
    forall x | inv(x) ensures inv(Stepper(t)(x)) {
      NextInv(t, x);
      StepOrdered(t, x);
    }
    IterateKeeps(Stepper(t), inv, Submitted(t), k);
  }
}
