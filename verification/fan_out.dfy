// The fan-out as the handlers perform it: ForwardQuery calls itself on neighbours and
// blocks until they answer. Each of its assignments is one step of the fan-out machine,
// so every state it passes through is one the machine's theorems speak of.

module FanOut {
  import opened Overlay
  import opened OverlayTheorems
  import Rejections

  ghost predicate Reaches(t: Topology, f: Fan, g: Fan) {
    exists k: nat :: FanRun(t, f, k) == g
  }

  lemma ReachesSelf(t: Topology, f: Fan)
    ensures Reaches(t, f, f)
  {
    assert FanRun(t, f, 0) == f;
  }

  lemma ReachesStep(t: Topology, f: Fan, g: Fan)
    requires Reaches(t, f, g)
    ensures Reaches(t, f, FanStep(t, g))
  {
    var k: nat :| FanRun(t, f, k) == g;
    IterateMore(Stepper(t), f, k, 1);
    assert FanRun(t, g, 1) == FanStep(t, g) by {
      assert Iterate(Stepper(t), Stepper(t)(g), 0) == Stepper(t)(g);
    }
    assert FanRun(t, f, k + 1) == FanStep(t, g);
  }

  lemma ReachesOn(t: Topology, f: Fan, g: Fan, h: Fan)
    requires Reaches(t, f, g) && Reaches(t, g, h)
    ensures Reaches(t, f, h)
  {
    var j: nat :| FanRun(t, f, j) == g;
    var k: nat :| FanRun(t, g, k) == h;
    IterateMore(Stepper(t), f, j, k);
    assert FanRun(t, f, j + k) == h;
  }

  // The call of n has gone through its first `next` neighbours and scheduled its scan
  // or not.
  ghost predicate InLoop(t: Topology, f: Fan, caller: seq<Node>, n: Node, next: nat, scheduled: bool) {
    && FanInv(t, f) && f.path == caller + [n] && n in f.routes && n in f.next && n in t.peers
    && f.next[n] == next <= |t.peers[n]| && (n in f.scans <==> scheduled)
  }

  // One whole turn of the loop, or the scheduling that follows it, keeps the call where
  // it should be.
  lemma SkipTurn(t: Topology, f0: Fan, f: Fan, caller: seq<Node>, n: Node, i: nat)
    requires t.Valid() && InLoop(t, f, caller, n, i, false) && i < |t.peers[n]| && Reaches(t, f0, f)
    requires t.peers[n][i] in f.routes && (Skips(f.routes[n], t.peers[n][i]) ==> n != t.root)
    ensures var f' := Pass(f, n, if n == t.root then {t.peers[n][i]} else {});
      InLoop(t, f', caller, n, i + 1, false) && Reaches(t, f0, f')
  {
    FanStepInv(t, f);
    PassedIsRouted(t, f, n);
    ReachesStep(t, f0, f);
  }

  lemma AcceptTurn(t: Topology, f: Fan, caller: seq<Node>, n: Node, i: nat)
    requires t.Valid() && InLoop(t, f, caller, n, i, false) && i < |t.peers[n]|
    requires t.peers[n][i] !in f.routes && !Skips(f.routes[n], t.peers[n][i])
    ensures var f' := Accept(f, n, t.peers[n][i]);
      InLoop(t, f', f.path, t.peers[n][i], 0, false) && Reaches(t, f, f')
  {
    FanStepInv(t, f);
    PassedIsRouted(t, f, n);
    ReachesSelf(t, f);
    ReachesStep(t, f, f);
    assert Scans(t, f, t.peers[n][i]);
  }

  lemma ReturnTurn(t: Topology, f0: Fan, f: Fan, caller: seq<Node>, n: Node, i: nat, nb: Node)
    requires t.Valid() && nb in t.peers && InLoop(t, f, caller + [n], nb, |t.peers[nb]|, true) && Reaches(t, f0, f)
    requires n in f.routes && n in f.next && f.next[n] == i && n in t.peers && n !in f.scans
    ensures var f' := Return(f, nb); InLoop(t, f', caller, n, i + 1, false) && Reaches(t, f0, f')
  {
    FanStepInv(t, f);
    ReachesStep(t, f0, f);
    assert Init(f.path) == caller + [n];
    assert Covers(t, f, n) && Called(t, f, nb);
  }

  lemma ScheduleTurn(t: Topology, f0: Fan, f: Fan, caller: seq<Node>, n: Node)
    requires t.Valid() && n in t.peers && InLoop(t, f, caller, n, |t.peers[n]|, false) && Reaches(t, f0, f)
    ensures var f' := Schedule(f, n); InLoop(t, f', caller, n, |t.peers[n]|, true) && Reaches(t, f0, f')
  {
    FanStepInv(t, f);
    ReachesStep(t, f0, f);
  }

  // While a neighbour's call runs, its caller stays where it called it.
  lemma CallerWaits(t: Topology, f: Fan, caller: seq<Node>, n: Node, nb: Node, i: nat)
    requires t.Valid() && nb in t.peers && InLoop(t, f, caller + [n], nb, |t.peers[nb]|, true)
    requires n in t.peers && i < |t.peers[n]| && t.peers[n][i] == nb
    ensures n in f.routes && n in f.next && f.next[n] == i && n !in f.scans
  {
    TopFacts(t, f);
    assert Init(f.path) == caller + [n];
    assert Called(t, f, nb) && t.Linked(n) && Scans(t, f, n);
  }

  // What an ended fan-out has reached, scheduled and rejected.
  lemma Ended(t: Topology, f: Fan)
    requires t.Valid() && FanInv(t, f) && f.path == [] && Reaches(t, Submitted(t), f)
    ensures forall n :: n in f.routes <==> Connected(t, t.root, n)
    ensures forall n :: f.scans[n] == if Connected(t, t.root, n) then 1 else 0
    ensures forall n :: n in f.rejected <==> Rejections.MarkedEarly(t, n)
  {
    forall n
      ensures n in f.routes <==> Connected(t, t.root, n)
      ensures f.scans[n] == if Connected(t, t.root, n) then 1 else 0
    {
      ReachesExactlyConnected(t, f, n);
    }
    var k: nat :| FanRun(t, Submitted(t), k) == f;
    Rejections.EveryStateOrdered(t, k);
    forall n ensures n in f.rejected <==> Rejections.MarkedEarly(t, n) {
      Rejections.RejectedExactly(t, f, n);
    }
  }

  // All nodes' state for one request, and the ghost call stack of the nested calls.
  class Fabric {
    const topo: Topology
    var routes: map<Node, Route>
    var scans: multiset<Node>
    var rejected: set<Node>
    ghost var path: seq<Node>
    ghost var busy: set<Node>
    ghost var next: map<Node, nat>

    ghost function State(): Fan
      reads this
    {
      Fan(routes, path, busy, next, scans, rejected)
    }

    constructor (t: Topology)
      ensures topo == t && routes == map[] && scans == multiset{} && rejected == {}
    {
      topo, routes, scans, rejected := t, map[], multiset{}, {};
      path, busy, next := [], {}, map[];
    }

    // The portal: registers its own route, forwards to every neighbour in turn, and
    // schedules its own scan.
    method SubmitQuery()
      requires topo.Valid() && routes == map[] && scans == multiset{} && rejected == {}
      modifies this
      ensures FanInv(topo, State()) && Reaches(topo, Submitted(topo), State()) && path == []
      ensures forall n :: n in routes <==> Connected(topo, topo.root, n)
      ensures forall n :: scans[n] == if Connected(topo, topo.root, n) then 1 else 0
      ensures forall n :: n in rejected <==> Rejections.MarkedEarly(topo, n)
    {
      var me := topo.root;
      routes := map[me := Route(SelfRoute, [me], {})];
      path, busy, next := [me], {me}, map[me := 0];
      SubmittedInv(topo);
      ReachesSelf(topo, Submitted(topo));
      assert State() == Submitted(topo);
      RunLoop(me, [], Submitted(topo));
      TopFacts(topo, State());
      FanStepInv(topo, State());
      ReachesStep(topo, Submitted(topo), State());
      path, busy := [], busy - {me};
      Ended(topo, State());
    }

    // An inner node: refuses a loop or a duplicate; otherwise registers its route,
    // forwards to its neighbours in turn, and schedules its scan.
    method ForwardQuery(me: Node, from: Node, visited: seq<Node>, ghost f: Fan, ghost i: nat, ghost caller: seq<Node>)
      returns (accepted: bool)
      requires topo.Valid() && f == State() && InLoop(topo, f, caller, from, i, false)
      requires i < |topo.peers[from]| && topo.peers[from][i] == me
      requires visited == routes[from].visited && !Skips(routes[from], me)
      modifies this
      ensures accepted <==> !Refuses(f.routes, me, visited)
      ensures !accepted ==> State() == f
      ensures accepted ==> me in topo.peers && InLoop(topo, State(), f.path, me, |topo.peers[me]|, true)
      ensures accepted ==> Reaches(topo, f, State())
      ensures old(routes.Keys) <= routes.Keys
      decreases topo.peers.Keys - routes.Keys, 0
    {
      if me in visited {
        return false;
      }
      if me in routes {
        return false;
      }
      AcceptTurn(topo, f, caller, from, i);
      routes := routes[me := Route(Peer(from), visited + [me], {})];
      path, busy, next := path + [me], busy + {me}, next[me := 0];
      assert State() == Accept(f, from, me);
      assert me in topo.peers.Keys - old(routes.Keys);
      RunLoop(me, f.path, f);
      accepted := true;
    }

    // The neighbour loop of an accepted call, and the scheduling of its scan.
    method RunLoop(me: Node, ghost caller: seq<Node>, ghost f0: Fan)
      requires topo.Valid() && InLoop(topo, State(), caller, me, 0, false) && Reaches(topo, f0, State())
      modifies this
      ensures me in topo.peers && InLoop(topo, State(), caller, me, |topo.peers[me]|, true)
      ensures Reaches(topo, f0, State())
      ensures old(routes.Keys) <= routes.Keys
      decreases topo.peers.Keys - routes.Keys, 2
    {
      var i := 0;
      while i < |topo.peers[me]|
        invariant 0 <= i <= |topo.peers[me]|
        invariant InLoop(topo, State(), caller, me, i, false)
        invariant Reaches(topo, f0, State())
        invariant old(routes.Keys) <= routes.Keys
      {
        ForwardTo(me, i, caller, f0);
        i := i + 1;
      }
      ScheduleTurn(topo, f0, State(), caller, me);
      scans := scans + multiset{me};
    }

    // One neighbour of the loop. An inner node skips its sender and the nodes on the
    // path; a neighbour that accepts is recorded; the portal marks one that refuses done.
    method ForwardTo(me: Node, i: nat, ghost caller: seq<Node>, ghost f0: Fan)
      requires topo.Valid() && InLoop(topo, State(), caller, me, i, false) && Reaches(topo, f0, State())
      requires i < |topo.peers[me]|
      modifies this
      ensures me in topo.peers && i < |topo.peers[me]|
      ensures InLoop(topo, State(), caller, me, i + 1, false) && Reaches(topo, f0, State())
      ensures old(routes.Keys) <= routes.Keys
      decreases topo.peers.Keys - routes.Keys, 1
    {
      var nb := topo.peers[me][i];
      ghost var f := State();
      TopFacts(topo, f);
      PassedIsRouted(topo, f, me);
      var route := routes[me];
      var answer := false;
      if !(route.upstream.Peer? && (nb == route.upstream.id || nb in route.visited)) {
        answer := ForwardQuery(nb, me, route.visited, f, i, caller);
      }
      if answer {
        ReachesOn(topo, f0, f, State());
        CallerWaits(topo, State(), caller, me, nb, i);
        ReturnTurn(topo, f0, State(), caller, me, i, nb);
        RecordAccepted(me, nb);
      } else {
        SkipTurn(topo, f0, f, caller, me, i);
        if me == topo.root {
          rejected := rejected + {nb};
        } else {
          assert rejected + {} == rejected;
        }
        next := Advance(next, me);
        assert State() == Pass(f, me, if me == topo.root then {nb} else {});
      }
    }

    // The caller records the accepted neighbour and moves on.
    method RecordAccepted(caller: Node, nb: Node)
      requires |path| > 1 && caller == Last(Init(path)) && caller in routes && caller in next
      modifies this
      ensures State() == Return(old(State()), nb)
    {
      routes := routes[caller := routes[caller].(fanout := routes[caller].fanout + {nb})];
      path, busy, next := Init(path), busy - {nb}, Advance(next, caller);
    }
  }
}
