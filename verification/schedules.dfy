// Schedules: runs of a whole request built step by step, in which the client fetches only
// at the end and chosen producers that the portal rejected never push a chunk.

module Schedules {
  import opened Overlay
  import opened OverlayTheorems
  import opened Delivery

  lemma {:induction false} RunConcat<R>(t: Topology, w: Work<R>, s: Net<R>, a: seq<Step>, b: seq<Step>)
    ensures Run(t, w, s, a + b) == Run(t, w, Run(t, w, s, a), b)
    decreases |b|
  {
    if b == [] {
      assert a + b == a;
    } else {
      assert (a + b)[..|a + b| - 1] == a + b[..|b| - 1];
      RunConcat(t, w, s, a, b[..|b| - 1]);
    }
  }

  lemma RunOne<R>(t: Topology, w: Work<R>, s: Net<R>, step: Step)
    ensures Run(t, w, s, [step]) == Apply(t, w, s, step)
  {
    assert [step][..0] == [];
    assert Run(t, w, s, []) == s;
  }

  // The fan-out has ended and the request is still open.
  ghost predicate Quiet<R>(t: Topology, w: Work<R>, s: Net<R>) {
    NetInv(t, w, s) && s.Live() && s.fan.path == []
  }

  // Neither the fan-out nor the client has moved.
  ghost predicate Undrained<R>(s: Net<R>, s': Net<R>) { s'.fan == s.fan && s'.delivered == s.delivered }

  // No step of the client's.
  ghost predicate NoFetch(steps: seq<Step>) {
    forall i :: 0 <= i < |steps| ==> !steps[i].Pop? && !steps[i].Check? && !steps[i].Cancel?
  }

  // ---- the fan-out on its own ----

  lemma {:induction false} RunFanOut<R>(t: Topology, w: Work<R>, s: Net<R>, k: nat) returns (steps: seq<Step>)
    requires NetInv(t, w, s) && s.Live()
    ensures NoFetch(steps)
    ensures var s' := Run(t, w, s, steps);
      && NetInv(t, w, s') && s'.Live() && s'.prods == s.prods && s'.fan == FanRun(t, s.fan, k)
      && s'.delivered == s.delivered && s'.buf.q == s.buf.q
    decreases k
  {
    hide NetInv, FanStep;
    if k == 0 {
      steps := [];
    } else {
      var s1 := Apply(t, w, s, FanOutStep);
      ApplyInv(t, w, s, FanOutStep);
      var rest := RunFanOut(t, w, s1, k - 1);
      steps := [FanOutStep] + rest;
      RunOne(t, w, s, FanOutStep);
      RunConcat(t, w, s, [FanOutStep], rest);
      assert FanRun(t, s.fan, k) == FanRun(t, Stepper(t)(s.fan), k - 1);
    }
  }

  // ---- one chunk, hop by hop ----

  lemma {:induction false} ClimbToPortal<R>(t: Topology, w: Work<R>, s: Net<R>, p: Node, at: Node)
    returns (steps: seq<Step>)
    requires Quiet(t, w, s) && Running(w, s, p) && s.prods[p].push == InFlight(at) && at in s.fan.routes
    ensures NoFetch(steps)
    ensures var s' := Run(t, w, s, steps);
      Quiet(t, w, s') && Undrained(s, s') && s'.prods == s.prods[p := Producer(s.prods[p].sent, InFlight(t.root))]
    decreases |s.fan.routes[at].visited|
  {
    assert Rooted(t, s.fan.routes, at);
    if at == t.root {
      steps := [];
      assert s.prods == s.prods[p := s.prods[p]];
    } else {
      var up := s.fan.routes[at].upstream.id;
      var s1 := Apply(t, w, s, Hop(p));
      ApplyInv(t, w, s, Hop(p));
      assert s1.prods == s.prods[p := Producer(s.prods[p].sent, InFlight(up))];
      var rest := ClimbToPortal(t, w, s1, p, up);
      steps := [Hop(p)] + rest;
      RunOne(t, w, s, Hop(p));
      RunConcat(t, w, s, [Hop(p)], rest);
      assert Run(t, w, s, steps).prods == s.prods[p := Producer(s.prods[p].sent, InFlight(t.root))];
    }
  }

  lemma SetOut<R>(t: Topology, w: Work<R>, s: Net<R>, p: Node) returns (at: Node)
    requires Quiet(t, w, s) && Running(w, s, p) && s.prods[p].push == Idle
    ensures var s' := Apply(t, w, s, Begin(p));
      Quiet(t, w, s') && Undrained(s, s') && s'.prods == s.prods[p := Producer(s.prods[p].sent, InFlight(at))]
    ensures at in s.fan.routes
  {
    ApplyInv(t, w, s, Begin(p));
    assert Rooted(t, s.fan.routes, p);
    at := Apply(t, w, s, Begin(p)).prods[p].push.at;
  }

  lemma PushChunk<R>(t: Topology, w: Work<R>, s: Net<R>, p: Node) returns (steps: seq<Step>)
    requires Quiet(t, w, s) && Running(w, s, p) && s.prods[p].push == Idle
    ensures NoFetch(steps)
    ensures var s' := Run(t, w, s, steps);
      Quiet(t, w, s') && Undrained(s, s') && s'.prods == s.prods[p := Producer(s.prods[p].sent + 1, Idle)]
  {
    hide Quiet, Apply, Run, NetInv;
    var at := SetOut(t, w, s, p);
    RunOne(t, w, s, Begin(p));
    var s1 := Run(t, w, s, [Begin(p)]);
    var climb := ClimbToPortal(t, w, s1, p, at);
    var s2 := Run(t, w, s1, climb);
    var ending := Land(t, w, s2, p);
    RunConcat(t, w, s1, climb, ending);
    RunConcat(t, w, s, [Begin(p)], climb + ending);
    steps := [Begin(p)] + (climb + ending);
    assert Run(t, w, s, steps).prods == s.prods[p := Producer(s.prods[p].sent + 1, Idle)];
  }

  lemma Land<R>(t: Topology, w: Work<R>, s: Net<R>, p: Node) returns (steps: seq<Step>)
    requires Quiet(t, w, s) && Running(w, s, p) && s.prods[p].push == InFlight(t.root)
    ensures NoFetch(steps)
    ensures var s' := Run(t, w, s, steps);
      Quiet(t, w, s') && Undrained(s, s') && s'.prods == s.prods[p := Producer(s.prods[p].sent + 1, Idle)]
  {
    hide NetInv, Run, FanStep;
    var s1 := Apply(t, w, s, Deposit(p));
    ApplyInv(t, w, s, Deposit(p));
    RunOne(t, w, s, Deposit(p));
    if w[p][s.prods[p].sent].done {
      ApplyInv(t, w, s1, Mark(p));
      RunOne(t, w, s1, Mark(p));
      RunConcat(t, w, s, [Deposit(p)], [Mark(p)]);
      steps := [Deposit(p)] + [Mark(p)];
      assert Run(t, w, s, steps).prods == s.prods[p := Producer(s.prods[p].sent + 1, Idle)];
    } else {
      steps := [Deposit(p)];
    }
  }

  // ---- whole producers ----

  lemma {:induction false} FinishProducer<R>(t: Topology, w: Work<R>, s: Net<R>, p: Node) returns (steps: seq<Step>)
    requires Quiet(t, w, s) && p in w && p in s.prods && p in s.fan.scans && p in s.fan.routes
    requires s.prods[p].push == Idle && s.prods[p].sent <= |w[p]|
    ensures NoFetch(steps)
    ensures var s' := Run(t, w, s, steps);
      Quiet(t, w, s') && Undrained(s, s') && s'.prods == s.prods[p := Producer(|w[p]|, Idle)]
    decreases |w[p]| - s.prods[p].sent
  {
    hide Quiet, Apply, NetInv;
    if s.prods[p].sent == |w[p]| {
      steps := [];
      assert s.prods == s.prods[p := s.prods[p]];
    } else {
      var first := PushChunk(t, w, s, p);
      var s1 := Run(t, w, s, first);
      var rest := FinishProducer(t, w, s1, p);
      RunConcat(t, w, s, first, rest);
      steps := first + rest;
      assert Run(t, w, s, steps).prods == s.prods[p := Producer(|w[p]|, Idle)];
    }
  }

  // All producers but the ones in `held` run to their end.
  lemma {:induction false} FinishOthers<R>(t: Topology, w: Work<R>, s: Net<R>, todo: set<Node>)
    returns (steps: seq<Step>)
    requires Quiet(t, w, s)
    requires forall p :: p in todo ==>
      p in w && p in s.prods && p in s.fan.scans && p in s.fan.routes && s.prods[p] == Producer(0, Idle)
    ensures NoFetch(steps)
    ensures var s' := Run(t, w, s, steps);
      && Quiet(t, w, s') && Undrained(s, s') && s'.prods.Keys == s.prods.Keys
      && forall p :: p in s.prods ==> s'.prods[p] == if p in todo && p in w then Producer(|w[p]|, Idle) else s.prods[p]
    decreases todo
  {
    if todo == {} {
      steps := [];
    } else {
      var p :| p in todo;
      var first := FinishProducer(t, w, s, p);
      var s1 := Run(t, w, s, first);
      var rest := FinishOthers(t, w, s1, todo - {p});
      RunConcat(t, w, s, first, rest);
      steps := first + rest;
    }
  }

  // The client's fetches, m rows at a time.
  function Fetches(m: nat, n: nat): seq<Step> {
    if n == 0 then [] else [Pop(m), Check] + Fetches(m, n - 1)
  }

  lemma FetchOnce<R>(t: Topology, w: Work<R>, s: Net<R>, m: nat)
    ensures Run(t, w, s, [Pop(m), Check]) == Apply(t, w, Apply(t, w, s, Pop(m)), Check)
  {
    RunOne(t, w, s, Pop(m));
    RunOne(t, w, Apply(t, w, s, Pop(m)), Check);
    RunConcat(t, w, s, [Pop(m)], [Check]);
    assert [Pop(m)] + [Check] == [Pop(m), Check];
  }

  ghost predicate AllMarked<R>(t: Topology, s: Net<R>) { forall p :: p in t.peers ==> p in s.buf.done }

  // Nothing has changed but what the client has.
  ghost predicate Fetched<R>(s: Net<R>, s': Net<R>) {
    s'.fan == s.fan && s'.prods == s.prods && s'.lost == s.lost
  }

  lemma MarkedIsDone<R>(t: Topology, w: Work<R>, s: Net<R>)
    requires Quiet(t, w, s) && AllMarked(t, s)
    ensures s.buf.AllDone() && !s.buf.canceled
  {
    SubsetCount(t.peers.Keys, s.buf.done);
  }

  // One fetch takes m rows off the queue.
  lemma FetchSome<R>(t: Topology, w: Work<R>, s: Net<R>, m: nat)
    requires Quiet(t, w, s) && AllMarked(t, s) && 0 < m < |s.buf.q|
    ensures var s' := Apply(t, w, Apply(t, w, s, Pop(m)), Check);
      && Fetched(s, s') && Quiet(t, w, s') && AllMarked(t, s')
      && s'.delivered + s'.buf.q == s.delivered + s.buf.q && |s'.buf.q| < |s.buf.q|
  {
    hide FanStep, NetInv;
    MarkedIsDone(t, w, s);
    ApplyInv(t, w, s, Pop(m));
    assert s.buf.q == s.buf.q[..m] + s.buf.q[m..];
  }

  // Or all of them, and then it ends the request.
  lemma FetchRest<R>(t: Topology, w: Work<R>, s: Net<R>, m: nat)
    requires Quiet(t, w, s) && AllMarked(t, s) && |s.buf.q| <= m
    ensures var s' := Apply(t, w, Apply(t, w, s, Pop(m)), Check);
      Fetched(s, s') && s'.Concluded() && s'.delivered == s.delivered + s.buf.q
  {
    hide FanStep, NetInv;
    MarkedIsDone(t, w, s);
    assert s.buf.q[..|s.buf.q|] == s.buf.q;
  }

  // Once every expected producer is marked done, fetching the queue empty ends the
  // request, whatever the size of a fetch.
  lemma {:induction false} FetchAll<R>(t: Topology, w: Work<R>, s: Net<R>, m: nat) returns (n: nat)
    requires Quiet(t, w, s) && AllMarked(t, s) && m > 0
    ensures var s' := Run(t, w, s, Fetches(m, n));
      s'.Concluded() && Fetched(s, s') && s'.delivered == s.delivered + s.buf.q
    decreases |s.buf.q|
  {
    hide Apply, Quiet, AllMarked, Run;
    FetchOnce(t, w, s, m);
    var s1 := Run(t, w, s, [Pop(m), Check]);
    if |s.buf.q| <= m {
      n := 1;
      FetchRest(t, w, s, m);
      assert Fetches(m, 0) == [] && [Pop(m), Check] + [] == [Pop(m), Check];
    } else {
      FetchSome(t, w, s, m);
      var rest := FetchAll(t, w, s1, m);
      n := rest + 1;
      RunConcat(t, w, s, [Pop(m), Check], Fetches(m, rest));
    }
  }

  lemma SubsetCount<T>(a: set<T>, b: set<T>)
    requires a <= b
    ensures |a| <= |b|
  {
    assert b == a + (b - a);
  }

  // ---- whole requests ----

  // The overlay joins every node to the portal.
  ghost predicate Spans(t: Topology) {
    forall n :: n in t.peers ==> Connected(t, t.root, n)
  }

  // A fan-out of k steps has ended, and the held producers are some of those it rejected.
  ghost predicate EndedRejecting(t: Topology, k: nat, held: set<Node>) {
    FanRun(t, Submitted(t), k).path == [] && held <= FanRun(t, Submitted(t), k).rejected
  }

  // Every producer but the held ones has pushed all its chunks, and the client has
  // fetched nothing.
  ghost predicate PushedBut<R>(t: Topology, w: Work<R>, s: Net<R>, held: set<Node>) {
    && Quiet(t, w, s) && s.delivered == []
    && s.prods.Keys == t.peers.Keys
    && (forall p :: p in s.prods && p in w ==> s.prods[p] == Producer(if p in held then 0 else |w[p]|, Idle))
    && AllMarked(t, s)
  }

  // A schedule in which just the given producers push, all of them connected to the portal,
  // and the client fetches nothing.
  lemma PushJust<R>(t: Topology, w: Work<R>, capacity: nat, k: nat, todo: set<Node>) returns (steps: seq<Step>)
    requires t.Valid() && Works(t, w) && FanRun(t, Submitted(t), k).path == []
    requires forall p :: p in todo ==> p in t.peers && Connected(t, t.root, p)
    ensures NoFetch(steps)
    ensures var s := Run(t, w, Start(t, capacity), steps);
      && Quiet(t, w, s) && s.delivered == [] && s.fan == FanRun(t, Submitted(t), k) && s.prods.Keys == t.peers.Keys
      && forall p :: p in s.prods && p in w ==> s.prods[p] == Producer(if p in todo then |w[p]| else 0, Idle)
  {
    var s0: Net<R> := Start(t, capacity);
    StartInv(t, w, capacity);
    var fanOut := RunFanOut(t, w, s0, k);
    var s1 := Run(t, w, s0, fanOut);
    forall p | p in todo ensures p in s1.fan.routes && p in s1.fan.scans {
      ReachesExactlyConnected(t, s1.fan, p);
    }
    var scans := FinishOthers(t, w, s1, todo);
    RunConcat(t, w, s0, fanOut, scans);
    steps := fanOut + scans;
  }

  // A connected overlay has one in which the producers in `held`, all rejected by the
  // portal, never push a chunk and all others push everything.
  lemma PushWithout<R>(t: Topology, w: Work<R>, capacity: nat, k: nat, held: set<Node>) returns (steps: seq<Step>)
    requires t.Valid() && Works(t, w) && Spans(t) && EndedRejecting(t, k, held)
    ensures NoFetch(steps) && PushedBut(t, w, Run(t, w, Start(t, capacity), steps), held)
  {
    steps := PushJust(t, w, capacity, k, t.peers.Keys - held);
    var s := Run(t, w, Start(t, capacity), steps);
    forall p | p in t.peers ensures p in s.buf.done {
      assert DoneOk(w, s, p);
    }
  }

  // Final is reported all the same, to a client that fetches only then, m rows at a time.
  lemma FinalWithout<R>(t: Topology, w: Work<R>, capacity: nat, k: nat, held: set<Node>, m: nat)
    returns (steps: seq<Step>, n: nat)
    requires t.Valid() && Works(t, w) && Spans(t) && EndedRejecting(t, k, held) && m > 0
    ensures NoFetch(steps) && PushedBut(t, w, Run(t, w, Start(t, capacity), steps), held)
    ensures var pushed, s := Run(t, w, Start(t, capacity), steps), Run(t, w, Start(t, capacity), steps + Fetches(m, n));
      && s.Concluded() && s.fan == pushed.fan && s.prods == pushed.prods
      && s.delivered == pushed.buf.q && s.lost == pushed.lost
  {
    steps := PushWithout(t, w, capacity, k, held);
    var pushed := Run(t, w, Start(t, capacity), steps);
    n := FetchAll(t, w, pushed, m);
    RunConcat(t, w, Start(t, capacity), steps, Fetches(m, n));
    assert pushed.delivered + pushed.buf.q == pushed.buf.q;
  }
}
