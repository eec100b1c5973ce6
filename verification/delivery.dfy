// One request from submission to its final fetch: the fan-out, the local scans it has
// scheduled, their chunks climbing hop by hop to the portal, and the client draining
// the portal's buffer, under every interleaving.

module Delivery {
  import opened Rows
  import opened ChunkBuffers
  import opened Overlay
  import OverlayTheorems

  // A buffered row and, for the statements below, the producer it came from.
  datatype Tagged<R> = Tagged(producer: Node, row: R)

  // A scan pushes one chunk at a time: nothing outstanding; a push held at some node on
  // its way up; or its last rows deposited but the producer not yet marked done.
  datatype Push = Idle | InFlight(at: Node) | Deposited

  datatype Producer = Producer(sent: nat, push: Push)

  datatype Net<R> = Net(
    fan: Fan, prods: map<Node, Producer>, buf: Buf<Tagged<R>>, open: bool, delivered: seq<Tagged<R>>, lost: nat)
  {
    // Neither ended nor canceled.
    predicate Live() { open && !buf.canceled }

    // Final was reported, and the request had not been canceled when finality was read.
    predicate Concluded() { !open && !buf.canceled }
  }

  // What every node's scan hands its sink: chunks, the last one flagged done.
  type Work<R> = map<Node, seq<Chunk<R>>>

  ghost predicate Framed<R>(cs: seq<Chunk<R>>) {
    cs != [] && forall k :: 0 <= k < |cs| ==> (cs[k].done <==> k == |cs| - 1)
  }

  ghost predicate Works<R>(t: Topology, w: Work<R>) {
    w.Keys == t.peers.Keys && forall p {:trigger Framed(w[p])} :: p in w ==> Framed(w[p])
  }

  datatype Step =
    | FanOutStep | Begin(p: Node) | Hop(p: Node) | Deposit(p: Node) | Mark(p: Node)
    | Pop(max: nat) | Check | Cancel

  function Start<R>(t: Topology, capacity: nat): Net<R> {
    Net(Submitted(t), map p | p in t.peers.Keys :: Producer(0, Idle),
        Buf(capacity, |t.peers.Keys|, [], t.peers.Keys, {}, 0, false), true, [], 0)
  }

  function Tag<R>(p: Node, rows: seq<R>): (tagged: seq<Tagged<R>>)
    ensures |tagged| == |rows|
  {
    seq(|rows|, i requires 0 <= i < |rows| => Tagged(p, rows[i]))
  }

  function SetProd<R>(s: Net<R>, p: Node, prod: Producer): Net<R> {
    s.(prods := s.prods[p := prod])
  }

  predicate Running<R>(w: Work<R>, s: Net<R>, p: Node) {
    p in s.prods && p in w && p in s.fan.scans && p in s.fan.routes && s.prods[p].sent < |w[p]|
  }

  // Each step as the handlers take it; a step that is not possible changes nothing.
  function Apply<R>(t: Topology, w: Work<R>, s: Net<R>, step: Step): Net<R> {
    match step
    case FanOutStep =>
      var fan := FanStep(t, s.fan);
      s.(fan := fan, buf := s.buf.(done := s.buf.done + (fan.rejected - s.fan.rejected)))
    case Begin(p) =>
      if Running(w, s, p) && s.prods[p].push == Idle then
        SetProd(s, p, Producer(s.prods[p].sent,
          InFlight(match s.fan.routes[p].upstream case SelfRoute => p case Peer(u) => u)))
      else s
    case Hop(p) =>
      if Running(w, s, p) && s.prods[p].push.InFlight? && s.prods[p].push.at in s.fan.routes
         && s.fan.routes[s.prods[p].push.at].upstream.Peer? then
        SetProd(s, p, Producer(s.prods[p].sent, InFlight(s.fan.routes[s.prods[p].push.at].upstream.id)))
      else s
    case Deposit(p) =>
      if Running(w, s, p) && s.prods[p].push == InFlight(t.root) then Deposits(t.root, w, s, p) else s
    case Mark(p) =>
      if Running(w, s, p) && s.prods[p].push == Deposited then
        SetProd(s, p, Producer(s.prods[p].sent + 1, Idle)).(buf := s.buf.MarkDone(p))
      else s
    case Pop(max) =>
      if s.fan.path == [] && s.open then
        s.(buf := s.buf.Pop(max), delivered := s.delivered + s.buf.q[..Min(max, |s.buf.q|)])
      else s
    case Check =>
      if s.fan.path == [] && s.open && s.buf.Final() then s.(open := false) else s
    case Cancel =>
      if s.fan.path == [] && s.open then s.(buf := s.buf.Cancel()) else s
  }

  // The portal takes what fits and acknowledges all the same; once the request is gone or
  // canceled it answers "canceled" and the producer gives up. The portal's own scan is
  // told nothing and marks itself done. What a canceled scan would still have sent, or
  // whether it stops first, makes no difference: none of it is accepted.
  function Deposits<R>(root: Node, w: Work<R>, s: Net<R>, p: Node): Net<R>
    requires Running(w, s, p)
  {
    var sent, chunk := s.prods[p].sent, w[p][s.prods[p].sent];
    if !s.open then SetProd(s, p, Producer(|w[p]|, Idle))
    else if s.buf.canceled then
      SetProd(s, p, Producer(|w[p]|, Idle)).(buf := if p == root then s.buf.MarkDone(p) else s.buf)
    else
      SetProd(s, p, if chunk.done then Producer(sent, Deposited) else Producer(sent + 1, Idle))
        .(buf := s.buf.Push(Tag(p, chunk.rows)), lost := s.lost + |chunk.rows| - s.buf.Room(|chunk.rows|))
  }

  // A run may cancel the request at any time after its submission has returned. Check reads
  // the canceled flag and finality together; `services` has a fetch's two reads apart.
  function Run<R>(t: Topology, w: Work<R>, s: Net<R>, steps: seq<Step>): Net<R> {
    if steps == [] then s else Apply(t, w, Run(t, w, s, steps[..|steps| - 1]), steps[|steps| - 1])
  }

  // ---- accounting ----

  // The rows of one producer, in order.
  function From<R>(rows: seq<Tagged<R>>, p: Node): seq<R> {
    if rows == [] then []
    else From(rows[..|rows| - 1], p) + if rows[|rows| - 1].producer == p then [rows[|rows| - 1].row] else []
  }

  // How many of its chunks a producer has deposited.
  function DepositedChunks(prod: Producer): nat { prod.sent + if prod.push == Deposited then 1 else 0 }

  lemma {:induction false} FromConcat<R>(a: seq<Tagged<R>>, b: seq<Tagged<R>>, p: Node)
    ensures From(a + b, p) == From(a, p) + From(b, p)
    decreases |b|
  {
    if b == [] {
      assert a + b == a;
    } else {
      assert (a + b)[..|a + b| - 1] == a + b[..|b| - 1];
      FromConcat(a, b[..|b| - 1], p);
    }
  }

  lemma {:induction false} FromTag<R>(p: Node, rows: seq<R>, q: Node)
    ensures From(Tag(p, rows), q) == if p == q then rows else []
  {
    if rows != [] {
      var init := rows[..|rows| - 1];
      assert Tag(p, rows)[..|rows| - 1] == Tag(p, init);
      FromTag(p, init, q);
    }
  }

  lemma TaggedAppend<R>(all: seq<Tagged<R>>, p: Node, rows: seq<R>, q: Node)
    ensures From(all + Tag(p, rows), q) == From(all, q) + if p == q then rows else []
  {
    FromConcat(all, Tag(p, rows), q);
    FromTag(p, rows, q);
  }

  lemma {:induction false} FlatStep<R>(cs: seq<Chunk<R>>, n: nat)
    requires n < |cs|
    ensures Flat(cs[..n + 1]) == Flat(cs[..n]) + cs[n].rows
  {
    assert cs[..n + 1] == cs[..n] + [cs[n]];
    FlatConcat(cs[..n], [cs[n]]);
    assert Flat([cs[n]]) == cs[n].rows + Flat<R>([]);
  }

  // ---- what every interleaving keeps ----

  ghost predicate ProducerOk<R>(t: Topology, w: Work<R>, s: Net<R>, p: Node)
    requires p in s.prods && p in w
  {
    && s.prods[p].sent <= |w[p]|
    && (s.prods[p].push != Idle ==> s.prods[p].sent < |w[p]| && p in s.fan.scans)
    && (p !in s.fan.scans ==> s.prods[p].sent == 0)
    && (s.prods[p].push.InFlight? ==> s.prods[p].push.at in s.fan.routes)
    && (s.prods[p].push == Deposited ==> s.prods[p].sent == |w[p]| - 1)
  }

  // While the request is open, exactly the finished and the rejected are marked done.
  ghost predicate DoneOk<R>(w: Work<R>, s: Net<R>, p: Node) {
    p in s.buf.done <==> (p in s.prods && p in w && s.prods[p].sent == |w[p]|) || p in s.fan.rejected
  }

  // Nothing refused so far: what was delivered and what is queued, of each producer,
  // is what it deposited, in order.
  ghost predicate StreamOk<R>(w: Work<R>, s: Net<R>, p: Node)
    requires p in s.prods && p in w
  {
    DepositedChunks(s.prods[p]) <= |w[p]|
    && From(s.delivered + s.buf.q, p) == Flat(w[p][..DepositedChunks(s.prods[p])])
  }

  ghost predicate Shape<R>(t: Topology, w: Work<R>, s: Net<R>) {
    && t.Valid() && Works(t, w) && FanInv(t, s.fan)
    && s.prods.Keys == t.peers.Keys
    && forall p {:trigger ProducerOk(t, w, s, p)} :: p in s.prods ==> ProducerOk(t, w, s, p)
  }

  ghost predicate OpenOk<R>(t: Topology, w: Work<R>, s: Net<R>) {
    && !s.buf.canceled && s.buf.expected == |t.peers.Keys|
    && (forall p {:trigger DoneOk(w, s, p)} :: DoneOk(w, s, p))
    && (forall k :: 0 <= k < |s.delivered + s.buf.q| ==> (s.delivered + s.buf.q)[k].producer in t.peers)
    && (s.lost == 0 ==> forall p {:trigger StreamOk(w, s, p)} :: p in s.prods && p in w ==> StreamOk(w, s, p))
  }

  // After the final fetch: every producer that was not rejected has finished, and (if
  // nothing was refused for space) all its rows were delivered, in its own order.
  ghost predicate Complete<R>(w: Work<R>, s: Net<R>, p: Node)
    requires p in s.prods && p in w
  {
    && s.prods[p] == Producer(|w[p]|, Idle)
    && (s.lost == 0 ==> From(s.delivered, p) == Flat(w[p]))
  }

  ghost predicate ClosedOk<R>(t: Topology, w: Work<R>, s: Net<R>) {
    && s.fan.path == []
    && (forall p {:trigger Complete(w, s, p)} :: p in s.prods && p in w && p !in s.fan.rejected ==> Complete(w, s, p))
    && (forall k :: 0 <= k < |s.delivered| ==> s.delivered[k].producer in t.peers)
  }

  // A canceled request's queue stays empty.
  ghost predicate CanceledOk<R>(t: Topology, s: Net<R>) {
    s.fan.path == [] && s.buf.q == [] && forall k :: 0 <= k < |s.delivered| ==> s.delivered[k].producer in t.peers
  }

  ghost predicate Standing<R>(t: Topology, w: Work<R>, s: Net<R>) {
    if s.buf.canceled then CanceledOk(t, s) else if s.open then OpenOk(t, w, s) else ClosedOk(t, w, s)
  }

  ghost predicate NetInv<R>(t: Topology, w: Work<R>, s: Net<R>) { Shape(t, w, s) && Standing(t, w, s) }

  lemma StartInv<R>(t: Topology, w: Work<R>, capacity: nat)
    requires t.Valid() && Works(t, w)
    ensures NetInv(t, w, Start(t, capacity))
  {
    var s: Net<R> := Start(t, capacity);
    SubmittedInv(t);
    forall p | p in s.prods ensures ProducerOk(t, w, s, p) && StreamOk(w, s, p) {
      assert w[p][..0] == [];
    }
    forall p ensures DoneOk(w, s, p) {
      if p in w { assert Framed(w[p]); }
    }
  }

  // The fan-out only adds routes, scans and rejections.
  lemma FanGrows(t: Topology, f: Fan)
    ensures f.routes.Keys <= FanStep(t, f).routes.Keys && f.scans <= FanStep(t, f).scans
    ensures f.rejected <= FanStep(t, f).rejected
  {}

  lemma FanOutShape<R>(t: Topology, w: Work<R>, s: Net<R>)
    requires Shape(t, w, s)
    ensures Shape(t, w, Apply(t, w, s, FanOutStep))
  {
    var s' := Apply(t, w, s, FanOutStep);
    OverlayTheorems.NextInv(t, s.fan);
    FanGrows(t, s.fan);
    forall p | p in s'.prods ensures ProducerOk(t, w, s', p) {
      assert ProducerOk(t, w, s, p);
    }
  }

  lemma FanOutOpen<R>(t: Topology, w: Work<R>, s: Net<R>)
    requires OpenOk(t, w, s)
    ensures OpenOk(t, w, Apply(t, w, s, FanOutStep))
  {
    var s' := Apply(t, w, s, FanOutStep);
    FanGrows(t, s.fan);
    forall p ensures DoneOk(w, s', p) {
      assert DoneOk(w, s, p);
    }
    forall p | s.lost == 0 && p in s'.prods && p in w ensures StreamOk(w, s', p) {
      assert StreamOk(w, s, p);
    }
  }

  // Only p's own standing changes, and only p's own steps change it.
  lemma SetProdShape<R>(t: Topology, w: Work<R>, s: Net<R>, s': Net<R>, p: Node)
    requires Shape(t, w, s) && p in s.prods && p in s'.prods
    requires s'.fan == s.fan && s'.prods == s.prods[p := s'.prods[p]]
    requires p in w && ProducerOk(t, w, s', p)
    ensures Shape(t, w, s')
  {
    forall q | q in s'.prods ensures ProducerOk(t, w, s', q) {
      if q != p { assert ProducerOk(t, w, s, q); }
    }
  }

  // A push climbing one hop, or setting out, moves no rows.
  lemma ClimbOpen<R>(t: Topology, w: Work<R>, s: Net<R>, p: Node, prod: Producer)
    requires OpenOk(t, w, s) && p in s.prods && prod.sent == s.prods[p].sent
    requires prod.push.InFlight? && s.prods[p].push != Deposited
    ensures OpenOk(t, w, SetProd(s, p, prod))
  {
    var s' := SetProd(s, p, prod);
    forall q ensures DoneOk(w, s', q) {
      assert DoneOk(w, s, q);
    }
    forall q | s.lost == 0 && q in s'.prods && q in w ensures StreamOk(w, s', q) {
      assert StreamOk(w, s, q);
    }
  }

  // A chunk that fits whole extends its producer's stream, and no other.
  lemma DepositStream<R>(t: Topology, w: Work<R>, s: Net<R>, p: Node, q: Node)
    requires Running(w, s, p) && s.prods[p].push.InFlight? && s.open && !s.buf.canceled && Framed(w[p])
    requires s.buf.Room(|w[p][s.prods[p].sent].rows|) == |w[p][s.prods[p].sent].rows|
    requires q in s.prods && q in w && StreamOk(w, s, q)
    ensures q in Deposits(t.root, w, s, p).prods && StreamOk(w, Deposits(t.root, w, s, p), q)
  {
    hide From, Flat, Tag;
    var chunk := w[p][s.prods[p].sent];
    var s' := Deposits(t.root, w, s, p);
    assert s'.buf.q == s.buf.q + Tag(p, chunk.rows);
    assert s'.delivered + s'.buf.q == (s.delivered + s.buf.q) + Tag(p, chunk.rows);
    TaggedAppend(s.delivered + s.buf.q, p, chunk.rows, q);
    if q == p { FlatStep(w[p], s.prods[p].sent); }
  }

  lemma DepositOpen<R>(t: Topology, w: Work<R>, s: Net<R>, p: Node)
    requires Shape(t, w, s) && OpenOk(t, w, s) && s.open && Running(w, s, p) && s.prods[p].push == InFlight(t.root)
    ensures OpenOk(t, w, Deposits(t.root, w, s, p))
  {
    hide StreamOk, FanInv;
    var s' := Deposits(t.root, w, s, p);
    var chunk := w[p][s.prods[p].sent];
    assert Framed(w[p]);
    forall q ensures DoneOk(w, s', q) {
      assert DoneOk(w, s, q);
    }
    var rows := Tag(p, chunk.rows)[..s.buf.Room(|chunk.rows|)];
    assert s'.delivered + s'.buf.q == (s.delivered + s.buf.q) + rows;
    forall q | s'.lost == 0 && q in s'.prods && q in w ensures StreamOk(w, s', q) {
      assert StreamOk(w, s, q);
      DepositStream(t, w, s, p, q);
    }
  }

  lemma MarkOpen<R>(t: Topology, w: Work<R>, s: Net<R>, p: Node)
    requires Shape(t, w, s) && OpenOk(t, w, s) && Running(w, s, p) && s.prods[p].push == Deposited
    ensures OpenOk(t, w, Apply(t, w, s, Mark(p)))
  {
    var s' := Apply(t, w, s, Mark(p));
    assert ProducerOk(t, w, s, p);
    forall q ensures DoneOk(w, s', q) {
      assert DoneOk(w, s, q);
    }
    forall q | s.lost == 0 && q in s'.prods && q in w ensures StreamOk(w, s', q) {
      assert StreamOk(w, s, q);
    }
  }

  lemma PopOpen<R>(t: Topology, w: Work<R>, s: Net<R>, max: nat)
    requires OpenOk(t, w, s)
    ensures OpenOk(t, w, Apply(t, w, s, Pop(max)))
  {
    var s' := Apply(t, w, s, Pop(max));
    assert s'.delivered + s'.buf.q == s.delivered + s.buf.q by {
      var n := Min(max, |s.buf.q|);
      assert s.buf.q == s.buf.q[..n] + s.buf.q[n..];
    }
    forall q ensures DoneOk(w, s', q) {
      assert DoneOk(w, s, q);
    }
    forall q | s.lost == 0 && q in s'.prods && q in w ensures StreamOk(w, s', q) {
      assert StreamOk(w, s, q);
    }
  }

  lemma FullSubset<T>(a: set<T>, b: set<T>)
    requires a <= b && |a| >= |b|
    ensures a == b
  {
    assert b == a + (b - a);
    assert |b| == |a| + |b - a|;
    assert b - a == {};
  }

  // Final means every expected producer is marked done: all but the rejected ones have
  // delivered everything.
  lemma CheckCloses<R>(t: Topology, w: Work<R>, s: Net<R>)
    requires Shape(t, w, s) && OpenOk(t, w, s) && s.fan.path == [] && s.open && s.buf.Final()
    ensures ClosedOk(t, w, Apply(t, w, s, Check))
  {
    var s' := Apply(t, w, s, Check);
    forall p | p in s.buf.done ensures p in t.peers.Keys {
      assert DoneOk(w, s, p);
      if p in s.fan.rejected {
        assert Refused(t, s.fan, p);
        assert Simple(s.fan.routes, p);
      }
    }
    FullSubset(s.buf.done, t.peers.Keys);
    assert s.delivered + s.buf.q == s.delivered;
    forall p | p in s'.prods && p in w && p !in s'.fan.rejected ensures Complete(w, s', p) {
      assert p in s.buf.done;
      assert DoneOk(w, s, p) && ProducerOk(t, w, s, p);
      if s.lost == 0 {
        assert StreamOk(w, s, p);
        assert w[p][..|w[p]|] == w[p];
      }
    }
  }

  lemma ApplyShape<R>(t: Topology, w: Work<R>, s: Net<R>, step: Step)
    requires Shape(t, w, s)
    ensures Shape(t, w, Apply(t, w, s, step))
  {
    match step
    case FanOutStep => FanOutShape(t, w, s);
    case Begin(p) =>
      if p in s.prods && p in w { StepShape(t, w, s, step, p); }
    case Hop(p) =>
      if p in s.prods && p in w { StepShape(t, w, s, step, p); }
    case Deposit(p) =>
      if p in s.prods && p in w { StepShape(t, w, s, step, p); }
    case Mark(p) =>
      if p in s.prods && p in w { StepShape(t, w, s, step, p); }
    case Pop(max) =>
      var s' := Apply(t, w, s, step);
      forall q | q in s'.prods ensures ProducerOk(t, w, s', q) { assert ProducerOk(t, w, s, q); }
    case Check =>
      var s' := Apply(t, w, s, step);
      forall q | q in s'.prods ensures ProducerOk(t, w, s', q) { assert ProducerOk(t, w, s, q); }
    case Cancel =>
      var s' := Apply(t, w, s, step);
      forall q | q in s'.prods ensures ProducerOk(t, w, s', q) { assert ProducerOk(t, w, s, q); }
  }

  predicate StepOf(step: Step, p: Node) {
    step == Begin(p) || step == Hop(p) || step == Deposit(p) || step == Mark(p)
  }

  lemma StepProducerOk<R>(t: Topology, w: Work<R>, s: Net<R>, step: Step, p: Node)
    requires Tree(t, s.fan.routes) && p in s.prods && p in w && ProducerOk(t, w, s, p) && Framed(w[p])
    requires StepOf(step, p)
    ensures var s' := Apply(t, w, s, step);
      s'.fan == s.fan && p in s'.prods && s'.prods == s.prods[p := s'.prods[p]] && ProducerOk(t, w, s', p)
  {
    if p in s.fan.routes { assert Rooted(t, s.fan.routes, p); }
    if s.prods[p].push.InFlight? { assert Rooted(t, s.fan.routes, s.prods[p].push.at); }
  }

  lemma StepShape<R>(t: Topology, w: Work<R>, s: Net<R>, step: Step, p: Node)
    requires Shape(t, w, s) && p in s.prods && p in w && StepOf(step, p)
    ensures Shape(t, w, Apply(t, w, s, step))
  {
    hide Apply;
    assert ProducerOk(t, w, s, p) && Framed(w[p]);
    StepProducerOk(t, w, s, step, p);
    SetProdShape(t, w, s, Apply(t, w, s, step), p);
  }

  lemma ApplyOpen<R>(t: Topology, w: Work<R>, s: Net<R>, step: Step)
    requires Shape(t, w, s) && OpenOk(t, w, s) && s.open
    ensures Standing(t, w, Apply(t, w, s, step))
  {
    match step
    case FanOutStep => FanOutOpen(t, w, s);
    case Begin(p) =>
      var s' := Apply(t, w, s, step);
      if s' != s { ClimbOpen(t, w, s, p, s'.prods[p]); }
    case Hop(p) =>
      var s' := Apply(t, w, s, step);
      if s' != s { ClimbOpen(t, w, s, p, s'.prods[p]); }
    case Deposit(p) =>
      if Running(w, s, p) && s.prods[p].push == InFlight(t.root) { DepositOpen(t, w, s, p); }
    case Mark(p) =>
      if Running(w, s, p) && s.prods[p].push == Deposited { MarkOpen(t, w, s, p); }
    case Pop(max) => PopOpen(t, w, s, max);
    case Check =>
      if s.fan.path == [] && s.buf.Final() { CheckCloses(t, w, s); }
    case Cancel =>
      assert forall k :: 0 <= k < |s.delivered| ==> (s.delivered + s.buf.q)[k] == s.delivered[k];
  }

  // Once the request is gone nothing more is delivered and the finished stay finished.
  lemma ApplyClosed<R>(t: Topology, w: Work<R>, s: Net<R>, step: Step)
    requires Shape(t, w, s) && ClosedOk(t, w, s) && s.Concluded()
    ensures var s' := Apply(t, w, s, step);
      ClosedOk(t, w, s') && s'.Concluded() && s'.delivered == s.delivered && s'.lost == s.lost && s'.fan == s.fan
  {
    var s' := Apply(t, w, s, step);
    forall q | q in s'.prods && q in w && q !in s'.fan.rejected ensures Complete(w, s', q) {
      assert Complete(w, s, q);
    }
  }

  // Nor once it is canceled, whether or not a fetch has seen it yet.
  lemma ApplyCanceled<R>(t: Topology, w: Work<R>, s: Net<R>, step: Step)
    requires CanceledOk(t, s) && s.buf.canceled
    ensures var s' := Apply(t, w, s, step);
      && CanceledOk(t, s') && s'.buf.canceled && (!s.open ==> !s'.open)
      && s'.delivered == s.delivered && s'.lost == s.lost && s'.fan == s.fan
  {}

  lemma ApplyInv<R>(t: Topology, w: Work<R>, s: Net<R>, step: Step)
    requires NetInv(t, w, s)
    ensures NetInv(t, w, Apply(t, w, s, step))
  {
    ApplyShape(t, w, s, step);
    if s.buf.canceled {
      ApplyCanceled(t, w, s, step);
    } else if s.open {
      ApplyOpen(t, w, s, step);
    } else {
      ApplyClosed(t, w, s, step);
    }
  }

  // Only an open and uncanceled request delivers: a step out of that, or taken after it,
  // leaves what was delivered and what was lost alone.
  lemma ClosingDelivers<R>(t: Topology, w: Work<R>, s: Net<R>, step: Step)
    requires NetInv(t, w, s)
    ensures var s' := Apply(t, w, s, step);
      !s'.Live() ==> s'.delivered == s.delivered && s'.lost == s.lost
    ensures !s.open ==> !Apply(t, w, s, step).open && Apply(t, w, s, step).fan == s.fan
  {
    if s.buf.canceled {
      ApplyCanceled(t, w, s, step);
    } else if !s.open {
      ApplyClosed(t, w, s, step);
    } else {
      hide NetInv, FanStep;
    }
  }

  // Every state of every interleaving keeps the invariant.
  lemma {:induction false} EveryRunInv<R>(t: Topology, w: Work<R>, capacity: nat, steps: seq<Step>)
    requires t.Valid() && Works(t, w)
    ensures NetInv(t, w, Run(t, w, Start(t, capacity), steps))
    decreases |steps|
  {
    if steps == [] {
      StartInv(t, w, capacity);
    } else {
      EveryRunInv(t, w, capacity, steps[..|steps| - 1]);
      ApplyInv(t, w, Run(t, w, Start(t, capacity), steps[..|steps| - 1]), steps[|steps| - 1]);
    }
  }
}
