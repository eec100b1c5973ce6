// One forwarded request served by the whole system, beside any others at the portal: its
// delivery and the portal's own record of it go through the same states.

module Services {
  import opened Options
  import opened Rows
  import ChunkBuffers
  import opened Overlay
  import opened Delivery
  import opened Schedules
  import opened EndToEnd
  import Recency
  import Q = QueryCaches
  import P = PortalCache
  import PortalTheorems

  // The request's delivery, the portal's requests and cache, and how the request ended.
  datatype Service = Service(net: Net<Row>, portal: P.Portal, end: Option<P.Ended>)

  // A fetch is Pop, then See (it reads the canceled flag), then Check (it reads finality);
  // anything may happen in between, a cancel of the request too.
  datatype ServiceStep = OfRequest(step: Step) | See | OfOthers(other: P.PortalStep)

  // The neighbour a step of the fan-out makes the portal mark done.
  function EarlyMark(t: Topology, f: Fan): Option<Node> {
    if Ready(t, f) && Last(f.path) == t.root && f.next[t.root] < |t.peers[t.root]|
       && FanStep(t, f).rejected != f.rejected
    then Some(t.peers[t.root][f.next[t.root]]) else None
  }

  function DoIf(l: P.Limits, s: P.Portal, enabled: bool, step: P.PortalStep): P.Portal {
    if enabled then P.ApplyStep(l, s, step) else s
  }

  // Each step of the delivery with what it does at the portal. Fetches of the request
  // follow each other; the others' steps are any.
  function Serve(t: Topology, w: Work<Row>, l: P.Limits, rid: string, b: Service, step: ServiceStep): Service {
    match step
    case OfOthers(other) => b.(portal := DoIf(l, b.portal, other.rid != rid, other))
    case See => b.(portal := P.ApplyStep(l, b.portal, P.SeeCanceled(rid)))
    case OfRequest(s) =>
      var n := Apply(t, w, b.net, s);
      match s
      case FanOutStep =>
        var mark := EarlyMark(t, b.net.fan);
        b.(net := n, portal := if mark.Some? then P.ApplyStep(l, b.portal, P.MarkDone(rid, mark.value)) else b.portal)
      case Begin(_) => b.(net := n)
      case Hop(_) => b.(net := n)
      case Deposit(p) => b.(net := n, portal := Arrives(t, w, l, rid, b, p))
      case Mark(p) =>
        b.(net := n,
           portal := DoIf(l, b.portal, Running(w, b.net, p) && b.net.prods[p].push == Deposited, P.MarkDone(rid, p)))
      case Pop(max) =>
        if b.net.fan.path == [] && rid in b.portal.reqs && b.portal.reqs[rid].phase.NotFetching? then
          b.(net := n, portal := P.ApplyStep(l, b.portal, P.Drain(rid, max)))
        else b
      case Check =>
        if b.net.fan.path == [] && rid in b.portal.reqs && b.portal.reqs[rid].phase.Saw? then
          Finished(l, rid, b.(net := n))
        else b
      case Cancel =>
        b.(net := n, portal := DoIf(l, b.portal, b.net.fan.path == [], P.CancelRequest(rid)))
  }

  // A chunk at the portal: taken, or refused for a canceled request, which leaves the
  // portal's own scan to mark itself done.
  function Arrives(t: Topology, w: Work<Row>, l: P.Limits, rid: string, b: Service, p: Node): P.Portal {
    if !b.net.open || !Running(w, b.net, p) || b.net.prods[p].push != InFlight(t.root) then b.portal
    else if !b.net.buf.canceled then P.ApplyStep(l, b.portal, P.Deposit(rid, w[p][b.net.prods[p].sent].rows))
    else DoIf(l, b.portal, p == t.root, P.MarkDone(rid, p))
  }

  function Finished(l: P.Limits, rid: string, b: Service): Service {
    if rid in b.portal.reqs && b.portal.reqs[rid].phase.Saw? && b.portal.reqs[rid].buf.Final() then
      b.(portal := P.ApplyStep(l, b.portal, P.Finish(rid)), end := Some(P.EndOf(l, b.portal.reqs[rid])))
    else b.(portal := P.ApplyStep(l, b.portal, P.Finish(rid)))
  }

  function RunService(t: Topology, w: Work<Row>, l: P.Limits, rid: string, b: Service, steps: seq<ServiceStep>)
    : Service
  {
    if steps == [] then b
    else Serve(t, w, l, rid, RunService(t, w, l, rid, b, steps[..|steps| - 1]), steps[|steps| - 1])
  }

  // After any history of the portal: a new id, and a spec not in the cache.
  ghost predicate Misses(l: P.Limits, history: seq<P.PortalStep>, rid: string, spec: Spec) {
    var s := P.RunPortal(l, P.EmptyPortal(), history);
    rid !in s.reqs && (l.entries == 0 || Recency.Lookup(s.items, Q.Key(spec)).None?)
  }

  ghost function Opening(t: Topology, l: P.Limits, history: seq<P.PortalStep>, rid: string, spec: Spec): Service {
    Service(Start(t, l.bufferRows),
      P.ApplyStep(l, P.RunPortal(l, P.EmptyPortal(), history), P.Submit(rid, spec, |t.peers.Keys|)), None)
  }

  // ---- the portal's view of the request is the delivery's ----

  ghost predicate SameBuf(a: ChunkBuffers.Buf<Row>, n: ChunkBuffers.Buf<Tagged<Row>>) {
    && a.capacity == n.capacity && a.expected == n.expected && a.done == n.done
    && a.q == Untag(n.q) && a.canceled == n.canceled
  }

  ghost predicate SameReq(spec: Spec, r: P.Req, n: Net<Row>) {
    SameBuf(r.buf, n.buf) && r.delivered == Untag(n.delivered) && r.spec == spec && r.hit.None?
  }

  ghost predicate SameEnd(l: P.Limits, spec: Spec, e: P.Ended, n: Net<Row>) {
    && e.key == Q.Key(spec) && e.hit.None? && e.delivered == Untag(n.delivered)
    && e.canceled == n.buf.canceled && (e.reported ==> e.canceled)
    && (e.stored <==> !e.reported && |e.delivered| <= l.entryRows && l.entries > 0)
  }

  ghost predicate Mirrors(l: P.Limits, rid: string, spec: Spec, b: Service) {
    && P.PortalInv(l, b.portal)
    && if b.net.open then rid in b.portal.reqs && SameReq(spec, b.portal.reqs[rid], b.net) && b.end.None?
       else
         && rid !in b.portal.reqs && b.end.Some?
         && b.end.value in b.portal.ended && SameEnd(l, spec, b.end.value, b.net)
  }

  lemma UntagConcat(a: seq<Tagged<Row>>, c: seq<Tagged<Row>>)
    ensures Untag(a + c) == Untag(a) + Untag(c)
  {}

  lemma UntagSlices(a: seq<Tagged<Row>>, n: nat)
    requires n <= |a|
    ensures Untag(a[..n]) == Untag(a)[..n] && Untag(a[n..]) == Untag(a)[n..]
  {}

  lemma UntagTag(p: Node, rows: seq<Row>, n: nat)
    requires n <= |rows|
    ensures Untag(Tag(p, rows)[..n]) == rows[..n]
  {}

  lemma MarksOne(t: Topology, f: Fan)
    ensures var mark := EarlyMark(t, f);
      FanStep(t, f).rejected - f.rejected == if mark.Some? then {mark.value} else {}
  {}

  lemma SameDrain(l: P.Limits, spec: Spec, r: P.Req, n: Net<Row>, max: nat)
    requires SameReq(spec, r, n) && n.open && n.fan.path == []
    ensures var k := ChunkBuffers.Min(max, |n.buf.q|);
      SameReq(spec, P.DrainedReq(l, r, max), n.(buf := n.buf.Pop(max), delivered := n.delivered + n.buf.q[..k]))
  {
    var k := ChunkBuffers.Min(max, |n.buf.q|);
    UntagSlices(n.buf.q, k);
    UntagConcat(n.delivered, n.buf.q[..k]);
  }

  lemma SameDeposit(spec: Spec, r: P.Req, n: Net<Row>, p: Node, rows: seq<Row>)
    requires SameReq(spec, r, n)
    ensures SameReq(spec, P.PushedReq(r, rows), n.(buf := n.buf.Push(Tag(p, rows))))
  {
    var k := n.buf.Room(|rows|);
    UntagTag(p, rows, k);
    UntagConcat(n.buf.q, Tag(p, rows)[..k]);
  }

  lemma SameMark(spec: Spec, r: P.Req, n: Net<Row>, p: Node)
    requires SameReq(spec, r, n)
    ensures SameReq(spec, r.(buf := r.buf.MarkDone(p)), n.(buf := n.buf.MarkDone(p)))
  {}

  // Only the buffer, what is delivered, and whether the request is open concern the portal.
  lemma SameView(spec: Spec, r: P.Req, n: Net<Row>, n': Net<Row>)
    requires SameReq(spec, r, n) && n'.buf == n.buf && n'.delivered == n.delivered
    ensures SameReq(spec, r, n')
  {}

  lemma SameCancel(spec: Spec, r: P.Req, n: Net<Row>)
    requires SameReq(spec, r, n)
    ensures SameReq(spec, P.CanceledReq(r), n.(buf := n.buf.Cancel()))
  {}

  lemma SameFinal(a: ChunkBuffers.Buf<Row>, n: ChunkBuffers.Buf<Tagged<Row>>)
    requires SameBuf(a, n)
    ensures a.Final() <==> n.Final()
  {
    assert |Untag(n.q)| == |n.q|;
  }

  lemma FinishMirrors(l: P.Limits, rid: string, spec: Spec, b: Service)
    requires Mirrors(l, rid, spec, b) && b.net.open && rid in b.portal.reqs && b.portal.reqs[rid].phase.Saw?
    ensures var n := if b.net.buf.Final() then b.net.(open := false) else b.net;
      Mirrors(l, rid, spec, Finished(l, rid, b.(net := n)))
  {
    P.ApplyStepInv(l, b.portal, P.Finish(rid));
    var r := b.portal.reqs[rid];
    assert P.ReqOk(l, b.portal.ended, r);
    SameFinal(r.buf, b.net.buf);
  }

  lemma OthersMirror(l: P.Limits, rid: string, spec: Spec, b: Service, other: P.PortalStep)
    requires Mirrors(l, rid, spec, b) && other.rid != rid
    ensures Mirrors(l, rid, spec, b.(portal := P.ApplyStep(l, b.portal, other)))
  {
    hide P.PortalInv, P.ApplyStep, SameReq, SameEnd;
    P.ApplyStepInv(l, b.portal, other);
    PortalTheorems.OthersApart(l, b.portal, rid, other);
  }

  lemma FetchMirrors(t: Topology, w: Work<Row>, l: P.Limits, rid: string, spec: Spec, b: Service, step: ServiceStep)
    requires Mirrors(l, rid, spec, b) && (step.See? || (step.OfRequest? && (step.step.Pop? || step.step.Check?)))
    ensures Mirrors(l, rid, spec, Serve(t, w, l, rid, b, step))
  {
    hide P.PortalInv, SameEnd, FanStep, P.EndOf;
    if step.See? {
      P.ApplyStepInv(l, b.portal, P.SeeCanceled(rid));
    } else if step.step.Pop? {
      P.ApplyStepInv(l, b.portal, P.Drain(rid, step.step.max));
      if b.net.open && b.net.fan.path == [] { SameDrain(l, spec, b.portal.reqs[rid], b.net, step.step.max); }
    } else if b.net.open && b.net.fan.path == [] && b.portal.reqs[rid].phase.Saw? {
      FinishMirrors(l, rid, spec, b);
    }
  }

  // A step that leaves the portal's view of the request alone.
  lemma StillMirrors(l: P.Limits, rid: string, spec: Spec, b: Service, n: Net<Row>)
    requires Mirrors(l, rid, spec, b)
    requires n.open == b.net.open && n.delivered == b.net.delivered && n.buf.canceled == b.net.buf.canceled
    requires n.open ==> n.buf == b.net.buf
    ensures Mirrors(l, rid, spec, b.(net := n))
  {
    if n.open { SameView(spec, b.portal.reqs[rid], b.net, n); }
  }

  // A push, a mark or a cancel done on both sides.
  lemma PortalMirrors(l: P.Limits, rid: string, spec: Spec, b: Service, n: Net<Row>, step: P.PortalStep)
    requires Mirrors(l, rid, spec, b) && n.open == b.net.open && n.delivered == b.net.delivered
    requires step.rid == rid && (step.Deposit? || step.MarkDone? || step.CancelRequest?)
    requires !n.open ==> n.buf.canceled == b.net.buf.canceled
    requires n.open ==>
      rid in P.ApplyStep(l, b.portal, step).reqs && SameReq(spec, P.ApplyStep(l, b.portal, step).reqs[rid], n)
    ensures Mirrors(l, rid, spec, b.(net := n, portal := P.ApplyStep(l, b.portal, step)))
  {
    hide P.PortalInv, SameReq;
    P.ApplyStepInv(l, b.portal, step);
  }

  lemma MarkMirrors(l: P.Limits, rid: string, spec: Spec, b: Service, n: Net<Row>, p: Node)
    requires Mirrors(l, rid, spec, b) && n.open == b.net.open && n.delivered == b.net.delivered
    requires n.buf.canceled == b.net.buf.canceled && (n.open ==> n.buf == b.net.buf.MarkDone(p))
    ensures Mirrors(l, rid, spec, b.(net := n, portal := P.ApplyStep(l, b.portal, P.MarkDone(rid, p))))
  {
    if n.open {
      var r := b.portal.reqs[rid];
      SameMark(spec, r, b.net, p);
      SameView(spec, r.(buf := r.buf.MarkDone(p)), b.net.(buf := b.net.buf.MarkDone(p)), n);
    }
    PortalMirrors(l, rid, spec, b, n, P.MarkDone(rid, p));
  }

  lemma DepositMirrors(l: P.Limits, rid: string, spec: Spec, b: Service, n: Net<Row>, p: Node, rows: seq<Row>)
    requires Mirrors(l, rid, spec, b) && b.net.open && n.open && n.delivered == b.net.delivered
    requires n.buf == b.net.buf.Push(Tag(p, rows))
    ensures Mirrors(l, rid, spec, b.(net := n, portal := P.ApplyStep(l, b.portal, P.Deposit(rid, rows))))
  {
    var r := b.portal.reqs[rid];
    SameDeposit(spec, r, b.net, p, rows);
    SameView(spec, P.PushedReq(r, rows), b.net.(buf := b.net.buf.Push(Tag(p, rows))), n);
    PortalMirrors(l, rid, spec, b, n, P.Deposit(rid, rows));
  }

  lemma FanOutMirrors(t: Topology, w: Work<Row>, l: P.Limits, rid: string, spec: Spec, b: Service)
    requires Mirrors(l, rid, spec, b)
    ensures Mirrors(l, rid, spec, Serve(t, w, l, rid, b, OfRequest(FanOutStep)))
  {
    hide FanStep, EarlyMark, Mirrors, P.ApplyStep;
    MarksOne(t, b.net.fan);
    var mark, n := EarlyMark(t, b.net.fan), Apply(t, w, b.net, FanOutStep);
    if mark.Some? {
      MarkMirrors(l, rid, spec, b, n, mark.value);
    } else {
      assert n.buf.done == b.net.buf.done;
      StillMirrors(l, rid, spec, b, n);
    }
  }

  lemma ArrivesMirrors(t: Topology, w: Work<Row>, l: P.Limits, rid: string, spec: Spec, b: Service, p: Node)
    requires Mirrors(l, rid, spec, b)
    ensures Mirrors(l, rid, spec, Serve(t, w, l, rid, b, OfRequest(Deposit(p))))
  {
    hide FanStep, Mirrors, P.ApplyStep, Tag;
    var n := Apply(t, w, b.net, Deposit(p));
    if !b.net.open || !Running(w, b.net, p) || b.net.prods[p].push != InFlight(t.root) {
      StillMirrors(l, rid, spec, b, n);
    } else if !b.net.buf.canceled {
      DepositMirrors(l, rid, spec, b, n, p, w[p][b.net.prods[p].sent].rows);
    } else if p == t.root {
      MarkMirrors(l, rid, spec, b, n, p);
    } else {
      StillMirrors(l, rid, spec, b, n);
    }
  }

  lemma CancelMirrors(t: Topology, w: Work<Row>, l: P.Limits, rid: string, spec: Spec, b: Service)
    requires Mirrors(l, rid, spec, b)
    ensures Mirrors(l, rid, spec, Serve(t, w, l, rid, b, OfRequest(Cancel)))
  {
    hide P.PortalInv, FanStep;
    if b.net.fan.path == [] {
      var n := Apply(t, w, b.net, Cancel);
      if b.net.open { SameCancel(spec, b.portal.reqs[rid], b.net); }
      PortalMirrors(l, rid, spec, b, n, P.CancelRequest(rid));
    }
  }

  lemma PushMirrors(t: Topology, w: Work<Row>, l: P.Limits, rid: string, spec: Spec, b: Service, step: Step)
    requires Mirrors(l, rid, spec, b) && !step.Pop? && !step.Check?
    ensures Mirrors(l, rid, spec, Serve(t, w, l, rid, b, OfRequest(step)))
  {
    hide FanStep, Mirrors, P.ApplyStep, Tag;
    var n := Apply(t, w, b.net, step);
    match step
    case FanOutStep => FanOutMirrors(t, w, l, rid, spec, b);
    case Begin(_) => StillMirrors(l, rid, spec, b, n);
    case Hop(_) => StillMirrors(l, rid, spec, b, n);
    case Deposit(p) => ArrivesMirrors(t, w, l, rid, spec, b, p);
    case Cancel => CancelMirrors(t, w, l, rid, spec, b);
    case Mark(p) =>
      if Running(w, b.net, p) && b.net.prods[p].push == Deposited {
        MarkMirrors(l, rid, spec, b, n, p);
      } else {
        StillMirrors(l, rid, spec, b, n);
      }
  }

  lemma {:induction false} EveryServiceMirrors(
    t: Topology, w: Work<Row>, l: P.Limits, rid: string, spec: Spec, history: seq<P.PortalStep>,
    steps: seq<ServiceStep>)
    requires Misses(l, history, rid, spec)
    ensures Mirrors(l, rid, spec, RunService(t, w, l, rid, Opening(t, l, history, rid, spec), steps))
    decreases |steps|
  {
    if steps == [] {
      OpeningMirrors(t, l, rid, spec, history);
    } else {
      var b := RunService(t, w, l, rid, Opening(t, l, history, rid, spec), steps[..|steps| - 1]);
      EveryServiceMirrors(t, w, l, rid, spec, history, steps[..|steps| - 1]);
      ServeMirrors(t, w, l, rid, spec, b, steps[|steps| - 1]);
    }
  }

  lemma ServeMirrors(t: Topology, w: Work<Row>, l: P.Limits, rid: string, spec: Spec, b: Service, step: ServiceStep)
    requires Mirrors(l, rid, spec, b)
    ensures Mirrors(l, rid, spec, Serve(t, w, l, rid, b, step))
  {
    match step
    case OfOthers(other) => if other.rid != rid { OthersMirror(l, rid, spec, b, other); }
    case See => FetchMirrors(t, w, l, rid, spec, b, step);
    case OfRequest(s) =>
      if s.Pop? || s.Check? {
        FetchMirrors(t, w, l, rid, spec, b, step);
      } else {
        PushMirrors(t, w, l, rid, spec, b, s);
      }
  }

  lemma OpeningMirrors(t: Topology, l: P.Limits, rid: string, spec: Spec, history: seq<P.PortalStep>)
    requires Misses(l, history, rid, spec)
    ensures Mirrors(l, rid, spec, Opening(t, l, history, rid, spec))
  {
    P.EveryRunKeeps(l, history);
    P.ApplyStepInv(l, P.RunPortal(l, P.EmptyPortal(), history), P.Submit(rid, spec, |t.peers.Keys|));
  }

  // ---- the delivery of a served request is a run of the delivery ----

  lemma {:induction false} NetIsRun(
    t: Topology, w: Work<Row>, l: P.Limits, rid: string, b: Service, steps: seq<ServiceStep>)
    returns (net: seq<Step>)
    ensures RunService(t, w, l, rid, b, steps).net == Run(t, w, b.net, net)
    decreases |steps|
  {
    if steps == [] {
      net := [];
    } else {
      var init := NetIsRun(t, w, l, rid, b, steps[..|steps| - 1]);
      var b1 := RunService(t, w, l, rid, b, steps[..|steps| - 1]);
      var step := steps[|steps| - 1];
      if step.OfRequest? && Serve(t, w, l, rid, b1, step).net == Apply(t, w, b1.net, step.step) {
        net := init + [step.step];
        assert net[..|net| - 1] == init;
      } else {
        net := init;
        ServeNet(t, w, l, rid, b1, step);
      }
    }
  }

  lemma ServeNet(t: Topology, w: Work<Row>, l: P.Limits, rid: string, b: Service, step: ServiceStep)
    ensures var n := Serve(t, w, l, rid, b, step).net;
      n == b.net || (step.OfRequest? && n == Apply(t, w, b.net, step.step))
  {
    hide Apply, P.ApplyStep;
  }

  // And a schedule of the delivery whose fetches follow each other can be served.
  function Served(steps: seq<Step>): (s: seq<ServiceStep>)
    ensures |s| == |steps| && forall i :: 0 <= i < |s| ==> s[i] == OfRequest(steps[i])
  {
    seq(|steps|, i requires 0 <= i < |steps| => OfRequest(steps[i]))
  }

  // With each fetch reading the canceled flag just before finality.
  function ServedFetches(m: nat, n: nat): seq<ServiceStep> {
    if n == 0 then [] else Fetch(m) + ServedFetches(m, n - 1)
  }

  function Fetch(m: nat): seq<ServiceStep> { [OfRequest(Pop(m)), See, OfRequest(Check)] }

  ghost predicate BetweenFetches(rid: string, b: Service) {
    b.net.open ==> rid in b.portal.reqs && b.portal.reqs[rid].phase.NotFetching?
  }

  lemma {:induction false} ServicesConcat(
    t: Topology, w: Work<Row>, l: P.Limits, rid: string, b: Service, a: seq<ServiceStep>, c: seq<ServiceStep>)
    ensures RunService(t, w, l, rid, b, a + c) == RunService(t, w, l, rid, RunService(t, w, l, rid, b, a), c)
    decreases |c|
  {
    if c == [] {
      assert a + c == a;
    } else {
      assert (a + c)[..|a + c| - 1] == a + c[..|c| - 1];
      ServicesConcat(t, w, l, rid, b, a, c[..|c| - 1]);
    }
  }

  lemma ServeOne(t: Topology, w: Work<Row>, l: P.Limits, rid: string, b: Service, step: ServiceStep)
    ensures RunService(t, w, l, rid, b, [step]) == Serve(t, w, l, rid, b, step)
  {
    hide Serve;
    assert [step][..0] == [];
    assert RunService(t, w, l, rid, b, []) == b;
  }

  // No step but a fetch moves the request's fetching on.
  lemma PushStays(t: Topology, w: Work<Row>, l: P.Limits, rid: string, spec: Spec, b: Service, step: Step)
    requires Mirrors(l, rid, spec, b) && BetweenFetches(rid, b) && !step.Pop? && !step.Check? && !step.Cancel?
    ensures var b' := Serve(t, w, l, rid, b, OfRequest(step));
      BetweenFetches(rid, b') && b'.net == Apply(t, w, b.net, step)
  {
    hide FanStep, EarlyMark, P.PortalInv, Mirrors;
    assert b.net.open == Apply(t, w, b.net, step).open;
  }

  lemma {:induction false} PushesServed(
    t: Topology, w: Work<Row>, l: P.Limits, rid: string, spec: Spec, b: Service, steps: seq<Step>)
    requires Mirrors(l, rid, spec, b) && BetweenFetches(rid, b) && NoFetch(steps)
    ensures var b' := RunService(t, w, l, rid, b, Served(steps));
      Mirrors(l, rid, spec, b') && BetweenFetches(rid, b') && b'.net == Run(t, w, b.net, steps)
    decreases |steps|
  {
    hide Mirrors, Serve, Apply, BetweenFetches;
    if steps != [] {
      var init, step := steps[..|steps| - 1], steps[|steps| - 1];
      PushesServed(t, w, l, rid, spec, b, init);
      var b1 := RunService(t, w, l, rid, b, Served(init));
      assert Served(steps)[..|steps| - 1] == Served(init);
      PushStays(t, w, l, rid, spec, b1, step);
      ServeMirrors(t, w, l, rid, spec, b1, OfRequest(step));
    }
  }

  // A fetch in progress, of a request it can end.
  ghost predicate InFetch(rid: string, b: Service, phase: P.Phase) {
    b.net.open && b.net.fan.path == [] && rid in b.portal.reqs && b.portal.reqs[rid].phase == phase
  }

  lemma PopServed(t: Topology, w: Work<Row>, l: P.Limits, rid: string, spec: Spec, b: Service, m: nat)
    requires Mirrors(l, rid, spec, b) && InFetch(rid, b, P.NotFetching)
    ensures var b' := Serve(t, w, l, rid, b, OfRequest(Pop(m)));
      InFetch(rid, b', P.Drained) && b'.net == Apply(t, w, b.net, Pop(m))
  {
    hide P.PortalInv, SameReq, SameEnd, FanStep;
  }

  lemma SeeServed(t: Topology, w: Work<Row>, l: P.Limits, rid: string, spec: Spec, b: Service)
    requires Mirrors(l, rid, spec, b) && InFetch(rid, b, P.Drained)
    ensures var b' := Serve(t, w, l, rid, b, See);
      InFetch(rid, b', P.Saw(b.net.buf.canceled)) && b'.net == b.net
  {
    hide P.PortalInv, SameEnd, FanStep;
  }

  lemma CheckServed(t: Topology, w: Work<Row>, l: P.Limits, rid: string, spec: Spec, b: Service, saw: bool)
    requires Mirrors(l, rid, spec, b) && InFetch(rid, b, P.Saw(saw))
    ensures var b' := Serve(t, w, l, rid, b, OfRequest(Check));
      && BetweenFetches(rid, b') && b'.net == Apply(t, w, b.net, Check)
      && (b.net.buf.Final() ==> b'.end.Some? && b'.end.value.reported == saw)
  {
    hide P.PortalInv, SameEnd, FanStep;
    SameFinal(b.portal.reqs[rid].buf, b.net.buf);
  }

  lemma CancelServed(t: Topology, w: Work<Row>, l: P.Limits, rid: string, spec: Spec, b: Service, phase: P.Phase)
    requires Mirrors(l, rid, spec, b) && InFetch(rid, b, phase)
    ensures var b' := Serve(t, w, l, rid, b, OfRequest(Cancel));
      InFetch(rid, b', phase) && b'.net == Apply(t, w, b.net, Cancel)
  {
    hide P.PortalInv, SameReq, SameEnd, FanStep;
  }

  // A fetch that cannot be one of this request's changes nothing.
  lemma FetchIdle(t: Topology, w: Work<Row>, l: P.Limits, rid: string, spec: Spec, b: Service, m: nat)
    requires Mirrors(l, rid, spec, b) && BetweenFetches(rid, b) && (!b.net.open || b.net.fan.path != [])
    ensures Serve(t, w, l, rid, b, OfRequest(Pop(m))) == b
    ensures Serve(t, w, l, rid, b, See) == b && Serve(t, w, l, rid, b, OfRequest(Check)) == b
    ensures Apply(t, w, b.net, Pop(m)) == b.net && Apply(t, w, b.net, Check) == b.net
  {
    hide P.PortalInv, SameReq, SameEnd, FanStep;
  }

  lemma FetchServed(t: Topology, w: Work<Row>, l: P.Limits, rid: string, spec: Spec, b: Service, m: nat)
    requires Mirrors(l, rid, spec, b) && BetweenFetches(rid, b)
    ensures var b' := RunService(t, w, l, rid, b, Fetch(m));
      && Mirrors(l, rid, spec, b') && BetweenFetches(rid, b')
      && b'.net == Apply(t, w, Apply(t, w, b.net, Pop(m)), Check)
  {
    hide Mirrors, Serve, Apply;
    var b1 := Serve(t, w, l, rid, b, OfRequest(Pop(m)));
    var b2 := Serve(t, w, l, rid, b1, See);
    FetchRuns(t, w, l, rid, b, m);
    if b.net.open && b.net.fan.path == [] {
      ServeMirrors(t, w, l, rid, spec, b, OfRequest(Pop(m)));
      PopServed(t, w, l, rid, spec, b, m);
      ServeMirrors(t, w, l, rid, spec, b1, See);
      SeeServed(t, w, l, rid, spec, b1);
      ServeMirrors(t, w, l, rid, spec, b2, OfRequest(Check));
      CheckServed(t, w, l, rid, spec, b2, b1.net.buf.canceled);
    } else {
      FetchIdle(t, w, l, rid, spec, b, m);
    }
  }

  lemma FetchRuns(t: Topology, w: Work<Row>, l: P.Limits, rid: string, b: Service, m: nat)
    ensures RunService(t, w, l, rid, b, Fetch(m))
      == Serve(t, w, l, rid, Serve(t, w, l, rid, Serve(t, w, l, rid, b, OfRequest(Pop(m))), See), OfRequest(Check))
  {
    hide Serve;
    var steps := Fetch(m);
    assert steps[..2] == [OfRequest(Pop(m)), See] && steps[..2][..1] == [OfRequest(Pop(m))];
    ServeOne(t, w, l, rid, b, OfRequest(Pop(m)));
    assert RunService(t, w, l, rid, b, steps[..2])
        == Serve(t, w, l, rid, Serve(t, w, l, rid, b, OfRequest(Pop(m))), See);
  }

  lemma {:induction false} FetchesServed(
    t: Topology, w: Work<Row>, l: P.Limits, rid: string, spec: Spec, b: Service, m: nat, n: nat)
    requires Mirrors(l, rid, spec, b) && BetweenFetches(rid, b)
    ensures RunService(t, w, l, rid, b, ServedFetches(m, n)).net == Run(t, w, b.net, Fetches(m, n))
    decreases n
  {
    hide Mirrors, Serve, Apply, BetweenFetches, Fetch;
    if n > 0 {
      FetchServed(t, w, l, rid, spec, b, m);
      var b1 := RunService(t, w, l, rid, b, Fetch(m));
      FetchesServed(t, w, l, rid, spec, b1, m, n - 1);
      ServicesConcat(t, w, l, rid, b, Fetch(m), ServedFetches(m, n - 1));
      FetchOnce(t, w, b.net, m);
      RunConcat(t, w, b.net, [Pop(m), Check], Fetches(m, n - 1));
    }
  }

  lemma ScheduleServed(
    t: Topology, w: Work<Row>, l: P.Limits, rid: string, spec: Spec, b: Service, pushes: seq<Step>, m: nat, n: nat)
    requires Mirrors(l, rid, spec, b) && BetweenFetches(rid, b) && NoFetch(pushes)
    ensures RunService(t, w, l, rid, b, Served(pushes) + ServedFetches(m, n)).net
      == Run(t, w, b.net, pushes + Fetches(m, n))
  {
    hide Mirrors, Serve, Apply, BetweenFetches;
    PushesServed(t, w, l, rid, spec, b, pushes);
    FetchesServed(t, w, l, rid, spec, RunService(t, w, l, rid, b, Served(pushes)), m, n);
    ServicesConcat(t, w, l, rid, b, Served(pushes), ServedFetches(m, n));
    RunConcat(t, w, b.net, pushes, Fetches(m, n));
  }
}
