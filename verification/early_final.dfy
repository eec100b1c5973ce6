// What "final" is worth: when a request can end at all, when it ends with every row, and
// how few rows it can end with.

module EarlyFinal {
  import Lists
  import opened Rows
  import ChunkBuffers
  import opened Overlay
  import opened OverlayTheorems
  import opened Rejections
  import opened Delivery
  import opened DeliveryTheorems
  import opened Schedules

  // ---- which producers an ended run was without ----

  // Only its own steps move the fan-out.
  lemma FanMoves<R>(t: Topology, w: Work<R>, s: Net<R>, step: Step)
    ensures Apply(t, w, s, step).fan == if step.FanOutStep? then FanStep(t, s.fan) else s.fan
  {
    hide FanStep;
  }

  lemma {:induction false} EveryRunOrdered<R>(t: Topology, w: Work<R>, capacity: nat, steps: seq<Step>)
    requires t.Valid() && Works(t, w)
    ensures Ordered(t, Run(t, w, Start(t, capacity), steps).fan)
    decreases |steps|
  {
    hide Apply, FanStep, Ordered, FanInv, Standing;
    if steps == [] {
      SubmittedOrdered(t);
    } else {
      var init := steps[..|steps| - 1];
      EveryRunOrdered(t, w, capacity, init);
      EveryRunInv(t, w, capacity, init);
      var s := Run(t, w, Start(t, capacity), init);
      StepOrdered(t, s.fan);
      FanMoves(t, w, s, steps[|steps| - 1]);
    }
  }

  // Every run that ends has rejected exactly the neighbours marked early.
  lemma FinalRejects<R>(t: Topology, w: Work<R>, capacity: nat, steps: seq<Step>, n: Node)
    requires t.Valid() && Works(t, w) && !Run(t, w, Start(t, capacity), steps).open
    ensures n in Run(t, w, Start(t, capacity), steps).fan.rejected <==> MarkedEarly(t, n)
  {
    EveryRunInv(t, w, capacity, steps);
    EveryRunOrdered(t, w, capacity, steps);
    RejectedExactly(t, Run(t, w, Start(t, capacity), steps).fan, n);
  }

  // ---- when a request can end ----

  // Some schedule ends a request on a connected overlay, even one whose client fetches
  // nothing before the end, and so gets no more rows than the buffer holds.
  lemma FinalIsReachable<R>(t: Topology, w: Work<R>, capacity: nat, m: nat) returns (steps: seq<Step>)
    requires t.Valid() && Works(t, w) && Spans(t) && m > 0
    ensures var s := Run(t, w, Start(t, capacity), steps); s.Concluded() && |s.delivered| <= capacity
  {
    SubmittedInv(t);
    var k := FanOutEnds(t, Submitted(t));
    var pushes, n := FinalWithout(t, w, capacity, k, {}, m);
    steps := pushes + Fetches(m, n);
    EveryRunFits(t, w, capacity, pushes);
  }

  // A request that ended uncanceled has reached every configured node.
  lemma EndedSpans<R>(t: Topology, w: Work<R>, capacity: nat, steps: seq<Step>)
    requires t.Valid() && Works(t, w) && Run(t, w, Start(t, capacity), steps).Concluded()
    ensures Spans(t)
  {
    EveryRunInv(t, w, capacity, steps);
    var s := Run(t, w, Start(t, capacity), steps);
    forall p | p in t.peers ensures Connected(t, t.root, p) {
      if p in s.fan.rejected {
        assert Refused(t, s.fan, p);
      } else {
        assert Complete(w, s, p) && ProducerOk(t, w, s, p) && Framed(w[p]);
        assert Scans(t, s.fan, p);
      }
      ReachesExactlyConnected(t, s.fan, p);
    }
  }

  // Without a cancel some run ends if and only if the overlay joins every configured node
  // to the portal: one unconnected node keeps every request from ending by itself.
  lemma EndsIffSpans<R>(t: Topology, w: Work<R>, capacity: nat)
    requires t.Valid() && Works(t, w)
    ensures (exists steps :: Run(t, w, Start(t, capacity), steps).Concluded()) <==> Spans(t)
  {
    if Spans(t) {
      var steps := FinalIsReachable(t, w, capacity, 1);
    }
    if steps :| Run(t, w, Start(t, capacity), steps).Concluded() {
      EndedSpans(t, w, capacity, steps);
    }
  }

  // A cancel ends a request on any overlay.
  lemma CancelEnds<R>(t: Topology, w: Work<R>, capacity: nat) returns (steps: seq<Step>)
    requires t.Valid() && Works(t, w)
    ensures var s := Run(t, w, Start(t, capacity), steps); !s.open && s.buf.canceled
  {
    hide FanStep;
    SubmittedInv(t);
    var k := FanOutEnds(t, Submitted(t));
    var fanOut := PushJust(t, w, capacity, k, {});
    var s := Run(t, w, Start(t, capacity), fanOut);
    RunOne(t, w, s, Cancel);
    RunOne(t, w, Apply(t, w, s, Cancel), Check);
    RunConcat(t, w, s, [Cancel], [Check]);
    RunConcat(t, w, Start(t, capacity), fanOut, [Cancel] + [Check]);
    steps := fanOut + ([Cancel] + [Check]);
  }

  // ---- when nothing is dropped ----

  // The rows of all listed producers but the held ones.
  function KeptRows<R>(w: Work<R>, ids: seq<Node>, held: set<Node>): nat {
    if ids == [] then 0
    else
      var p := ids[|ids| - 1];
      KeptRows(w, ids[..|ids| - 1], held) + if p in w && p !in held then |Flat(w[p])| else 0
  }

  lemma {:induction false} KeptAll<R>(w: Work<R>, ids: seq<Node>)
    ensures KeptRows(w, ids, {}) == TotalRows(w, ids)
  {
    if ids != [] {
      KeptAll(w, ids[..|ids| - 1]);
    }
  }

  lemma {:induction false} KeptAtMost<R>(w: Work<R>, ids: seq<Node>, held: set<Node>)
    ensures KeptRows(w, ids, held) <= TotalRows(w, ids)
    ensures KeptRows(w, ids, held) == TotalRows(w, ids)
      <==> forall k :: 0 <= k < |ids| && ids[k] in w && ids[k] in held ==> Flat(w[ids[k]]) == []
  {
    if ids != [] {
      var init := ids[..|ids| - 1];
      KeptAtMost(w, init, held);
      assert forall k :: 0 <= k < |init| ==> init[k] == ids[k];
    }
  }

  lemma {:induction false} DepositedAtLeastKept<R>(
    w: Work<R>, prods: map<Node, Producer>, ids: seq<Node>, held: set<Node>)
    requires forall k :: 0 <= k < |ids| ==> ids[k] in w && ids[k] in prods
    requires forall k :: 0 <= k < |ids| && ids[k] !in held ==> DepositedChunks(prods[ids[k]]) == |w[ids[k]]|
    ensures DepositedRows(w, prods, ids) >= KeptRows(w, ids, held)
    ensures (forall k :: 0 <= k < |ids| && ids[k] in held ==> prods[ids[k]] == Producer(0, Idle)) ==>
      DepositedRows(w, prods, ids) == KeptRows(w, ids, held)
  {
    if ids != [] {
      var init, p := ids[..|ids| - 1], ids[|ids| - 1];
      DepositedAtLeastKept(w, prods, init, held);
      assert w[p][..|w[p]|] == w[p] && w[p][..0] == [];
      assert forall k :: 0 <= k < |init| ==> init[k] == ids[k];
    }
  }

  // What the pushes of such a schedule come to: the queue and the refused rows together
  // are the rows of the producers that pushed.
  lemma PushedCount<R>(t: Topology, w: Work<R>, capacity: nat, steps: seq<Step>, ids: seq<Node>, held: set<Node>)
    requires t.Valid() && Works(t, w) && Enumerates(ids, t)
    requires PushedBut(t, w, Run(t, w, Start(t, capacity), steps), held)
    ensures var s := Run(t, w, Start(t, capacity), steps);
      |s.buf.q| + s.lost == KeptRows(w, ids, held) && |s.buf.q| <= capacity
      && (TotalRows(w, ids) <= capacity ==> s.lost == 0)
  {
    var s := Run(t, w, Start(t, capacity), steps);
    EveryRunCounted(t, w, capacity, steps, ids);
    EveryRunFits(t, w, capacity, steps);
    forall k | 0 <= k < |ids| ensures ids[k] in w && ids[k] in s.prods {
      assert ids[k] in ids;
    }
    DepositedAtLeastKept(w, s.prods, ids, held);
  }

  // The configured nodes that no walk joins to the portal.
  ghost function CutOff(t: Topology): set<Node> { set n | n in t.peers && !Connected(t, t.root, n) }

  lemma {:induction false} DepositedAtMostKept<R>(
    w: Work<R>, prods: map<Node, Producer>, ids: seq<Node>, held: set<Node>)
    requires forall k :: 0 <= k < |ids| && ids[k] in held && ids[k] in prods ==> DepositedChunks(prods[ids[k]]) == 0
    ensures DepositedRows(w, prods, ids) <= KeptRows(w, ids, held)
  {
    if ids != [] {
      var init, p := ids[..|ids| - 1], ids[|ids| - 1];
      assert forall k :: 0 <= k < |init| ==> init[k] == ids[k];
      DepositedAtMostKept(w, prods, init, held);
      if p in w && p in prods && DepositedChunks(prods[p]) <= |w[p]| {
        FlatPrefixShorter(w[p], DepositedChunks(prods[p]));
        assert w[p][..0] == [];
      }
    }
  }

  // An unconnected node never deposits anything.
  lemma CutOffDeposits<R>(t: Topology, w: Work<R>, s: Net<R>, p: Node)
    requires NetInv(t, w, s) && p in CutOff(t)
    ensures p in s.prods && DepositedChunks(s.prods[p]) == 0
  {
    assert ProducerOk(t, w, s, p) && Scans(t, s.fan, p);
    if p in s.fan.routes { VisitedIsPath(t, s.fan.routes, p); }
  }

  lemma {:induction false} NothingLost<R>(t: Topology, w: Work<R>, capacity: nat, steps: seq<Step>, ids: seq<Node>)
    requires t.Valid() && Works(t, w) && Enumerates(ids, t) && KeptRows(w, ids, CutOff(t)) <= capacity
    ensures Run(t, w, Start(t, capacity), steps).lost == 0
    decreases |steps|
  {
    hide Apply, NetInv, KeptRows;
    var s := Run(t, w, Start(t, capacity), steps);
    EveryRunInv(t, w, capacity, steps);
    if s.Live() {
      EveryRunCounted(t, w, capacity, steps, ids);
      EveryRunNotTooFew(t, w, capacity, steps, ids);
      forall k | 0 <= k < |ids| && ids[k] in CutOff(t)
        ensures ids[k] in s.prods && DepositedChunks(s.prods[ids[k]]) == 0
      {
        CutOffDeposits(t, w, s, ids[k]);
      }
      DepositedAtMostKept(w, s.prods, ids, CutOff(t));
    } else {
      var init := steps[..|steps| - 1];
      NothingLost(t, w, capacity, init, ids);
      EveryRunInv(t, w, capacity, init);
      ClosingDelivers(t, w, Run(t, w, Start(t, capacity), init), steps[|steps| - 1]);
    }
  }

  // A schedule in which every node connected to the portal pushes everything, and the client
  // fetches nothing: a row is queued if there is any and room for it.
  lemma ConnectedPush<R>(t: Topology, w: Work<R>, capacity: nat, ids: seq<Node>) returns (steps: seq<Step>)
    requires t.Valid() && Works(t, w) && Enumerates(ids, t)
    ensures NoFetch(steps)
    ensures var s := Run(t, w, Start(t, capacity), steps);
      && Quiet(t, w, s) && s.delivered == []
      && |s.buf.q| + s.lost >= KeptRows(w, ids, CutOff(t)) && |s.buf.q| <= capacity
      && (s.lost > 0 ==> |s.buf.q| >= capacity)
  {
    SubmittedInv(t);
    var k := FanOutEnds(t, Submitted(t));
    steps := PushJust(t, w, capacity, k, t.peers.Keys - CutOff(t));
    var s := Run(t, w, Start(t, capacity), steps);
    EveryRunCounted(t, w, capacity, steps, ids);
    EveryRunFits(t, w, capacity, steps);
    EveryRunNotTooFew(t, w, capacity, steps, ids);
    forall j | 0 <= j < |ids| ensures ids[j] in w && ids[j] in s.prods {
      assert ids[j] in ids;
    }
    DepositedAtLeastKept(w, s.prods, ids, CutOff(t));
  }

  // A chunk accepted only in part is acknowledged all the same, so its tail is dropped: no
  // run drops a row if and only if the rows of all nodes connected to the portal fit its
  // buffer.
  lemma NothingDroppedIffFits<R>(t: Topology, w: Work<R>, capacity: nat, ids: seq<Node>)
    requires t.Valid() && Works(t, w) && Enumerates(ids, t)
    ensures (forall steps :: Run(t, w, Start(t, capacity), steps).lost == 0)
      <==> KeptRows(w, ids, CutOff(t)) <= capacity
  {
    hide Run, KeptRows;
    if KeptRows(w, ids, CutOff(t)) <= capacity {
      forall steps ensures Run(t, w, Start(t, capacity), steps).lost == 0 {
        NothingLost(t, w, capacity, steps, ids);
      }
    } else {
      var steps := ConnectedPush(t, w, capacity, ids);
      assert Run(t, w, Start(t, capacity), steps).lost > 0;
    }
  }

  // ---- when final means complete ----

  ghost predicate AlwaysWhole<R>(t: Topology, w: Work<R>, capacity: nat) {
    forall steps :: WholeAtFinal(w, Run(t, w, Start(t, capacity), steps))
  }

  ghost predicate WholeAtFinal<R>(w: Work<R>, s: Net<R>) {
    s.Concluded() ==> forall p :: p in w ==> From(s.delivered, p) == Flat(w[p])
  }

  // No neighbour marked early has a row to send.
  ghost predicate EarlyAreEmpty<R>(t: Topology, w: Work<R>) {
    forall r {:trigger MarkedEarly(t, r)} :: r in w && MarkedEarly(t, r) ==> Flat(w[r]) == []
  }

  lemma WholeWhenFits<R>(t: Topology, w: Work<R>, capacity: nat, ids: seq<Node>, steps: seq<Step>)
    requires t.Valid() && Works(t, w) && Enumerates(ids, t) && EarlyAreEmpty(t, w)
    requires TotalRows(w, ids) <= capacity
    ensures WholeAtFinal(w, Run(t, w, Start(t, capacity), steps))
  {
    var s := Run(t, w, Start(t, capacity), steps);
    if s.Concluded() {
      EveryRunInv(t, w, capacity, steps);
      EveryRunCounted(t, w, capacity, steps, ids);
      forall p | p in w ensures From(s.delivered, p) == Flat(w[p]) {
        FinalRejects(t, w, capacity, steps, p);
        if p in s.fan.rejected {
          EveryRunPrefix(t, w, capacity, steps, p);
        } else {
          assert Complete(w, s, p);
        }
      }
    }
  }

  // A held producer has no row in the queue.
  lemma HeldSendsNothing<R>(t: Topology, w: Work<R>, s: Net<R>, held: set<Node>, p: Node)
    requires PushedBut(t, w, s, held) && s.lost == 0 && p in held && p in w
    ensures From(s.buf.q, p) == []
  {
    hide From, FanInv, ProducerOk, DoneOk, Framed, AllMarked;
    assert StreamOk(w, s, p);
    assert s.delivered + s.buf.q == s.buf.q;
    assert w[p][..0] == [];
  }

  // An ended fan-out has rejected every neighbour marked early.
  lemma EarlyAreRejected(t: Topology, k: nat, held: set<Node>)
    requires t.Valid() && FanRun(t, Submitted(t), k).path == [] && forall r :: r in held ==> MarkedEarly(t, r)
    ensures EndedRejecting(t, k, held)
  {
    EveryStateOrdered(t, k);
    forall r | r in held ensures r in FanRun(t, Submitted(t), k).rejected {
      RejectedExactly(t, FanRun(t, Submitted(t), k), r);
    }
  }

  // A neighbour marked early can be left out of a run altogether, with whoever else is.
  lemma RunWithout<R>(t: Topology, w: Work<R>, capacity: nat, held: set<Node>, m: nat, ids: seq<Node>)
    returns (steps: seq<Step>, n: nat)
    requires t.Valid() && Works(t, w) && Spans(t) && Enumerates(ids, t) && m > 0
    requires forall r :: r in held ==> MarkedEarly(t, r)
    ensures NoFetch(steps)
    ensures var s := Run(t, w, Start(t, capacity), steps + Fetches(m, n));
      && s.Concluded() && |s.delivered| <= KeptRows(w, ids, held) && |s.delivered| <= capacity
      && (TotalRows(w, ids) <= capacity ==> forall p :: p in held && p in w ==> From(s.delivered, p) == [])
  {
    hide Run, KeptRows, TotalRows, From, Spans, EndedRejecting, PushedBut;
    SubmittedInv(t);
    var k := FanOutEnds(t, Submitted(t));
    EarlyAreRejected(t, k, held);
    steps, n := FinalWithout(t, w, capacity, k, held, m);
    PushedCount(t, w, capacity, steps, ids, held);
    if TotalRows(w, ids) <= capacity {
      forall p | p in held && p in w ensures From(Run(t, w, Start(t, capacity), steps).buf.q, p) == [] {
        HeldSendsNothing(t, w, Run(t, w, Start(t, capacity), steps), held, p);
      }
    }
  }

  // Whatever the scans yield, "final" means "complete" in every run if and only if no run
  // ends, or all rows fit the portal's buffer and no neighbour it marks early has any.
  lemma FinalIsWholeIff<R>(t: Topology, w: Work<R>, capacity: nat, ids: seq<Node>)
    requires t.Valid() && Works(t, w) && Enumerates(ids, t)
    ensures AlwaysWhole(t, w, capacity)
      <==> (Spans(t) ==> TotalRows(w, ids) <= capacity && EarlyAreEmpty(t, w))
  {
    if !Spans(t) {
      forall steps ensures WholeAtFinal(w, Run(t, w, Start(t, capacity), steps)) {
        if Run(t, w, Start(t, capacity), steps).Concluded() { EndedSpans(t, w, capacity, steps); }
      }
    } else if TotalRows(w, ids) > capacity {
      var steps := FinalIsReachable(t, w, capacity, 1);
      ShortIsNotWhole(w, Run(t, w, Start(t, capacity), steps).delivered, ids, capacity);
      assert !WholeAtFinal(w, Run(t, w, Start(t, capacity), steps));
    } else if EarlyAreEmpty(t, w) {
      forall steps ensures WholeAtFinal(w, Run(t, w, Start(t, capacity), steps)) {
        WholeWhenFits(t, w, capacity, ids, steps);
      }
    } else {
      var r :| r in w && MarkedEarly(t, r) && Flat(w[r]) != [];
      var steps, n := RunWithout(t, w, capacity, {r}, 1, ids);
      assert !WholeAtFinal(w, Run(t, w, Start(t, capacity), steps + Fetches(1, n)));
    }
  }

  lemma ShortIsNotWhole<R>(w: Work<R>, rows: seq<Tagged<R>>, ids: seq<Node>, capacity: nat)
    requires Lists.Distinct(ids) && |rows| <= capacity < TotalRows(w, ids)
    ensures !forall p :: p in w ==> From(rows, p) == Flat(w[p])
  {
    if forall p :: p in w ==> From(rows, p) == Flat(w[p]) { LengthByProducer(w, rows, ids); }
  }

  // So when every node has some row to send, that is so exactly when the portal also
  // separates its neighbours.
  lemma FinalIsWholeIffSeparatedAndFits<R>(t: Topology, w: Work<R>, capacity: nat, ids: seq<Node>)
    requires t.Valid() && Works(t, w) && Spans(t) && Enumerates(ids, t)
    requires forall p :: p in w ==> Flat(w[p]) != []
    ensures AlwaysWhole(t, w, capacity) <==> PortalSeparates(t) && TotalRows(w, ids) <= capacity
  {
    FinalIsWholeIff(t, w, capacity, ids);
    SeparatesIffNoneEarly(t);
    EarlyNeedRows(t, w);
  }

  lemma EarlyNeedRows<R>(t: Topology, w: Work<R>)
    requires t.Valid() && Works(t, w) && forall p :: p in w ==> Flat(w[p]) != []
    ensures EarlyAreEmpty(t, w) <==> forall n :: !MarkedEarly(t, n)
  {
    forall n | MarkedEarly(t, n) ensures n in w {
      EdgeBoth(t, t.root, n);
    }
  }

  // ---- how few rows a request can end with ----

  ghost function Early(t: Topology): set<Node> { set r | r in t.peers && MarkedEarly(t, r) }

  // Fewer than all rows of the others only when they do not fit, and then a bufferful.
  ghost function Least<R>(t: Topology, w: Work<R>, capacity: nat, ids: seq<Node>): nat {
    ChunkBuffers.Min(KeptRows(w, ids, Early(t)), capacity)
  }

  ghost predicate FullWhenRefused<R>(s: Net<R>, capacity: nat) {
    s.Live() && s.lost > 0 ==> |s.delivered| + |s.buf.q| >= capacity
  }

  ghost predicate NotTooFew<R>(w: Work<R>, s: Net<R>, capacity: nat, ids: seq<Node>) {
    s.Concluded() ==> |s.delivered| >= ChunkBuffers.Min(KeptRows(w, ids, s.fan.rejected), capacity)
  }

  lemma ApplyFull<R>(t: Topology, w: Work<R>, s: Net<R>, step: Step)
    requires NetInv(t, w, s) && FullWhenRefused(s, s.buf.capacity)
    ensures FullWhenRefused(Apply(t, w, s, step), s.buf.capacity)
  {
    hide FanStep, NetInv;
  }

  lemma CheckNotTooFew<R>(t: Topology, w: Work<R>, s: Net<R>, ids: seq<Node>)
    requires NetInv(t, w, s) && s.Live() && Counted(w, s, ids) && Enumerates(ids, t)
    requires FullWhenRefused(s, s.buf.capacity) && !Apply(t, w, s, Check).open
    ensures NotTooFew(w, Apply(t, w, s, Check), s.buf.capacity, ids)
  {
    var s' := Apply(t, w, s, Check);
    CheckCloses(t, w, s);
    forall k | 0 <= k < |ids| ensures ids[k] in w && ids[k] in s.prods {
      assert ids[k] in ids;
    }
    forall k | 0 <= k < |ids| && ids[k] !in s.fan.rejected ensures DepositedChunks(s.prods[ids[k]]) == |w[ids[k]]| {
      assert Complete(w, s', ids[k]);
    }
    DepositedAtLeastKept(w, s.prods, ids, s.fan.rejected);
  }

  lemma {:induction false} EveryRunNotTooFew<R>(
    t: Topology, w: Work<R>, capacity: nat, steps: seq<Step>, ids: seq<Node>)
    requires t.Valid() && Works(t, w) && Enumerates(ids, t)
    ensures var s := Run(t, w, Start(t, capacity), steps);
      FullWhenRefused(s, capacity) && NotTooFew(w, s, capacity, ids)
    decreases |steps|
  {
    hide Apply, NetInv, Counted, KeptRows;
    if steps != [] {
      var init, step := steps[..|steps| - 1], steps[|steps| - 1];
      var s := Run(t, w, Start(t, capacity), init);
      EveryRunNotTooFew(t, w, capacity, init, ids);
      EveryRunInv(t, w, capacity, init);
      EveryRunCounted(t, w, capacity, init, ids);
      ApplyFull(t, w, s, step);
      if s.Live() && Apply(t, w, s, step).Concluded() {
        ClosesByCheck(t, w, s, step);
        CheckNotTooFew(t, w, s, ids);
      } else if !s.Live() {
        StaysPast(t, w, s, step);
      }
    }
  }

  lemma ClosesByCheck<R>(t: Topology, w: Work<R>, s: Net<R>, step: Step)
    requires s.open && !Apply(t, w, s, step).open
    ensures step == Check
  {
    hide FanStep;
  }

  lemma StaysPast<R>(t: Topology, w: Work<R>, s: Net<R>, step: Step)
    requires NetInv(t, w, s) && !s.Live()
    ensures var s' := Apply(t, w, s, step);
      !s'.Live() && (s'.Concluded() ==> s.Concluded() && s'.delivered == s.delivered && s'.fan == s.fan)
  {
    if s.buf.canceled { ApplyCanceled(t, w, s, step); } else { ApplyClosed(t, w, s, step); }
  }

  // Every request that ends uncanceled delivers at least that many rows, and some request on a
  // connected overlay delivers no more.
  lemma LeastDelivered<R>(t: Topology, w: Work<R>, capacity: nat, ids: seq<Node>, steps: seq<Step>)
    requires t.Valid() && Works(t, w) && Enumerates(ids, t) && Run(t, w, Start(t, capacity), steps).Concluded()
    ensures |Run(t, w, Start(t, capacity), steps).delivered| >= Least(t, w, capacity, ids)
  {
    EveryRunNotTooFew(t, w, capacity, steps, ids);
    EveryRunInv(t, w, capacity, steps);
    var s := Run(t, w, Start(t, capacity), steps);
    forall r ensures r in s.fan.rejected <==> r in Early(t) {
      FinalRejects(t, w, capacity, steps, r);
      if MarkedEarly(t, r) { EdgeBoth(t, t.root, r); }
    }
    assert s.fan.rejected == Early(t);
  }

  lemma LeastIsDelivered<R>(t: Topology, w: Work<R>, capacity: nat, ids: seq<Node>, m: nat)
    returns (steps: seq<Step>, n: nat)
    requires t.Valid() && Works(t, w) && Enumerates(ids, t) && Spans(t) && m > 0
    ensures NoFetch(steps)
    ensures var s := Run(t, w, Start(t, capacity), steps + Fetches(m, n));
      s.Concluded() && |s.delivered| == Least(t, w, capacity, ids)
  {
    steps, n := RunWithout(t, w, capacity, Early(t), m, ids);
    LeastDelivered(t, w, capacity, ids, steps + Fetches(m, n));
  }

  // Another delivers all rows that fit.
  lemma MostIsDelivered<R>(t: Topology, w: Work<R>, capacity: nat, ids: seq<Node>, m: nat)
    returns (steps: seq<Step>, n: nat)
    requires t.Valid() && Works(t, w) && Enumerates(ids, t) && Spans(t) && m > 0
    ensures NoFetch(steps)
    ensures var s := Run(t, w, Start(t, capacity), steps + Fetches(m, n));
      s.Concluded() && |s.delivered| == ChunkBuffers.Min(TotalRows(w, ids), capacity)
  {
    SubmittedInv(t);
    var k := FanOutEnds(t, Submitted(t));
    steps, n := FinalWithout(t, w, capacity, k, {}, m);
    PushedCount(t, w, capacity, steps, ids, {});
    EveryRunNotTooFew(t, w, capacity, steps, ids);
    KeptAll(w, ids);
  }

  // No run delivers more rows than there are, canceled or not.
  lemma NoMoreThanThereAre<R>(t: Topology, w: Work<R>, capacity: nat, ids: seq<Node>, steps: seq<Step>)
    requires t.Valid() && Works(t, w) && Enumerates(ids, t)
    ensures |Run(t, w, Start(t, capacity), steps).delivered| <= TotalRows(w, ids)
  {
    EveryRunCounted(t, w, capacity, steps, ids);
    DepositedAtMostTotal(w, Run(t, w, Start(t, capacity), steps).prods, ids);
  }

  // Nor more than the nodes connected to the portal have.
  lemma {:induction false} NoMoreThanConnected<R>(
    t: Topology, w: Work<R>, capacity: nat, ids: seq<Node>, steps: seq<Step>)
    requires t.Valid() && Works(t, w) && Enumerates(ids, t)
    ensures |Run(t, w, Start(t, capacity), steps).delivered| <= KeptRows(w, ids, CutOff(t))
    decreases |steps|
  {
    hide Apply, NetInv, KeptRows;
    var s := Run(t, w, Start(t, capacity), steps);
    EveryRunInv(t, w, capacity, steps);
    if s.Live() {
      EveryRunCounted(t, w, capacity, steps, ids);
      forall k | 0 <= k < |ids| && ids[k] in CutOff(t)
        ensures ids[k] in s.prods && DepositedChunks(s.prods[ids[k]]) == 0
      {
        CutOffDeposits(t, w, s, ids[k]);
      }
      DepositedAtMostKept(w, s.prods, ids, CutOff(t));
    } else {
      var init := steps[..|steps| - 1];
      NoMoreThanConnected(t, w, capacity, ids, init);
      EveryRunInv(t, w, capacity, init);
      ClosingDelivers(t, w, Run(t, w, Start(t, capacity), init), steps[|steps| - 1]);
    }
  }

  // Nor any through a buffer of no size.
  lemma {:induction false} NothingWithoutRoom<R>(t: Topology, w: Work<R>, steps: seq<Step>)
    ensures Run(t, w, Start(t, 0), steps).delivered == []
    decreases |steps|
  {
    hide Apply;
    if steps != [] {
      var init := steps[..|steps| - 1];
      NothingWithoutRoom(t, w, init);
      EveryRunFits(t, w, 0, init);
      NothingToPop(t, w, Run(t, w, Start(t, 0), init), steps[|steps| - 1]);
    }
  }

  lemma NothingToPop<R>(t: Topology, w: Work<R>, s: Net<R>, step: Step)
    requires s.delivered == [] && s.buf.q == []
    ensures Apply(t, w, s, step).delivered == []
  {
    hide FanStep;
  }

  // A request that ended with all the rows there are has each producer's, in order.
  lemma AllIsWhole<R>(t: Topology, w: Work<R>, capacity: nat, ids: seq<Node>, steps: seq<Step>)
    requires t.Valid() && Works(t, w) && Enumerates(ids, t)
    requires |Run(t, w, Start(t, capacity), steps).delivered| == TotalRows(w, ids)
    ensures forall p :: p in w ==> From(Run(t, w, Start(t, capacity), steps).delivered, p) == Flat(w[p])
  {
    var s := Run(t, w, Start(t, capacity), steps);
    EveryRunCounted(t, w, capacity, steps, ids);
    DepositedAtMostTotal(w, s.prods, ids);
    forall p | p in w ensures From(s.delivered, p) <= Flat(w[p]) {
      EveryRunPrefix(t, w, capacity, steps, p);
    }
    FinalDelivers(t, w, capacity, steps, t.root);
    SharesAreAll(s.delivered, ids);
    NoShareShort(w, s.delivered, ids);
  }

  lemma {:induction false} SharesAreAll<R>(rows: seq<Tagged<R>>, ids: seq<Node>)
    requires Lists.Distinct(ids) && forall i :: 0 <= i < |rows| ==> rows[i].producer in ids
    ensures Shares(rows, ids) == |rows|
    decreases |rows|
  {
    if rows == [] {
      EmptyShares<R>(ids);
    } else {
      SharesAreAll(rows[..|rows| - 1], ids);
      OneMore(rows, ids);
    }
  }

  lemma {:induction false} NoShareShort<R>(w: Work<R>, rows: seq<Tagged<R>>, ids: seq<Node>)
    requires forall p :: p in w ==> From(rows, p) <= Flat(w[p])
    requires forall k :: 0 <= k < |ids| ==> ids[k] in w
    ensures Shares(rows, ids) <= TotalRows(w, ids)
    ensures Shares(rows, ids) == TotalRows(w, ids) ==>
      forall k :: 0 <= k < |ids| ==> From(rows, ids[k]) == Flat(w[ids[k]])
  {
    hide From, Flat;
    if ids != [] {
      var init := ids[..|ids| - 1];
      NoShareShort(w, rows, init);
      assert forall k :: 0 <= k < |init| ==> init[k] == ids[k];
      var p := ids[|ids| - 1];
      assert From(rows, p) <= Flat(w[p]);
    }
  }
}
