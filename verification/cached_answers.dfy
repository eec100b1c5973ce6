// What a served request leaves in the result cache and tells its client, and exactly when
// that is the query's whole answer.

module CachedAnswers {
  import opened Options
  import opened Rows
  import QueryEngine
  import opened NodeScans
  import ChunkBuffers
  import opened Overlay
  import OverlayTheorems
  import opened Delivery
  import DeliveryTheorems
  import opened Schedules
  import opened EarlyFinal
  import opened Partitioning
  import opened EndToEnd
  import Recency
  import Q = QueryCaches
  import CacheKey
  import P = PortalCache
  import PortalTheorems
  import opened Services

  // How the request ended, if it did.
  ghost function Outcome(
    t: Topology, w: Work<Row>, l: P.Limits, rid: string, spec: Spec, history: seq<P.PortalStep>,
    steps: seq<ServiceStep>)
    : Option<P.Ended>
  {
    RunService(t, w, l, rid, Opening(t, l, history, rid, spec), steps).end
  }

  // A request that ended was delivered, and is recorded with, the rows of its delivery; it
  // is stored exactly when it was not told of a cancel and they are no more than an entry may
  // have.
  lemma EndIsDelivery(
    t: Topology, w: Work<Row>, l: P.Limits, rid: string, spec: Spec, history: seq<P.PortalStep>,
    steps: seq<ServiceStep>)
    returns (net: seq<Step>)
    requires Misses(l, history, rid, spec)
    ensures var b := RunService(t, w, l, rid, Opening(t, l, history, rid, spec), steps);
      var s := Run(t, w, Start(t, l.bufferRows), net);
      && b.net == s && (b.end.Some? <==> !s.open)
      && (b.end.Some? ==> b.end.value in b.portal.ended && SameEnd(l, spec, b.end.value, s))
  {
    EveryServiceMirrors(t, w, l, rid, spec, history, steps);
    net := NetIsRun(t, w, l, rid, Opening(t, l, history, rid, spec), steps);
  }

  ghost predicate Whole(rows: seq<Row>, raw: seq<Row>, spec: Spec) {
    multiset(rows) == multiset(Reference(Keyed(raw), spec, spec.borough))
  }

  // What goes to the cache is always the query's whole answer.
  ghost predicate AlwaysStoresWhole(
    t: Topology, w: Work<Row>, l: P.Limits, rid: string, spec: Spec, history: seq<P.PortalStep>, raw: seq<Row>)
  {
    forall steps ::
      var e := Outcome(t, w, l, rid, spec, history, steps);
      e.Some? && e.value.stored ==> Whole(e.value.delivered, raw, spec)
  }

  // It is, unless a cancel of the request falls between its last fetch's two reads.
  ghost predicate StoresWholeUnraced(
    t: Topology, w: Work<Row>, l: P.Limits, rid: string, spec: Spec, history: seq<P.PortalStep>, raw: seq<Row>)
  {
    forall steps ::
      var e := Outcome(t, w, l, rid, spec, history, steps);
      e.Some? && e.value.stored && !P.Raced(e.value) ==> Whole(e.value.delivered, raw, spec)
  }

  // A client told "final" and not "canceled" always holds the query's whole answer.
  ghost predicate AlwaysTellsWhole(
    t: Topology, w: Work<Row>, l: P.Limits, rid: string, spec: Spec, history: seq<P.PortalStep>, raw: seq<Row>)
  {
    forall steps ::
      var e := Outcome(t, w, l, rid, spec, history, steps);
      e.Some? && !e.value.reported ==> Whole(e.value.delivered, raw, spec)
  }

  ghost predicate TellsWholeUnraced(
    t: Topology, w: Work<Row>, l: P.Limits, rid: string, spec: Spec, history: seq<P.PortalStep>, raw: seq<Row>)
  {
    forall steps ::
      var e := Outcome(t, w, l, rid, spec, history, steps);
      e.Some? && !e.value.reported && !P.Raced(e.value) ==> Whole(e.value.delivered, raw, spec)
  }

  // ---- requests that end by themselves, whatever is canceled besides ----

  // A schedule of the delivery whose client fetches last, served.
  lemma ScheduleOutcome(
    t: Topology, w: Work<Row>, l: P.Limits, rid: string, spec: Spec, history: seq<P.PortalStep>, pushes: seq<Step>,
    m: nat, n: nat)
    returns (steps: seq<ServiceStep>)
    requires Misses(l, history, rid, spec) && NoFetch(pushes)
    requires Run(t, w, Start(t, l.bufferRows), pushes + Fetches(m, n)).Concluded()
    ensures var e := Outcome(t, w, l, rid, spec, history, steps);
      var rows := Run(t, w, Start(t, l.bufferRows), pushes + Fetches(m, n)).delivered;
      && e.Some? && !e.value.canceled && !e.value.reported && e.value.delivered == Untag(rows)
      && (e.value.stored <==> |rows| <= l.entryRows && l.entries > 0)
  {
    hide Run, RunService, Serve, Mirrors, SameReq;
    var b0 := Opening(t, l, history, rid, spec);
    OpeningMirrors(t, l, rid, spec, history);
    steps := Served(pushes) + ServedFetches(m, n);
    ScheduleServed(t, w, l, rid, spec, b0, pushes, m, n);
    EveryServiceMirrors(t, w, l, rid, spec, history, steps);
    EndedMirror(l, rid, spec, RunService(t, w, l, rid, b0, steps));
  }

  lemma EndedMirror(l: P.Limits, rid: string, spec: Spec, b: Service)
    requires Mirrors(l, rid, spec, b) && !b.net.open
    ensures b.end.Some? && SameEnd(l, spec, b.end.value, b.net)
    ensures |b.end.value.delivered| == |b.net.delivered|
  {}

  // If some run is not exact, neither is some outcome of the request's.
  lemma WrongOutcome(
    t: Topology, w: Work<Row>, l: P.Limits, rid: string, spec: Spec, history: seq<P.PortalStep>, ids: seq<Node>,
    raw: seq<Row>, engines: map<Node, Engine>, polls: nat -> bool)
    returns (steps: seq<ServiceStep>)
    requires Posed(t, w, ids, raw, spec, engines, polls) && Misses(l, history, rid, spec)
    requires !AlwaysExact(t, w, l.bufferRows, raw, spec, spec.borough)
    ensures var e := Outcome(t, w, l, rid, spec, history, steps);
      && e.Some? && !e.value.canceled && !e.value.reported && !Whole(e.value.delivered, raw, spec)
      && (DeliveryTheorems.TotalRows(w, ids) <= l.entryRows && l.entries > 0 ==> e.value.stored)
  {
    hide Run, Outcome, Least, AlwaysExact, Reference, NodesScan, AllSuit, NoStrays, DeliveryTheorems.TotalRows;
    PosedWorks(t, w, ids, raw, spec, engines, polls);
    if !Spans(t) { NoEndNoError(t, w, l.bufferRows, raw, spec, spec.borough); }
    var pushes, n;
    if NoStrays(ids, raw, spec, engines) {
      ExactIffLeast(t, w, l.bufferRows, ids, raw, spec, engines, polls);
      LeastIsFewer(t, w, l.bufferRows, ids);
      pushes, n := LeastIsDelivered(t, w, l.bufferRows, ids, 1);
    } else {
      StrayQuery(t, w, ids, raw, spec, engines, polls);
      StrayRows(t, w, l.bufferRows, ids, raw, spec, spec.borough);
      pushes, n := MostIsDelivered(t, w, l.bufferRows, ids, 1);
    }
    steps := ScheduleOutcome(t, w, l, rid, spec, history, pushes, 1, n);
    OtherLength(Outcome(t, w, l, rid, spec, history, steps).value.delivered, raw, spec);
  }

  lemma OtherLength(rows: seq<Row>, raw: seq<Row>, spec: Spec)
    ensures |rows| != |Reference(Keyed(raw), spec, spec.borough)| ==> !Whole(rows, raw, spec)
  {
    assert |multiset(rows)| == |rows|;
    assert |multiset(Reference(Keyed(raw), spec, spec.borough))| == |Reference(Keyed(raw), spec, spec.borough)|;
  }

  lemma StrayQuery(t: Topology, w: Work<Row>, ids: seq<Node>, raw: seq<Row>, spec: Spec, engines: map<Node, Engine>,
    polls: nat -> bool)
    requires Posed(t, w, ids, raw, spec, engines, polls) && !NoStrays(ids, raw, spec, engines)
    ensures Reference(Keyed(raw), spec, spec.borough) == [] && DeliveryTheorems.TotalRows(w, ids) > 0
  {
    hide Reference;
    QueryEngine.OutOfByte(Keyed(raw), spec);
    UnsuitedSend(t, w, ids, raw, spec, engines, polls);
  }

  // An outcome without a cancel is a run of the delivery that ended by itself.
  lemma ExactOutcome(
    t: Topology, w: Work<Row>, l: P.Limits, rid: string, spec: Spec, history: seq<P.PortalStep>, raw: seq<Row>,
    steps: seq<ServiceStep>)
    requires Misses(l, history, rid, spec) && AlwaysExact(t, w, l.bufferRows, raw, spec, spec.borough)
    ensures var e := Outcome(t, w, l, rid, spec, history, steps);
      e.Some? && !e.value.canceled ==> Whole(e.value.delivered, raw, spec)
  {
    hide Run, RunService, Reference;
    var net := EndIsDelivery(t, w, l, rid, spec, history, steps);
    assert ExactAtFinal(Run(t, w, Start(t, l.bufferRows), net), raw, spec, spec.borough);
  }

  // So it has at least the fewest rows a run can end with.
  lemma UncanceledOutcome(
    t: Topology, w: Work<Row>, l: P.Limits, rid: string, spec: Spec, history: seq<P.PortalStep>, ids: seq<Node>,
    raw: seq<Row>, engines: map<Node, Engine>, polls: nat -> bool, steps: seq<ServiceStep>)
    requires Posed(t, w, ids, raw, spec, engines, polls) && Misses(l, history, rid, spec)
    requires NoStrays(ids, raw, spec, engines)
    requires var e := Outcome(t, w, l, rid, spec, history, steps); e.Some? && !e.value.canceled
    ensures Spans(t)
    ensures var rows := Outcome(t, w, l, rid, spec, history, steps).value.delivered;
      && |rows| >= Least(t, w, l.bufferRows, ids)
      && (|rows| >= |Reference(Keyed(raw), spec, spec.borough)| ==> Whole(rows, raw, spec))
  {
    hide Run, RunService, Least, Reference, NodesScan, NoStrays;
    PosedWorks(t, w, ids, raw, spec, engines, polls);
    var net := EndIsDelivery(t, w, l, rid, spec, history, steps);
    EndedSpans(t, w, l.bufferRows, net);
    LeastDelivered(t, w, l.bufferRows, ids, net);
    AsManyIsExact(t, w, l.bufferRows, ids, raw, spec, engines, polls, net);
  }

  // Some ended request can be stored with less than everything.
  ghost predicate PartialFitsEntry(t: Topology, w: Work<Row>, l: P.Limits, ids: seq<Node>, all: nat) {
    && Spans(t) && l.entries > 0
    && Least(t, w, l.bufferRows, ids) < all && Least(t, w, l.bufferRows, ids) <= l.entryRows
  }

  // Whatever else the portal serves and whenever the request itself is canceled, but for the
  // race, its result goes to the cache whole in every run if and only if no partial one is
  // possible that an entry would hold.
  lemma StoresWholeIff(
    t: Topology, w: Work<Row>, l: P.Limits, rid: string, spec: Spec, history: seq<P.PortalStep>, ids: seq<Node>,
    raw: seq<Row>, engines: map<Node, Engine>, polls: nat -> bool)
    requires Posed(t, w, ids, raw, spec, engines, polls) && Misses(l, history, rid, spec)
    requires NoStrays(ids, raw, spec, engines)
    ensures StoresWholeUnraced(t, w, l, rid, spec, history, raw)
      <==> !PartialFitsEntry(t, w, l, ids, |Reference(Keyed(raw), spec, spec.borough)|)
  {
    hide Run, Outcome, Least, Reference, NodesScan, NoStrays;
    if PartialFitsEntry(t, w, l, ids, |Reference(Keyed(raw), spec, spec.borough)|) {
      PosedWorks(t, w, ids, raw, spec, engines, polls);
      var pushes, n := LeastIsDelivered(t, w, l.bufferRows, ids, 1);
      var steps := ScheduleOutcome(t, w, l, rid, spec, history, pushes, 1, n);
      OtherLength(Outcome(t, w, l, rid, spec, history, steps).value.delivered, raw, spec);
    } else {
      forall steps
        ensures var e := Outcome(t, w, l, rid, spec, history, steps);
          e.Some? && e.value.stored && !P.Raced(e.value) ==> Whole(e.value.delivered, raw, spec)
      {
        StoredUnraced(t, w, l, rid, spec, history, ids, raw, engines, polls, steps);
      }
    }
  }

  lemma StoredUnraced(
    t: Topology, w: Work<Row>, l: P.Limits, rid: string, spec: Spec, history: seq<P.PortalStep>, ids: seq<Node>,
    raw: seq<Row>, engines: map<Node, Engine>, polls: nat -> bool, steps: seq<ServiceStep>)
    requires Posed(t, w, ids, raw, spec, engines, polls) && Misses(l, history, rid, spec)
    requires NoStrays(ids, raw, spec, engines)
    requires !PartialFitsEntry(t, w, l, ids, |Reference(Keyed(raw), spec, spec.borough)|)
    ensures var e := Outcome(t, w, l, rid, spec, history, steps);
      e.Some? && e.value.stored && !P.Raced(e.value) ==> Whole(e.value.delivered, raw, spec)
  {
    hide RunService, Run, Least, Reference, NodesScan, NoStrays;
    var e := Outcome(t, w, l, rid, spec, history, steps);
    if e.Some? && e.value.stored && !P.Raced(e.value) {
      var net := EndIsDelivery(t, w, l, rid, spec, history, steps);
      UncanceledOutcome(t, w, l, rid, spec, history, ids, raw, engines, polls, steps);
    }
  }

  // When an entry holds whatever can be delivered, the cache gets whole answers only, but for
  // the race, exactly when every run is exact.
  lemma StoresWholeIffExact(
    t: Topology, w: Work<Row>, l: P.Limits, rid: string, spec: Spec, history: seq<P.PortalStep>, ids: seq<Node>,
    raw: seq<Row>, engines: map<Node, Engine>, polls: nat -> bool)
    requires Posed(t, w, ids, raw, spec, engines, polls) && Misses(l, history, rid, spec)
    requires l.entries > 0 && DeliveryTheorems.TotalRows(w, ids) <= l.entryRows
    ensures StoresWholeUnraced(t, w, l, rid, spec, history, raw)
      <==> AlwaysExact(t, w, l.bufferRows, raw, spec, spec.borough)
  {
    hide Outcome, AlwaysExact, Reference, NodesScan, DeliveryTheorems.TotalRows;
    if AlwaysExact(t, w, l.bufferRows, raw, spec, spec.borough) {
      forall steps
        ensures var e := Outcome(t, w, l, rid, spec, history, steps);
          e.Some? && e.value.stored && !P.Raced(e.value) ==> Whole(e.value.delivered, raw, spec)
      {
        StoredIsUnreported(t, w, l, rid, spec, history, steps);
        ExactOutcome(t, w, l, rid, spec, history, raw, steps);
      }
    } else {
      var steps := WrongOutcome(t, w, l, rid, spec, history, ids, raw, engines, polls);
    }
  }

  // Told of no cancel, within an entry's size, and only if there are entries.
  lemma StoredIsUnreported(
    t: Topology, w: Work<Row>, l: P.Limits, rid: string, spec: Spec, history: seq<P.PortalStep>,
    steps: seq<ServiceStep>)
    requires Misses(l, history, rid, spec)
    ensures var e := Outcome(t, w, l, rid, spec, history, steps);
      e.Some? && e.value.stored ==> !e.value.reported && |e.value.delivered| <= l.entryRows && l.entries > 0
  {
    hide Run, RunService;
    var net := EndIsDelivery(t, w, l, rid, spec, history, steps);
  }

  // ---- the race ----

  // A fetch of m rows whose two reads a cancel of the request falls between.
  function RacedFetch(m: nat): seq<ServiceStep> {
    [OfRequest(Pop(m)), See, OfRequest(Cancel), OfRequest(Check)]
  }

  lemma RacedFetchRuns(t: Topology, w: Work<Row>, l: P.Limits, rid: string, b: Service, m: nat)
    ensures var b2 := Serve(t, w, l, rid, Serve(t, w, l, rid, b, OfRequest(Pop(m))), See);
      RunService(t, w, l, rid, b, RacedFetch(m))
      == Serve(t, w, l, rid, Serve(t, w, l, rid, b2, OfRequest(Cancel)), OfRequest(Check))
  {
    hide Serve;
    var steps := RacedFetch(m);
    assert steps[..3][..2] == [OfRequest(Pop(m)), See] && steps[..3][..2][..1] == [OfRequest(Pop(m))];
    ServeOne(t, w, l, rid, b, OfRequest(Pop(m)));
    assert RunService(t, w, l, rid, b, steps[..3][..2])
        == Serve(t, w, l, rid, Serve(t, w, l, rid, b, OfRequest(Pop(m))), See);
  }

  // It ends the request, telling of no cancel, with the m rows it fetched.
  lemma RaceEnds(t: Topology, w: Work<Row>, l: P.Limits, rid: string, spec: Spec, b: Service, m: nat)
    requires Mirrors(l, rid, spec, b) && InFetch(rid, b, P.NotFetching) && !b.net.buf.canceled && b.net.delivered == []
    ensures var e := RunService(t, w, l, rid, b, RacedFetch(m)).end;
      var got := ChunkBuffers.Min(m, |b.net.buf.q|);
      && e.Some? && P.Raced(e.value) && |e.value.delivered| == got
      && (e.value.stored <==> got <= l.entryRows && l.entries > 0)
  {
    hide Mirrors, Serve;
    var b1 := Serve(t, w, l, rid, b, OfRequest(Pop(m)));
    ServeMirrors(t, w, l, rid, spec, b, OfRequest(Pop(m)));
    PopServed(t, w, l, rid, spec, b, m);
    var b2 := Serve(t, w, l, rid, b1, See);
    ServeMirrors(t, w, l, rid, spec, b1, See);
    SeeServed(t, w, l, rid, spec, b1);
    var b3 := Serve(t, w, l, rid, b2, OfRequest(Cancel));
    ServeMirrors(t, w, l, rid, spec, b2, OfRequest(Cancel));
    CancelServed(t, w, l, rid, spec, b2, P.Saw(false));
    var b4 := Serve(t, w, l, rid, b3, OfRequest(Check));
    ServeMirrors(t, w, l, rid, spec, b3, OfRequest(Check));
    CheckServed(t, w, l, rid, spec, b3, false);
    EndedMirror(l, rid, spec, b4);
    RacedFetchRuns(t, w, l, rid, b, m);
  }

  // Whatever was pushed before that fetch.
  lemma RacedOutcome(
    t: Topology, w: Work<Row>, l: P.Limits, rid: string, spec: Spec, history: seq<P.PortalStep>, pushes: seq<Step>,
    m: nat)
    returns (steps: seq<ServiceStep>)
    requires Misses(l, history, rid, spec) && NoFetch(pushes)
    requires var s := Run(t, w, Start(t, l.bufferRows), pushes); s.Live() && s.fan.path == [] && s.delivered == []
    ensures forall i :: 0 <= i < |steps| && steps[i].OfRequest? && steps[i].step.Pop? ==> steps[i].step.max == m
    ensures var e := Outcome(t, w, l, rid, spec, history, steps);
      var got := ChunkBuffers.Min(m, |Run(t, w, Start(t, l.bufferRows), pushes).buf.q|);
      && e.Some? && P.Raced(e.value) && |e.value.delivered| == got
      && (e.value.stored <==> got <= l.entryRows && l.entries > 0)
  {
    hide Run, RunService, Serve, Mirrors, SameReq;
    var b0 := Opening(t, l, history, rid, spec);
    OpeningMirrors(t, l, rid, spec, history);
    PushesServed(t, w, l, rid, spec, b0, pushes);
    var b1 := RunService(t, w, l, rid, b0, Served(pushes));
    RaceEnds(t, w, l, rid, spec, b1, m);
    steps := Served(pushes) + RacedFetch(m);
    ServicesConcat(t, w, l, rid, b0, Served(pushes), RacedFetch(m));
  }

  // On every overlay a race can leave the client, and the cache, with nothing.
  lemma NothingRaced(
    t: Topology, w: Work<Row>, l: P.Limits, rid: string, spec: Spec, history: seq<P.PortalStep>, m: nat)
    returns (steps: seq<ServiceStep>)
    requires t.Valid() && Works(t, w) && Misses(l, history, rid, spec)
    ensures forall i :: 0 <= i < |steps| && steps[i].OfRequest? && steps[i].step.Pop? ==> steps[i].step.max == m
    ensures var e := Outcome(t, w, l, rid, spec, history, steps);
      e.Some? && P.Raced(e.value) && e.value.delivered == [] && (e.value.stored <==> l.entries > 0)
  {
    hide Run, Outcome;
    SubmittedInv(t);
    StartInv(t, w, l.bufferRows);
    var k := OverlayTheorems.FanOutEnds(t, Submitted(t));
    var fanOut := RunFanOut(t, w, Start(t, l.bufferRows), k);
    steps := RacedOutcome(t, w, l, rid, spec, history, fanOut, m);
  }

  // And with any row a connected node has.
  lemma RowRaced(
    t: Topology, w: Work<Row>, l: P.Limits, rid: string, spec: Spec, history: seq<P.PortalStep>, ids: seq<Node>)
    returns (steps: seq<ServiceStep>)
    requires t.Valid() && Works(t, w) && DeliveryTheorems.Enumerates(ids, t) && Misses(l, history, rid, spec)
    requires l.bufferRows > 0 && KeptRows(w, ids, CutOff(t)) > 0
    ensures var e := Outcome(t, w, l, rid, spec, history, steps);
      && e.Some? && P.Raced(e.value) && |e.value.delivered| == 1
      && (e.value.stored <==> l.entryRows > 0 && l.entries > 0)
  {
    hide Run, Outcome, KeptRows;
    var pushes := ConnectedPush(t, w, l.bufferRows, ids);
    steps := RacedOutcome(t, w, l, rid, spec, history, pushes, 1);
  }

  // No row can be delivered: there is no room, or no connected node has any.
  ghost predicate Barren(t: Topology, w: Work<Row>, l: P.Limits, ids: seq<Node>) {
    l.bufferRows == 0 || KeptRows(w, ids, CutOff(t)) == 0
  }

  lemma BarrenOutcome(
    t: Topology, w: Work<Row>, l: P.Limits, rid: string, spec: Spec, history: seq<P.PortalStep>, ids: seq<Node>,
    steps: seq<ServiceStep>)
    requires t.Valid() && Works(t, w) && DeliveryTheorems.Enumerates(ids, t) && Misses(l, history, rid, spec)
    requires Barren(t, w, l, ids)
    ensures var e := Outcome(t, w, l, rid, spec, history, steps); e.Some? ==> e.value.delivered == []
  {
    hide Run, RunService, KeptRows;
    var net := EndIsDelivery(t, w, l, rid, spec, history, steps);
    if l.bufferRows == 0 {
      NothingWithoutRoom(t, w, net);
    } else {
      NoMoreThanConnected(t, w, l.bufferRows, ids, net);
    }
  }

  // With the race, whole answers only are stored exactly when nothing is, or nothing matches
  // and no row can be delivered and stored.
  lemma StoresWholeRacedIff(
    t: Topology, w: Work<Row>, l: P.Limits, rid: string, spec: Spec, history: seq<P.PortalStep>, ids: seq<Node>,
    raw: seq<Row>, engines: map<Node, Engine>, polls: nat -> bool)
    requires Posed(t, w, ids, raw, spec, engines, polls) && Misses(l, history, rid, spec)
    ensures AlwaysStoresWhole(t, w, l, rid, spec, history, raw) <==>
      || l.entries == 0
      || (Reference(Keyed(raw), spec, spec.borough) == [] && (l.entryRows == 0 || Barren(t, w, l, ids)))
  {
    hide Outcome, Reference, NodesScan, KeptRows;
    PosedWorks(t, w, ids, raw, spec, engines, polls);
    if l.entries > 0 && Reference(Keyed(raw), spec, spec.borough) != [] {
      var steps := NothingRaced(t, w, l, rid, spec, history, 1);
      OtherLength(Outcome(t, w, l, rid, spec, history, steps).value.delivered, raw, spec);
    } else if l.entries > 0 && l.entryRows > 0 && !Barren(t, w, l, ids) {
      var steps := RowRaced(t, w, l, rid, spec, history, ids);
      OtherLength(Outcome(t, w, l, rid, spec, history, steps).value.delivered, raw, spec);
    } else {
      forall steps
        ensures var e := Outcome(t, w, l, rid, spec, history, steps);
          e.Some? && e.value.stored ==> Whole(e.value.delivered, raw, spec)
      {
        StoredIsUnreported(t, w, l, rid, spec, history, steps);
        if Barren(t, w, l, ids) { BarrenOutcome(t, w, l, rid, spec, history, ids, steps); }
      }
    }
  }

  // But for the race a client told "final" and not "canceled" always holds the whole answer
  // exactly when every run is exact.
  lemma TellsWholeIffExact(
    t: Topology, w: Work<Row>, l: P.Limits, rid: string, spec: Spec, history: seq<P.PortalStep>, ids: seq<Node>,
    raw: seq<Row>, engines: map<Node, Engine>, polls: nat -> bool)
    requires Posed(t, w, ids, raw, spec, engines, polls) && Misses(l, history, rid, spec)
    ensures TellsWholeUnraced(t, w, l, rid, spec, history, raw)
      <==> AlwaysExact(t, w, l.bufferRows, raw, spec, spec.borough)
  {
    hide Outcome, AlwaysExact, Reference, NodesScan;
    if AlwaysExact(t, w, l.bufferRows, raw, spec, spec.borough) {
      forall steps
        ensures var e := Outcome(t, w, l, rid, spec, history, steps);
          e.Some? && !e.value.reported && !P.Raced(e.value) ==> Whole(e.value.delivered, raw, spec)
      {
        ExactOutcome(t, w, l, rid, spec, history, raw, steps);
      }
    } else {
      var steps := WrongOutcome(t, w, l, rid, spec, history, ids, raw, engines, polls);
    }
  }

  // With it, exactly when nothing matches and no row can be delivered.
  lemma TellsWholeRacedIff(
    t: Topology, w: Work<Row>, l: P.Limits, rid: string, spec: Spec, history: seq<P.PortalStep>, ids: seq<Node>,
    raw: seq<Row>, engines: map<Node, Engine>, polls: nat -> bool)
    requires Posed(t, w, ids, raw, spec, engines, polls) && Misses(l, history, rid, spec)
    ensures AlwaysTellsWhole(t, w, l, rid, spec, history, raw)
      <==> Reference(Keyed(raw), spec, spec.borough) == [] && Barren(t, w, l, ids)
    ensures NoStrays(ids, raw, spec, engines) && Reference(Keyed(raw), spec, spec.borough) == [] ==>
      Barren(t, w, l, ids)
  {
    hide Outcome, Reference, NodesScan, KeptRows, NoStrays, DeliveryTheorems.TotalRows;
    PosedWorks(t, w, ids, raw, spec, engines, polls);
    if NoStrays(ids, raw, spec, engines) {
      NothingStray(t, w, ids, raw, spec, engines, polls);
      KeptAtMost(w, ids, CutOff(t));
    }
    if Reference(Keyed(raw), spec, spec.borough) != [] {
      var steps := NothingRaced(t, w, l, rid, spec, history, 1);
      OtherLength(Outcome(t, w, l, rid, spec, history, steps).value.delivered, raw, spec);
    } else if !Barren(t, w, l, ids) {
      var steps := RowRaced(t, w, l, rid, spec, history, ids);
      OtherLength(Outcome(t, w, l, rid, spec, history, steps).value.delivered, raw, spec);
    } else {
      forall steps
        ensures var e := Outcome(t, w, l, rid, spec, history, steps);
          e.Some? && !e.value.reported ==> Whole(e.value.delivered, raw, spec)
      {
        BarrenOutcome(t, w, l, rid, spec, history, ids, steps);
      }
    }
  }

  // ---- answered from the cache ----

  // A later request answered from what this one left, uncanceled and pushed to by nobody,
  // gives its client the whole answer to its own query, for any equal spec, exactly when what
  // was left is the whole answer and no longer than the buffer.
  lemma HitAnswersIff(
    t: Topology, w: Work<Row>, l: P.Limits, rid: string, spec: Spec, history: seq<P.PortalStep>, ids: seq<Node>,
    raw: seq<Row>, engines: map<Node, Engine>, polls: nat -> bool,
    steps: seq<ServiceStep>, more: seq<P.PortalStep>, k: nat, asked: Spec)
    requires Posed(t, w, ids, raw, spec, engines, polls) && Misses(l, history, rid, spec)
    requires var b := RunService(t, w, l, rid, Opening(t, l, history, rid, spec), steps);
      var ended := P.RunPortal(l, b.portal, more).ended;
      && b.end.Some? && b.end.value.stored && k < |ended|
      && ended[k].hit == Some(b.end.value.delivered) && ended[k].key == b.end.value.key == Q.Key(asked)
      && !ended[k].canceled && ended[k].accepted == []
    ensures var b := RunService(t, w, l, rid, Opening(t, l, history, rid, spec), steps);
      var rows := b.end.value.delivered;
      Whole(P.RunPortal(l, b.portal, more).ended[k].delivered, raw, asked)
      <==> Whole(rows, raw, spec) && |rows| <= l.bufferRows
  {
    hide Run, RunService, Serve, Reference, NodesScan, NoStrays, P.RunPortal;
    var b := RunService(t, w, l, rid, Opening(t, l, history, rid, spec), steps);
    var rows, e := b.end.value.delivered, P.RunPortal(l, b.portal, more).ended[k];
    EveryServiceMirrors(t, w, l, rid, spec, history, steps);
    P.RunKeeps(l, b.portal, more);
    HitGives(l, P.RunPortal(l, b.portal, more), k, rows);
    Q.SpecEqualIsKey(spec, asked);
    CacheKey.EqualReference(Keyed(raw), spec, asked, spec.borough);
    var net := EndIsDelivery(t, w, l, rid, spec, history, steps);
    if NoStrays(ids, raw, spec, engines) {
      AsManyIsExact(t, w, l.bufferRows, ids, raw, spec, engines, polls, net);
      PrefixWhole(e.delivered, rows, Reference(Keyed(raw), spec, spec.borough));
    } else {
      StrayQuery(t, w, ids, raw, spec, engines, polls);
      if l.bufferRows == 0 { NothingWithoutRoom(t, w, net); }
      OtherLength(e.delivered, raw, spec);
      OtherLength(rows, raw, spec);
    }
  }

  // And there is such an answer whenever the portal still has what was left: a later request
  // with an equal spec that is only fetched, m rows at a time and whatever else happens, ends
  // with the fetch that drains the last of the cached rows that fit.
  lemma NextClientIsAnswered(
    t: Topology, w: Work<Row>, l: P.Limits, rid: string, spec: Spec, history: seq<P.PortalStep>, ids: seq<Node>,
    raw: seq<Row>, engines: map<Node, Engine>, polls: nat -> bool,
    steps: seq<ServiceStep>, more: seq<P.PortalStep>, next: string, asked: Spec, expected: nat,
    fetches: seq<P.PortalStep>, m: nat, n: nat)
    returns (k: nat)
    requires Posed(t, w, ids, raw, spec, engines, polls) && Misses(l, history, rid, spec)
    requires var b := RunService(t, w, l, rid, Opening(t, l, history, rid, spec), steps);
      var p := P.RunPortal(l, b.portal, more);
      && b.end.Some? && b.end.value.stored && next !in p.reqs
      && Q.Key(asked) == b.end.value.key && Recency.Lookup(p.items, Q.Key(asked)) == Some(b.end.value.delivered)
      && n > 0 && m * n >= ChunkBuffers.Min(|b.end.value.delivered|, l.bufferRows)
    requires PortalTheorems.OnlyFetched(fetches, next)
      && PortalTheorems.Own(fetches, next) == PortalTheorems.FetchSteps(next, m, n)
    ensures var b := RunService(t, w, l, rid, Opening(t, l, history, rid, spec), steps);
      var p := P.ApplyStep(l, P.RunPortal(l, b.portal, more), P.Submit(next, asked, expected));
      var s, rows := P.RunPortal(l, p, fetches), b.end.value.delivered;
      && next !in s.reqs && k < |s.ended| && s.ended[k].hit == Some(rows) && s.ended[k].key == Q.Key(asked)
      && (Whole(s.ended[k].delivered, raw, asked) <==> Whole(rows, raw, spec) && |rows| <= l.bufferRows)
  {
    hide Run, RunService, Serve, Reference, NodesScan, NoStrays, P.RunPortal, P.ApplyStep, Recency.Lookup, Q.Key, Posed;
    var b := RunService(t, w, l, rid, Opening(t, l, history, rid, spec), steps);
    var p, rows := P.RunPortal(l, b.portal, more), b.end.value.delivered;
    StoredIsUnreported(t, w, l, rid, spec, history, steps);
    PortalTheorems.HitEndsExactly(l, p, next, asked, expected, fetches, m, n);
    PortalTheorems.OneMore(l, b.portal, more, P.Submit(next, asked, expected));
    PortalTheorems.RunPortalConcat(l, b.portal, more + [P.Submit(next, asked, expected)], fetches);
    var all := more + [P.Submit(next, asked, expected)] + fetches;
    var ended := P.RunPortal(l, b.portal, all).ended;
    k :| 0 <= k < |ended| && PortalTheorems.HitEnded(l, ended[k], Q.Key(asked), rows);
    HitAnswersIff(t, w, l, rid, spec, history, ids, raw, engines, polls, steps, all, k, asked);
  }

  lemma HitGives(l: P.Limits, s: P.Portal, k: nat, rows: seq<Row>)
    requires P.PortalInv(l, s) && k < |s.ended|
    requires s.ended[k].hit == Some(rows) && !s.ended[k].canceled && s.ended[k].accepted == []
    ensures s.ended[k].delivered == rows[..ChunkBuffers.Min(|rows|, l.bufferRows)]
  {
    assert P.EndOk(l, s.ended[..k], s.ended[k]);
    var e := s.ended[k];
    assert e.delivered + [] == e.delivered && P.Prefill(l, e.hit) + [] == P.Prefill(l, e.hit);
  }

  // A prefix of rows that are no more than all of them.
  lemma PrefixWhole(prefix: seq<Row>, rows: seq<Row>, all: seq<Row>)
    requires prefix <= rows && |rows| <= |all|
    ensures multiset(prefix) == multiset(all) <==> multiset(rows) == multiset(all) && prefix == rows
  {
    if multiset(prefix) == multiset(all) {
      assert |multiset(prefix)| == |multiset(all)|;
      assert prefix == rows[..|prefix|] == rows[..|rows|] == rows;
    }
  }
}
