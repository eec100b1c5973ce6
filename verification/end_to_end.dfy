// The whole system: a data set split over the nodes, every node scanning its own part,
// the chunks climbing the fan-out tree, and the client fetching until final. What it
// then holds is what the same query would return on the whole data set at once.

module EndToEnd {
  import Lists
  import opened Rows
  import ScanTheorems
  import QueryEngine
  import opened NodeScans
  import opened Overlay
  import OverlayTheorems
  import Rejections
  import opened Delivery
  import opened DeliveryTheorems
  import opened Schedules
  import opened EarlyFinal
  import opened Partitioning
  import Walks

  // ---- rows and the producers they came from ----

  function Untag<R>(rows: seq<Tagged<R>>): (plain: seq<R>)
    ensures |plain| == |rows|
  {
    seq(|rows|, i requires 0 <= i < |rows| => rows[i].row)
  }

  function SharesOf<R>(rows: seq<Tagged<R>>, ids: seq<Node>): (shares: seq<seq<R>>)
    ensures |shares| == |ids| && forall k :: 0 <= k < |ids| ==> shares[k] == From(rows, ids[k])
  {
    seq(|ids|, k requires 0 <= k < |ids| => From(rows, ids[k]))
  }

  function WorkShares<R>(w: Work<R>, ids: seq<Node>): (shares: seq<seq<R>>)
    ensures |shares| == |ids|
    ensures forall k :: 0 <= k < |ids| && ids[k] in w ==> shares[k] == Flat(w[ids[k]])
  {
    seq(|ids|, k requires 0 <= k < |ids| => if ids[k] in w then Flat(w[ids[k]]) else [])
  }

  ghost predicate ProducedBy<R>(rows: seq<Tagged<R>>, ids: seq<Node>) {
    forall i :: 0 <= i < |rows| ==> rows[i].producer in ids
  }

  lemma SharesStep<R>(init: seq<Tagged<R>>, last: Tagged<R>, ids: seq<Node>, k: nat)
    requires Lists.Distinct(ids) && k < |ids| && ids[k] == last.producer
    ensures SharesOf(init + [last], ids) == SharesOf(init, ids)[k := SharesOf(init, ids)[k] + [last.row]]
  {
    assert (init + [last])[..|init|] == init;
    forall j | 0 <= j < |ids|
      ensures From(init + [last], ids[j]) == if j == k then From(init, ids[j]) + [last.row] else From(init, ids[j])
    {}
  }

  // Every row belongs to exactly one producer's share.
  lemma {:induction false} UntagGathers<R>(rows: seq<Tagged<R>>, ids: seq<Node>)
    requires Lists.Distinct(ids) && ProducedBy(rows, ids)
    ensures multiset(Untag(rows)) == Gather(SharesOf(rows, ids))
    decreases |rows|
  {
    hide Gather, From;
    if rows == [] {
      NoShares<R>(ids);
    } else {
      var init, last := rows[..|rows| - 1], rows[|rows| - 1];
      assert rows == init + [last];
      UntagGathers(init, ids);
      var k :| 0 <= k < |ids| && ids[k] == last.producer;
      SharesStep(init, last, ids, k);
      GatherOneMore(SharesOf(init, ids), k, last.row);
      assert Untag(rows) == Untag(init) + [last.row];
    }
  }

  lemma NoShares<R>(ids: seq<Node>)
    ensures Gather(SharesOf<R>([], ids)) == multiset{}
  {
    GatherNothing(SharesOf<R>([], ids));
  }

  lemma {:induction false} TotalIsGathered<R>(w: Work<R>, ids: seq<Node>)
    ensures TotalRows(w, ids) == |Gather(WorkShares(w, ids))|
  {
    if ids != [] {
      var init := ids[..|ids| - 1];
      TotalIsGathered(w, init);
      assert WorkShares(w, ids)[..|init|] == WorkShares(w, init);
    }
  }

  // ---- at the end ----

  // When all rows fit and no neighbour marked early has any, once a request has ended by
  // itself the client holds every producer's rows, in that producer's order, and nothing else.
  lemma FinalGathersAll<R>(t: Topology, w: Work<R>, capacity: nat, ids: seq<Node>, steps: seq<Step>)
    requires t.Valid() && Works(t, w) && Enumerates(ids, t) && EarlyAreEmpty(t, w)
    requires TotalRows(w, ids) <= capacity
    ensures var s := Run(t, w, Start(t, capacity), steps);
      s.Concluded() ==>
        && (forall p :: p in w ==> From(s.delivered, p) == Flat(w[p]))
        && multiset(Untag(s.delivered)) == Gather(WorkShares(w, ids))
  {
    var s := Run(t, w, Start(t, capacity), steps);
    if s.Concluded() {
      EveryRunInv(t, w, capacity, steps);
      WholeWhenFits(t, w, capacity, ids, steps);
      UntagGathers(s.delivered, ids);
      SharesAreWork(t, w, s.delivered, ids);
    }
  }

  lemma SharesAreWork<R>(t: Topology, w: Work<R>, rows: seq<Tagged<R>>, ids: seq<Node>)
    requires Works(t, w) && Enumerates(ids, t)
    requires forall p :: p in w ==> From(rows, p) == Flat(w[p])
    ensures SharesOf(rows, ids) == WorkShares(w, ids)
  {
    forall k | 0 <= k < |ids| ensures SharesOf(rows, ids)[k] == WorkShares(w, ids)[k] {
      assert ids[k] in ids;
    }
  }

  // A run that ends with fewer rows than there are does not hold them all.
  lemma FewerIsNotAll<R>(rows: seq<Tagged<R>>, all: seq<R>)
    requires |rows| < |all|
    ensures multiset(Untag(rows)) != multiset(all)
  {
    assert |multiset(Untag(rows))| == |rows| && |multiset(all)| == |all|;
  }

  // ---- every node scanning its own partition ----

  // Every node hands over the plain filter's answer on its part, capped by max_rows.
  ghost predicate ScansPartitions(t: Topology, w: Work<Row>, ids: seq<Node>, raw: seq<Row>, spec: Spec, borough: int) {
    && Works(t, w) && Enumerates(ids, t) && ids != []
    && forall k :: 0 <= k < |ids| && ids[k] in w ==>
         Flat(w[ids[k]]) == Capped(Reference(Part(raw, |ids|, k), spec, borough), spec.maxRows)
  }

  // Every node runs its own engine on its part.
  ghost predicate NodesScan(
    t: Topology, w: Work<Row>, ids: seq<Node>, raw: seq<Row>, spec: Spec, engines: map<Node, Engine>,
    polls: nat -> bool)
  {
    && w.Keys == t.peers.Keys && engines.Keys == t.peers.Keys
    && forall k :: 0 <= k < |ids| && ids[k] in w && ids[k] in engines ==>
         w[ids[k]] == NodeChunks(engines[ids[k]], Part(raw, |ids|, k), spec, polls)
  }

  // A query posed to the whole system, nodes of either language in any mix.
  ghost predicate Posed(
    t: Topology, w: Work<Row>, ids: seq<Node>, raw: seq<Row>, spec: Spec, engines: map<Node, Engine>,
    polls: nat -> bool)
  {
    && t.Valid() && Enumerates(ids, t) && ids != []
    && ScanTheorems.Uncanceled(polls) && NodesScan(t, w, ids, raw, spec, engines, polls)
  }

  ghost predicate AllSuit(ids: seq<Node>, raw: seq<Row>, spec: Spec, engines: map<Node, Engine>) {
    forall k :: 0 <= k < |ids| && ids[k] in engines ==> Suits(engines[ids[k]], Part(raw, |ids|, k), spec)
  }

  // What every node hands over is framed with one done chunk, the last.
  lemma PosedWorks(
    t: Topology, w: Work<Row>, ids: seq<Node>, raw: seq<Row>, spec: Spec, engines: map<Node, Engine>,
    polls: nat -> bool)
    requires Posed(t, w, ids, raw, spec, engines, polls)
    ensures Works(t, w)
  {
    forall p | p in w ensures Framed(w[p]) {
      assert p in ids;
      var k :| 0 <= k < |ids| && ids[k] == p;
      NodeExactIff(engines[p], Part(raw, |ids|, k), spec, polls);
    }
  }

  // The nodes hand over the plain filter's answers exactly when the query suits every
  // node's engine and part.
  lemma NodesScanPartitionsIff(
    t: Topology, w: Work<Row>, ids: seq<Node>, raw: seq<Row>, spec: Spec, engines: map<Node, Engine>,
    polls: nat -> bool)
    requires Posed(t, w, ids, raw, spec, engines, polls)
    ensures ScansPartitions(t, w, ids, raw, spec, spec.borough) <==> AllSuit(ids, raw, spec, engines)
  {
    PosedWorks(t, w, ids, raw, spec, engines, polls);
    forall k | 0 <= k < |ids|
      ensures ids[k] in w && ids[k] in engines
      ensures Flat(w[ids[k]]) == Capped(Reference(Part(raw, |ids|, k), spec, spec.borough), spec.maxRows)
        <==> Suits(engines[ids[k]], Part(raw, |ids|, k), spec)
    {
      assert ids[k] in ids;
      NodeExactIff(engines[ids[k]], Part(raw, |ids|, k), spec, polls);
    }
  }

  // ---- against one central query ----

  // No node has more matches than max_rows lets it send.
  ghost predicate CapHarmless(ids: seq<Node>, raw: seq<Row>, spec: Spec, borough: int)
    requires ids != []
  {
    spec.maxRows == 0 || forall k :: 0 <= k < |ids| ==> |Reference(Part(raw, |ids|, k), spec, borough)| <= spec.maxRows
  }

  // Capped shares gather as much as the uncapped exactly when the cap cuts off none.
  lemma CappedShares(shares: seq<seq<Row>>, answers: seq<seq<Row>>, cap: nat)
    requires |shares| == |answers| && forall k :: 0 <= k < |shares| ==> shares[k] == Capped(answers[k], cap)
    ensures |Gather(shares)| <= |Gather(answers)|
    ensures |Gather(shares)| == |Gather(answers)|
      <==> cap == 0 || forall k :: 0 <= k < |answers| ==> |answers[k]| <= cap
    ensures |Gather(shares)| == |Gather(answers)| ==> shares == answers
  {
    hide Gather;
    GatherSmaller(shares, answers);
    if cap == 0 || forall k :: 0 <= k < |answers| ==> |answers[k]| <= cap {
      assert shares == answers;
    } else {
      var k :| 0 <= k < |answers| && |answers[k]| > cap;
      assert |shares[k]| < |answers[k]|;
    }
  }

  // What the nodes have to send against the whole answer.
  lemma WorkAgainstAnswer(t: Topology, w: Work<Row>, ids: seq<Node>, raw: seq<Row>, spec: Spec, borough: int)
    requires ScansPartitions(t, w, ids, raw, spec, borough)
    ensures var all := Reference(Keyed(raw), spec, borough);
      && TotalRows(w, ids) <= |all|
      && (TotalRows(w, ids) == |all| <==> CapHarmless(ids, raw, spec, borough))
      && (CapHarmless(ids, raw, spec, borough) ==> Gather(WorkShares(w, ids)) == multiset(all))
  {
    hide Gather, Reference, Part, Flat, Capped, TotalRows, Keyed;
    var shares, answers := WorkShares(w, ids), Answers(raw, spec, borough, |ids|);
    forall k | 0 <= k < |ids| ensures shares[k] == Capped(answers[k], spec.maxRows) {
      assert ids[k] in ids;
    }
    TotalIsGathered(w, ids);
    PartsAnswerWhole(raw, spec, borough, |ids|);
    CappedShares(shares, answers, spec.maxRows);
    assert |Gather(answers)| == |Reference(Keyed(raw), spec, borough)|;
  }

  // With a borough in the byte range the nodes never have more to send than the whole
  // answer holds, and as much exactly when the query suits them all and the cap cuts off none.
  lemma NodesSendIff(
    t: Topology, w: Work<Row>, ids: seq<Node>, raw: seq<Row>, spec: Spec, engines: map<Node, Engine>,
    polls: nat -> bool)
    requires Posed(t, w, ids, raw, spec, engines, polls) && 0 <= spec.borough < 0x100
    ensures var all := Reference(Keyed(raw), spec, spec.borough);
      && TotalRows(w, ids) <= |all|
      && (TotalRows(w, ids) == |all|
          <==> AllSuit(ids, raw, spec, engines) && CapHarmless(ids, raw, spec, spec.borough))
  {
    hide Gather, Reference, Part, Flat, TotalRows, Keyed, Suits, NodeChunks;
    var shares, answers := WorkShares(w, ids), Answers(raw, spec, spec.borough, |ids|);
    forall k | 0 <= k < |ids|
      ensures ids[k] in engines && |shares[k]| <= |answers[k]|
      ensures |shares[k]| == |answers[k]| <==>
        && Suits(engines[ids[k]], Part(raw, |ids|, k), spec)
        && (spec.maxRows == 0 || |Reference(Part(raw, |ids|, k), spec, spec.borough)| <= spec.maxRows)
    {
      assert ids[k] in ids;
      NodeLengthIff(engines[ids[k]], Part(raw, |ids|, k), spec, polls);
    }
    TotalIsGathered(w, ids);
    PartsAnswerWhole(raw, spec, spec.borough, |ids|);
    GatherSmaller(shares, answers);
    assert |Gather(answers)| == |Reference(Keyed(raw), spec, spec.borough)|;
  }

  // In every run, when a request has ended by itself, the rows delivered are, as a multiset,
  // all rows the query matches in the whole data set.
  ghost predicate AlwaysExact(t: Topology, w: Work<Row>, capacity: nat, raw: seq<Row>, spec: Spec, borough: int) {
    forall steps :: ExactAtFinal(Run(t, w, Start(t, capacity), steps), raw, spec, borough)
  }

  ghost predicate ExactAtFinal(s: Net<Row>, raw: seq<Row>, spec: Spec, borough: int) {
    s.Concluded() ==> multiset(Untag(s.delivered)) == multiset(Reference(Keyed(raw), spec, borough))
  }

  lemma NoEndNoError(t: Topology, w: Work<Row>, capacity: nat, raw: seq<Row>, spec: Spec, borough: int)
    requires t.Valid() && Works(t, w) && !Spans(t)
    ensures AlwaysExact(t, w, capacity, raw, spec, borough)
  {
    forall steps ensures ExactAtFinal(Run(t, w, Start(t, capacity), steps), raw, spec, borough) {
      if Run(t, w, Start(t, capacity), steps).Concluded() { EndedSpans(t, w, capacity, steps); }
    }
  }

  lemma ScansAreWorks(t: Topology, w: Work<Row>, ids: seq<Node>, raw: seq<Row>, spec: Spec, borough: int)
    requires ScansPartitions(t, w, ids, raw, spec, borough)
    ensures Works(t, w) && Enumerates(ids, t)
  {}

  // The least a request can end with is everything exactly when everything fits and no
  // neighbour marked early has rows.
  lemma LeastIsFewer<R>(t: Topology, w: Work<R>, capacity: nat, ids: seq<Node>)
    requires t.Valid() && Works(t, w) && Enumerates(ids, t)
    ensures Least(t, w, capacity, ids) <= TotalRows(w, ids)
    ensures Least(t, w, capacity, ids) == TotalRows(w, ids)
      <==> TotalRows(w, ids) <= capacity && EarlyAreEmpty(t, w)
  {
    KeptAtMost(w, ids, Early(t));
    if EarlyAreEmpty(t, w) {
      forall k | 0 <= k < |ids| && ids[k] in w && ids[k] in Early(t) ensures Flat(w[ids[k]]) == [] {
        assert Rejections.MarkedEarly(t, ids[k]);
      }
    }
    if forall k :: 0 <= k < |ids| && ids[k] in w && ids[k] in Early(t) ==> Flat(w[ids[k]]) == [] {
      forall r | r in w && Rejections.MarkedEarly(t, r) ensures Flat(w[r]) == [] {
        assert r in ids;
        var k :| 0 <= k < |ids| && ids[k] == r;
      }
    }
  }

  // When every node hands over the plain filter's answer every run is exact if and only if
  // no run ends, or max_rows cuts off no node, the whole answer fits the portal's buffer and
  // no neighbour the portal marks early has a match.
  lemma ExactIff(
    t: Topology, w: Work<Row>, capacity: nat, ids: seq<Node>, raw: seq<Row>, spec: Spec, borough: int)
    requires t.Valid() && ScansPartitions(t, w, ids, raw, spec, borough)
    ensures AlwaysExact(t, w, capacity, raw, spec, borough) <==> (Spans(t) ==>
      && CapHarmless(ids, raw, spec, borough)
      && |Reference(Keyed(raw), spec, borough)| <= capacity && EarlyAreEmpty(t, w))
  {
    hide Run, ScansPartitions, CapHarmless;
    WorkAgainstAnswer(t, w, ids, raw, spec, borough);
    assert Works(t, w) && Enumerates(ids, t) by { ScansAreWorks(t, w, ids, raw, spec, borough); }
    if !Spans(t) {
      NoEndNoError(t, w, capacity, raw, spec, borough);
    } else if CapHarmless(ids, raw, spec, borough) && TotalRows(w, ids) <= capacity && EarlyAreEmpty(t, w) {
      forall steps ensures ExactAtFinal(Run(t, w, Start(t, capacity), steps), raw, spec, borough) {
        FinalGathersAll(t, w, capacity, ids, steps);
      }
    } else {
      LeastIsFewer(t, w, capacity, ids);
      LeastIsNotAll(t, w, capacity, ids, raw, spec, borough);
    }
  }

  // A least end with fewer rows than the answer holds.
  lemma LeastIsNotAll(
    t: Topology, w: Work<Row>, capacity: nat, ids: seq<Node>, raw: seq<Row>, spec: Spec, borough: int)
    requires t.Valid() && Works(t, w) && Enumerates(ids, t) && Spans(t)
    requires Least(t, w, capacity, ids) < |Reference(Keyed(raw), spec, borough)|
    ensures !AlwaysExact(t, w, capacity, raw, spec, borough)
  {
    hide Run, Least, Reference;
    var steps, n := LeastIsDelivered(t, w, capacity, ids, 1);
    var s := Run(t, w, Start(t, capacity), steps + Fetches(1, n));
    FewerIsNotAll(s.delivered, Reference(Keyed(raw), spec, borough));
    assert !ExactAtFinal(Run(t, w, Start(t, capacity), steps + Fetches(1, n)), raw, spec, borough);
  }

  // When nothing matches but a node has rows to send, some run delivers one, unless the buffer
  // takes none at all.
  lemma StrayRows(t: Topology, w: Work<Row>, capacity: nat, ids: seq<Node>, raw: seq<Row>, spec: Spec, borough: int)
    requires t.Valid() && Works(t, w) && Enumerates(ids, t) && Spans(t) && TotalRows(w, ids) > 0
    requires Reference(Keyed(raw), spec, borough) == []
    ensures AlwaysExact(t, w, capacity, raw, spec, borough) <==> capacity == 0
  {
    hide Run, TotalRows;
    if capacity == 0 {
      forall steps ensures ExactAtFinal(Run(t, w, Start(t, 0), steps), raw, spec, borough) {
        NothingWithoutRoom(t, w, steps);
      }
    } else {
      var steps, n := MostIsDelivered(t, w, capacity, ids, 1);
      var s := Run(t, w, Start(t, capacity), steps + Fetches(1, n));
      assert |multiset(Untag(s.delivered))| > 0;
      assert !ExactAtFinal(Run(t, w, Start(t, capacity), steps + Fetches(1, n)), raw, spec, borough);
    }
  }

  // A query that suits every node and matches nothing leaves no node with rows.
  lemma SuitingNothing(t: Topology, w: Work<Row>, ids: seq<Node>, raw: seq<Row>, spec: Spec, borough: int)
    requires ScansPartitions(t, w, ids, raw, spec, borough)
    ensures Reference(Keyed(raw), spec, borough) == [] ==>
      CapHarmless(ids, raw, spec, borough) && EarlyAreEmpty(t, w)
  {
    hide Reference, Flat, CapHarmless;
    WorkAgainstAnswer(t, w, ids, raw, spec, borough);
    if Reference(Keyed(raw), spec, borough) == [] {
      forall r | r in w ensures Flat(w[r]) == [] {
        assert r in ids;
        NoShareOfNothing(w, ids, r);
      }
    }
  }

  lemma {:induction false} NoShareOfNothing<R>(w: Work<R>, ids: seq<Node>, p: Node)
    requires TotalRows(w, ids) == 0 && p in ids && p in w
    ensures Flat(w[p]) == []
  {
    if p != ids[|ids| - 1] { NoShareOfNothing(w, ids[..|ids| - 1], p); }
  }

  // For a borough outside the byte range, one it does not suit has some to send.
  lemma UnsuitedSend(
    t: Topology, w: Work<Row>, ids: seq<Node>, raw: seq<Row>, spec: Spec, engines: map<Node, Engine>,
    polls: nat -> bool)
    requires Posed(t, w, ids, raw, spec, engines, polls)
    requires !(0 <= spec.borough < 0x100) && !AllSuit(ids, raw, spec, engines)
    ensures TotalRows(w, ids) > 0
  {
    var k :| 0 <= k < |ids| && ids[k] in engines && !Suits(engines[ids[k]], Part(raw, |ids|, k), spec);
    QueryEngine.OutOfByte(Part(raw, |ids|, k), spec);
    NodeExactIff(engines[ids[k]], Part(raw, |ids|, k), spec, polls);
    assert ids[k] in ids;
    if TotalRows(w, ids) == 0 { NoShareOfNothing(w, ids, ids[k]); }
  }

  // End-to-end exactness, exactly: every run is exact if and only if no run ends, or the
  // query suits every node's engine and part, max_rows cuts off no node, the whole answer fits
  // the portal's buffer and no neighbour the portal marks early has a match; or nothing
  // matches and nothing can be delivered.
  lemma AnswerIsExactIff(
    t: Topology, w: Work<Row>, capacity: nat, ids: seq<Node>, raw: seq<Row>, spec: Spec, engines: map<Node, Engine>,
    polls: nat -> bool)
    requires Posed(t, w, ids, raw, spec, engines, polls)
    ensures var all := Reference(Keyed(raw), spec, spec.borough);
      AlwaysExact(t, w, capacity, raw, spec, spec.borough) <==>
        || (Spans(t) ==>
              && AllSuit(ids, raw, spec, engines) && CapHarmless(ids, raw, spec, spec.borough)
              && |all| <= capacity && EarlyAreEmpty(t, w))
        || (all == [] && capacity == 0)
  {
    hide Reference, AlwaysExact, NodesScan, CapHarmless, AllSuit, EarlyAreEmpty;
    PosedWorks(t, w, ids, raw, spec, engines, polls);
    NodesScanPartitionsIff(t, w, ids, raw, spec, engines, polls);
    if !Spans(t) {
      NoEndNoError(t, w, capacity, raw, spec, spec.borough);
    } else if AllSuit(ids, raw, spec, engines) {
      ExactIff(t, w, capacity, ids, raw, spec, spec.borough);
      SuitingNothing(t, w, ids, raw, spec, spec.borough);
    } else if 0 <= spec.borough < 0x100 {
      NodesSendIff(t, w, ids, raw, spec, engines, polls);
      LeastIsFewer(t, w, capacity, ids);
      LeastIsNotAll(t, w, capacity, ids, raw, spec, spec.borough);
    } else {
      QueryEngine.OutOfByte(Keyed(raw), spec);
      UnsuitedSend(t, w, ids, raw, spec, engines, polls);
      StrayRows(t, w, capacity, ids, raw, spec, spec.borough);
    }
  }

  // A C++ node sends rows that do not match only for a borough outside the byte range.
  ghost predicate NoStrays(ids: seq<Node>, raw: seq<Row>, spec: Spec, engines: map<Node, Engine>) {
    0 <= spec.borough < 0x100 || AllSuit(ids, raw, spec, engines)
  }

  lemma NothingStray(
    t: Topology, w: Work<Row>, ids: seq<Node>, raw: seq<Row>, spec: Spec, engines: map<Node, Engine>,
    polls: nat -> bool)
    requires Posed(t, w, ids, raw, spec, engines, polls) && NoStrays(ids, raw, spec, engines)
    ensures var all := Reference(Keyed(raw), spec, spec.borough);
      && TotalRows(w, ids) <= |all|
      && (TotalRows(w, ids) == |all|
          <==> AllSuit(ids, raw, spec, engines) && CapHarmless(ids, raw, spec, spec.borough))
  {
    hide Reference, TotalRows, CapHarmless, AllSuit, Keyed, NodesScan;
    if 0 <= spec.borough < 0x100 {
      NodesSendIff(t, w, ids, raw, spec, engines, polls);
    } else {
      NodesScanPartitionsIff(t, w, ids, raw, spec, engines, polls);
      WorkAgainstAnswer(t, w, ids, raw, spec, spec.borough);
    }
  }

  // Then no run delivers more rows than the answer holds, and as many only if they are that
  // answer.
  lemma AsManyIsExact(
    t: Topology, w: Work<Row>, capacity: nat, ids: seq<Node>, raw: seq<Row>, spec: Spec, engines: map<Node, Engine>,
    polls: nat -> bool, steps: seq<Step>)
    requires Posed(t, w, ids, raw, spec, engines, polls) && NoStrays(ids, raw, spec, engines)
    ensures var rows, all := Run(t, w, Start(t, capacity), steps).delivered, Reference(Keyed(raw), spec, spec.borough);
      && |rows| <= |all|
      && (|rows| == |all| <==> multiset(Untag(rows)) == multiset(all))
  {
    hide Run, Reference, Keyed, TotalRows, Gather, WorkShares, SharesOf, NodesScan, CapHarmless, NoStrays, AllSuit;
    var rows, all := Run(t, w, Start(t, capacity), steps).delivered, Reference(Keyed(raw), spec, spec.borough);
    PosedWorks(t, w, ids, raw, spec, engines, polls);
    NothingStray(t, w, ids, raw, spec, engines, polls);
    NoMoreThanThereAre(t, w, capacity, ids, steps);
    if |rows| == |all| {
      NodesScanPartitionsIff(t, w, ids, raw, spec, engines, polls);
      WorkAgainstAnswer(t, w, ids, raw, spec, spec.borough);
      AllIsWhole(t, w, capacity, ids, steps);
      FinalDelivers(t, w, capacity, steps, t.root);
      UntagGathers(rows, ids);
      SharesAreWork(t, w, rows, ids);
    } else {
      FewerIsNotAll(rows, all);
    }
  }

  // So every run is exact exactly when even the least one is.
  lemma ExactIffLeast(
    t: Topology, w: Work<Row>, capacity: nat, ids: seq<Node>, raw: seq<Row>, spec: Spec, engines: map<Node, Engine>,
    polls: nat -> bool)
    requires Posed(t, w, ids, raw, spec, engines, polls) && NoStrays(ids, raw, spec, engines)
    ensures AlwaysExact(t, w, capacity, raw, spec, spec.borough)
      <==> (Spans(t) ==> Least(t, w, capacity, ids) >= |Reference(Keyed(raw), spec, spec.borough)|)
  {
    hide Run, Least, Reference, Keyed, NodesScan, NoStrays;
    PosedWorks(t, w, ids, raw, spec, engines, polls);
    if !Spans(t) {
      NoEndNoError(t, w, capacity, raw, spec, spec.borough);
    } else if Least(t, w, capacity, ids) < |Reference(Keyed(raw), spec, spec.borough)| {
      LeastIsNotAll(t, w, capacity, ids, raw, spec, spec.borough);
    } else {
      forall steps ensures ExactAtFinal(Run(t, w, Start(t, capacity), steps), raw, spec, spec.borough) {
        if Run(t, w, Start(t, capacity), steps).Concluded() {
          LeastDelivered(t, w, capacity, ids, steps);
          AsManyIsExact(t, w, capacity, ids, raw, spec, engines, polls, steps);
        }
      }
    }
  }

  // On an overlay whose portal separates its neighbours nobody is marked early.
  lemma EndToEndExact(
    t: Topology, w: Work<Row>, capacity: nat, ids: seq<Node>, raw: seq<Row>, spec: Spec, engines: map<Node, Engine>,
    polls: nat -> bool)
    requires Posed(t, w, ids, raw, spec, engines, polls) && OverlayTheorems.PortalSeparates(t)
    ensures var all := Reference(Keyed(raw), spec, spec.borough);
      AlwaysExact(t, w, capacity, raw, spec, spec.borough) <==>
        || (Spans(t) ==>
              AllSuit(ids, raw, spec, engines) && CapHarmless(ids, raw, spec, spec.borough) && |all| <= capacity)
        || (all == [] && capacity == 0)
  {
    Rejections.SeparatesIffNoneEarly(t);
    AnswerIsExactIff(t, w, capacity, ids, raw, spec, engines, polls);
  }

  // A tree overlay is such an overlay, whatever its shape.
  lemma TreeIsExact(
    t: Topology, w: Work<Row>, capacity: nat, ids: seq<Node>, raw: seq<Row>, spec: Spec, engines: map<Node, Engine>,
    polls: nat -> bool)
    requires Posed(t, w, ids, raw, spec, engines, polls) && Walks.Acyclic(t)
    ensures var all := Reference(Keyed(raw), spec, spec.borough);
      AlwaysExact(t, w, capacity, raw, spec, spec.borough) <==>
        || (Spans(t) ==>
              AllSuit(ids, raw, spec, engines) && CapHarmless(ids, raw, spec, spec.borough) && |all| <= capacity)
        || (all == [] && capacity == 0)
  {
    Walks.AcyclicSeparates(t);
    EndToEndExact(t, w, capacity, ids, raw, spec, engines, polls);
  }

  // With a match on every node of a connected overlay that is also the only way.
  lemma ExactIffSeparatedAndFits(
    t: Topology, w: Work<Row>, capacity: nat, ids: seq<Node>, raw: seq<Row>, spec: Spec, engines: map<Node, Engine>,
    polls: nat -> bool)
    requires Posed(t, w, ids, raw, spec, engines, polls) && Spans(t)
    requires forall k :: 0 <= k < |ids| ==> Reference(Part(raw, |ids|, k), spec, spec.borough) != []
    ensures AlwaysExact(t, w, capacity, raw, spec, spec.borough) <==>
      && AllSuit(ids, raw, spec, engines) && CapHarmless(ids, raw, spec, spec.borough)
      && |Reference(Keyed(raw), spec, spec.borough)| <= capacity && OverlayTheorems.PortalSeparates(t)
  {
    hide Reference, AlwaysExact, CapHarmless, AllSuit, Keyed, Part;
    AnswerIsExactIff(t, w, capacity, ids, raw, spec, engines, polls);
    PosedWorks(t, w, ids, raw, spec, engines, polls);
    NodesScanPartitionsIff(t, w, ids, raw, spec, engines, polls);
    Rejections.SeparatesIffNoneEarly(t);
    SomeMatch(raw, spec, spec.borough, |ids|);
    if AllSuit(ids, raw, spec, engines) {
      MatchesMakeWork(t, w, ids, raw, spec, spec.borough);
      EarlyNeedRows(t, w);
    }
  }

  // A match in the first part is a match in the whole.
  lemma SomeMatch(raw: seq<Row>, spec: Spec, borough: int, n: nat)
    requires n > 0 && Reference(Part(raw, n, 0), spec, borough) != []
    ensures Reference(Keyed(raw), spec, borough) != []
  {
    hide Gather, Reference, Part, Keyed;
    PartsAnswerWhole(raw, spec, borough, n);
    var answers := Answers(raw, spec, borough, n);
    if Reference(Keyed(raw), spec, borough) == [] {
      GatherSmaller(seq(n, _ => []), answers);
    }
  }

  lemma MatchesMakeWork(t: Topology, w: Work<Row>, ids: seq<Node>, raw: seq<Row>, spec: Spec, borough: int)
    requires ScansPartitions(t, w, ids, raw, spec, borough)
    requires forall k :: 0 <= k < |ids| ==> Reference(Part(raw, |ids|, k), spec, borough) != []
    ensures forall p :: p in w ==> Flat(w[p]) != []
  {
    hide Reference, Part, Flat;
    forall p | p in w ensures Flat(w[p]) != [] {
      assert p in ids;
      var k :| 0 <= k < |ids| && ids[k] == p;
    }
  }

  // max_rows caps each node's rows, not the answer: every node delivers its own first
  // max_rows matches.
  lemma CapIsPerNode(
    t: Topology, w: Work<Row>, capacity: nat, ids: seq<Node>, raw: seq<Row>, spec: Spec, borough: int, steps: seq<Step>,
    k: nat)
    requires t.Valid() && ScansPartitions(t, w, ids, raw, spec, borough) && EarlyAreEmpty(t, w)
    requires TotalRows(w, ids) <= capacity && k < |ids|
    ensures var s := Run(t, w, Start(t, capacity), steps);
      s.Concluded() ==> From(s.delivered, ids[k]) == Capped(Reference(Part(raw, |ids|, k), spec, borough), spec.maxRows)
  {
    FinalGathersAll(t, w, capacity, ids, steps);
    assert ids[k] in ids;
  }
}
