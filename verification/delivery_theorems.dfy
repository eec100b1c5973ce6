// What the client has when the portal first reports final, on every overlay and under
// every interleaving, and exactly when that is everything.

module DeliveryTheorems {
  import Lists
  import opened Rows
  import opened Overlay
  import opened Delivery

  // Every configured node once, in some order.
  ghost predicate Enumerates(ids: seq<Node>, t: Topology) {
    Lists.Distinct(ids) && forall p :: p in ids <==> p in t.peers
  }

  function RowsIn<R>(cs: seq<Chunk<R>>, n: nat): nat
    requires n <= |cs|
  {
    |Flat(cs[..n])|
  }

  // Rows deposited by the listed producers, and rows they have in all.
  function DepositedRows<R>(w: Work<R>, prods: map<Node, Producer>, ids: seq<Node>): nat {
    if ids == [] then 0
    else
      var p := ids[|ids| - 1];
      DepositedRows(w, prods, ids[..|ids| - 1])
      + if p in w && p in prods && DepositedChunks(prods[p]) <= |w[p]|
        then RowsIn(w[p], DepositedChunks(prods[p])) else 0
  }

  function TotalRows<R>(w: Work<R>, ids: seq<Node>): nat {
    if ids == [] then 0
    else
      var p := ids[|ids| - 1];
      TotalRows(w, ids[..|ids| - 1]) + if p in w then |Flat(w[p])| else 0
  }

  // Every row offered to the portal's buffer is delivered, queued or lost; a request that
  // is not live any more has delivered and lost no more rows than there are.
  ghost predicate Counted<R>(w: Work<R>, s: Net<R>, ids: seq<Node>) {
    if s.Live() then |s.delivered| + |s.buf.q| + s.lost == DepositedRows(w, s.prods, ids)
    else
      && |s.delivered| + s.lost <= TotalRows(w, ids)
      && (s.Concluded() && s.fan.rejected == {} ==> |s.delivered| + s.lost == TotalRows(w, ids))
  }

  lemma {:induction false} FlatPrefixShorter<R>(cs: seq<Chunk<R>>, n: nat)
    requires n <= |cs|
    ensures |Flat(cs[..n])| <= |Flat(cs)|
  {
    assert cs == cs[..n] + cs[n..];
    FlatConcat(cs[..n], cs[n..]);
  }

  lemma {:induction false} DepositedAtMostTotal<R>(w: Work<R>, prods: map<Node, Producer>, ids: seq<Node>)
    ensures DepositedRows(w, prods, ids) <= TotalRows(w, ids)
  {
    if ids != [] {
      DepositedAtMostTotal(w, prods, ids[..|ids| - 1]);
      var p := ids[|ids| - 1];
      if p in w && p in prods && DepositedChunks(prods[p]) <= |w[p]| {
        FlatPrefixShorter(w[p], DepositedChunks(prods[p]));
      }
    }
  }

  // Changing one producer's standing changes its own share only.
  lemma {:induction false} DepositedChange<R>(w: Work<R>, prods: map<Node, Producer>, ids: seq<Node>, p: Node,
      prod: Producer)
    requires Lists.Distinct(ids) && p in prods && p in w
    requires DepositedChunks(prods[p]) <= |w[p]| && DepositedChunks(prod) <= |w[p]|
    ensures DepositedRows(w, prods[p := prod], ids) == DepositedRows(w, prods, ids)
      + if p in ids then RowsIn(w[p], DepositedChunks(prod)) - RowsIn(w[p], DepositedChunks(prods[p])) else 0
  {
    if ids != [] {
      var init, last := ids[..|ids| - 1], ids[|ids| - 1];
      assert ids == init + [last];
      DepositedChange(w, prods, init, p, prod);
    }
  }

  lemma {:induction false} AllDeposited<R>(w: Work<R>, prods: map<Node, Producer>, ids: seq<Node>)
    requires forall k :: 0 <= k < |ids| ==>
      ids[k] in w && ids[k] in prods && DepositedChunks(prods[ids[k]]) == |w[ids[k]]|
    ensures DepositedRows(w, prods, ids) == TotalRows(w, ids)
  {
    if ids != [] {
      AllDeposited(w, prods, ids[..|ids| - 1]);
      var p := ids[|ids| - 1];
      assert w[p][..|w[p]|] == w[p];
    }
  }

  lemma {:induction false} NothingDeposited<R>(w: Work<R>, prods: map<Node, Producer>, ids: seq<Node>)
    requires forall k :: 0 <= k < |ids| ==> ids[k] in w && ids[k] in prods && prods[ids[k]] == Producer(0, Idle)
    ensures DepositedRows(w, prods, ids) == 0
  {
    if ids != [] {
      NothingDeposited(w, prods, ids[..|ids| - 1]);
      assert w[ids[|ids| - 1]][..0] == [];
    }
  }

  lemma DepositCounted<R>(t: Topology, w: Work<R>, s: Net<R>, p: Node, ids: seq<Node>)
    requires NetInv(t, w, s) && s.Live() && Counted(w, s, ids) && Enumerates(ids, t)
    requires Running(w, s, p) && s.prods[p].push == InFlight(t.root)
    ensures Counted(w, Deposits(t.root, w, s, p), ids)
    ensures s.lost == 0 && TotalRows(w, ids) <= s.buf.capacity ==> Deposits(t.root, w, s, p).lost == 0
  {
    var s' := Deposits(t.root, w, s, p);
    var chunk := w[p][s.prods[p].sent];
    DepositedChange(w, s.prods, ids, p, s'.prods[p]);
    FlatStep(w[p], s.prods[p].sent);
    DepositedAtMostTotal(w, s'.prods, ids);
    assert p in ids;
  }

  lemma ApplyCounted<R>(t: Topology, w: Work<R>, s: Net<R>, step: Step, ids: seq<Node>)
    requires NetInv(t, w, s) && Counted(w, s, ids) && Enumerates(ids, t)
    ensures Counted(w, Apply(t, w, s, step), ids)
    ensures Apply(t, w, s, step).buf.capacity == s.buf.capacity
    ensures s.lost == 0 && TotalRows(w, ids) <= s.buf.capacity ==> Apply(t, w, s, step).lost == 0
  {
    hide Shape, OpenOk, ClosedOk, FanStep, FanInv, RowsIn, DepositedRows, TotalRows;
    var s' := Apply(t, w, s, step);
    if !s.Live() {
      PastCounted(t, w, s, step, ids);
    } else {
      match step
      case FanOutStep =>
      case Begin(p) => if s' != s { MoveCounted(w, s, p, s'.prods[p], ids); }
      case Hop(p) => if s' != s { MoveCounted(w, s, p, s'.prods[p], ids); }
      case Deposit(p) =>
        if Running(w, s, p) && s.prods[p].push == InFlight(t.root) { DepositCounted(t, w, s, p, ids); }
      case Mark(p) => if s' != s { MoveCounted(w, s, p, s'.prods[p], ids); }
      case Pop(max) =>
      case Check => if !s'.open { CheckCounted(t, w, s, ids); }
      case Cancel => DepositedAtMostTotal(w, s.prods, ids);
    }
  }

  lemma PastCounted<R>(t: Topology, w: Work<R>, s: Net<R>, step: Step, ids: seq<Node>)
    requires NetInv(t, w, s) && Counted(w, s, ids) && !s.Live()
    ensures Counted(w, Apply(t, w, s, step), ids)
    ensures Apply(t, w, s, step).lost == s.lost && Apply(t, w, s, step).buf.capacity == s.buf.capacity
  {
    if s.buf.canceled { ApplyCanceled(t, w, s, step); } else { ApplyClosed(t, w, s, step); }
    hide Shape, ClosedOk, FanStep, TotalRows;
  }

  // A step of a producer that deposits nothing changes no count.
  lemma MoveCounted<R>(w: Work<R>, s: Net<R>, p: Node, prod: Producer, ids: seq<Node>)
    requires Lists.Distinct(ids) && p in s.prods && p in w
    requires DepositedChunks(prod) == DepositedChunks(s.prods[p]) <= |w[p]|
    ensures DepositedRows(w, s.prods[p := prod], ids) == DepositedRows(w, s.prods, ids)
  {
    DepositedChange(w, s.prods, ids, p, prod);
  }

  lemma CheckCounted<R>(t: Topology, w: Work<R>, s: Net<R>, ids: seq<Node>)
    requires NetInv(t, w, s) && Counted(w, s, ids) && Enumerates(ids, t)
    requires s.fan.path == [] && s.Live() && s.buf.Final()
    ensures Counted(w, Apply(t, w, s, Check), ids)
  {
    var s' := Apply(t, w, s, Check);
    CheckCloses(t, w, s);
    DepositedAtMostTotal(w, s.prods, ids);
    if s'.fan.rejected == {} {
      forall k | 0 <= k < |ids|
        ensures ids[k] in w && ids[k] in s.prods && DepositedChunks(s.prods[ids[k]]) == |w[ids[k]]|
      {
        assert ids[k] in ids;
        assert Complete(w, s', ids[k]);
      }
      AllDeposited(w, s.prods, ids);
    }
  }

  lemma {:induction false} EveryRunCounted<R>(t: Topology, w: Work<R>, capacity: nat, steps: seq<Step>, ids: seq<Node>)
    requires t.Valid() && Works(t, w) && Enumerates(ids, t)
    ensures var s := Run(t, w, Start(t, capacity), steps);
      Counted(w, s, ids) && s.buf.capacity == capacity && (TotalRows(w, ids) <= capacity ==> s.lost == 0)
    decreases |steps|
  {
    if steps == [] {
      var s: Net<R> := Start(t, capacity);
      assert forall k :: 0 <= k < |ids| ==> ids[k] in ids;
      NothingDeposited(w, s.prods, ids);
    } else {
      var init := steps[..|steps| - 1];
      EveryRunInv(t, w, capacity, init);
      EveryRunCounted(t, w, capacity, init, ids);
      ApplyCounted(t, w, Run(t, w, Start(t, capacity), init), steps[|steps| - 1], ids);
    }
  }

  // ---- at every moment ----

  // While nothing was refused for space, what the client has of each producer is a
  // prefix of what that producer's scan yields: never a row twice, never out of order.
  lemma {:induction false} EveryRunPrefix<R>(t: Topology, w: Work<R>, capacity: nat, steps: seq<Step>, p: Node)
    requires t.Valid() && Works(t, w) && p in w
    ensures var s := Run(t, w, Start(t, capacity), steps);
      s.lost == 0 ==> From(s.delivered, p) <= Flat(w[p])
    decreases |steps|
  {
    var s := Run(t, w, Start(t, capacity), steps);
    EveryRunInv(t, w, capacity, steps);
    if s.Live() {
      OpenPrefix(t, w, s, p);
    } else {
      var init := steps[..|steps| - 1];
      EveryRunPrefix(t, w, capacity, init, p);
      EveryRunInv(t, w, capacity, init);
      ClosingDelivers(t, w, Run(t, w, Start(t, capacity), init), steps[|steps| - 1]);
    }
  }

  lemma OpenPrefix<R>(t: Topology, w: Work<R>, s: Net<R>, p: Node)
    requires NetInv(t, w, s) && s.Live() && p in w
    ensures s.lost == 0 ==> From(s.delivered, p) <= Flat(w[p])
  {
    hide From, Flat, FanInv;
    if s.lost == 0 {
      assert StreamOk(w, s, p);
      var n := DepositedChunks(s.prods[p]);
      FromConcat(s.delivered, s.buf.q, p);
      assert w[p] == w[p][..n] + w[p][n..];
      FlatConcat(w[p][..n], w[p][n..]);
    }
  }

  // The queue never holds more than the buffer's capacity.
  lemma {:induction false} EveryRunFits<R>(t: Topology, w: Work<R>, capacity: nat, steps: seq<Step>)
    ensures var s := Run(t, w, Start(t, capacity), steps); |s.buf.q| <= s.buf.capacity == capacity
    decreases |steps|
  {
    if steps != [] {
      EveryRunFits(t, w, capacity, steps[..|steps| - 1]);
      ApplyFits(t, w, Run(t, w, Start(t, capacity), steps[..|steps| - 1]), steps[|steps| - 1]);
    }
  }

  lemma ApplyFits<R>(t: Topology, w: Work<R>, s: Net<R>, step: Step)
    requires |s.buf.q| <= s.buf.capacity
    ensures var s' := Apply(t, w, s, step); |s'.buf.q| <= s'.buf.capacity == s.buf.capacity
  {
    hide FanStep;
  }

  // ---- the main results ----

  // When the portal reports final, and no cancel came first, every producer it did not
  // reject has finished, and if nothing was refused for space the client holds exactly its
  // rows, in its order. In no run at all is anything else delivered.
  lemma FinalDelivers<R>(t: Topology, w: Work<R>, capacity: nat, steps: seq<Step>, p: Node)
    requires t.Valid() && Works(t, w) && p in t.peers
    ensures var s := Run(t, w, Start(t, capacity), steps);
      s.Concluded() && p !in s.fan.rejected ==>
        s.prods.Keys == t.peers.Keys && s.prods[p] == Producer(|w[p]|, Idle)
        && (s.lost == 0 ==> From(s.delivered, p) == Flat(w[p]))
    ensures var s := Run(t, w, Start(t, capacity), steps);
      forall k :: 0 <= k < |s.delivered| ==> s.delivered[k].producer in t.peers
  {
    EveryRunInv(t, w, capacity, steps);
    var s := Run(t, w, Start(t, capacity), steps);
    if s.Concluded() && p !in s.fan.rejected {
      assert Complete(w, s, p);
    }
    if s.Live() {
      forall k | 0 <= k < |s.delivered| ensures s.delivered[k].producer in t.peers {
        assert (s.delivered + s.buf.q)[k] == s.delivered[k];
      }
    }
  }

  // Final is stable, after a cancel too: whatever steps follow, nothing more is delivered or accepted.
  lemma {:induction false} FinalIsStable<R>(t: Topology, w: Work<R>, capacity: nat, steps: seq<Step>, more: seq<Step>)
    requires t.Valid() && Works(t, w)
    requires !Run(t, w, Start(t, capacity), steps).open
    ensures var s, s' := Run(t, w, Start(t, capacity), steps), Run(t, w, Start(t, capacity), steps + more);
      !s'.open && s'.delivered == s.delivered && s'.lost == s.lost && s'.fan == s.fan
    decreases |more|
  {
    hide Apply, NetInv;
    if more == [] {
      assert steps + more == steps;
    } else {
      var init := more[..|more| - 1];
      FinalIsStable(t, w, capacity, steps, init);
      assert (steps + more)[..|steps + more| - 1] == steps + init;
      EveryRunInv(t, w, capacity, steps + init);
      ClosingDelivers(t, w, Run(t, w, Start(t, capacity), steps + init), more[|more| - 1]);
    }
  }

  // With no producer rejected and no cancel, the client ends up with every row exactly when the
  // buffer never refused one, which is so whenever all rows together fit it.
  lemma WholeExactlyWhenNothingRefused<R>(t: Topology, w: Work<R>, capacity: nat, steps: seq<Step>, ids: seq<Node>)
    requires t.Valid() && Works(t, w) && Enumerates(ids, t)
    ensures var s := Run(t, w, Start(t, capacity), steps);
      s.Concluded() && s.fan.rejected == {} ==>
        (s.lost == 0 <==> forall p :: p in w ==> From(s.delivered, p) == Flat(w[p]))
    ensures TotalRows(w, ids) <= capacity ==> Run(t, w, Start(t, capacity), steps).lost == 0
  {
    EveryRunCounted(t, w, capacity, steps, ids);
    EveryRunInv(t, w, capacity, steps);
    var s := Run(t, w, Start(t, capacity), steps);
    if s.Concluded() && s.fan.rejected == {} {
      if s.lost == 0 {
        forall p | p in w ensures From(s.delivered, p) == Flat(w[p]) {
          assert Complete(w, s, p);
        }
      }
      if forall p :: p in w ==> From(s.delivered, p) == Flat(w[p]) {
        LengthByProducer(w, s.delivered, ids);
      }
    }
  }

  // Rows of distinct producers are counted once each.
  lemma {:induction false} LengthByProducer<R>(w: Work<R>, rows: seq<Tagged<R>>, ids: seq<Node>)
    requires Lists.Distinct(ids)
    requires forall p :: p in w ==> From(rows, p) == Flat(w[p])
    ensures |rows| >= TotalRows(w, ids)
  {
    SharesFit(rows, ids);
    SharesAreTotals(w, rows, ids);
  }

  function Shares<R>(rows: seq<Tagged<R>>, ids: seq<Node>): nat {
    if ids == [] then 0 else Shares(rows, ids[..|ids| - 1]) + |From(rows, ids[|ids| - 1])|
  }

  lemma {:induction false} SharesAreTotals<R>(w: Work<R>, rows: seq<Tagged<R>>, ids: seq<Node>)
    requires forall p :: p in w ==> From(rows, p) == Flat(w[p])
    ensures Shares(rows, ids) >= TotalRows(w, ids)
  {
    if ids != [] {
      SharesAreTotals(w, rows, ids[..|ids| - 1]);
    }
  }

  lemma {:induction false} SharesFit<R>(rows: seq<Tagged<R>>, ids: seq<Node>)
    requires Lists.Distinct(ids)
    ensures Shares(rows, ids) <= |rows|
    decreases |rows|
  {
    if rows == [] {
      EmptyShares<R>(ids);
    } else {
      SharesFit(rows[..|rows| - 1], ids);
      OneMore(rows, ids);
    }
  }

  lemma {:induction false} EmptyShares<R>(ids: seq<Node>)
    ensures Shares<R>([], ids) == 0
  {
    if ids != [] {
      EmptyShares<R>(ids[..|ids| - 1]);
    }
  }

  lemma {:induction false} OneMore<R>(rows: seq<Tagged<R>>, ids: seq<Node>)
    requires Lists.Distinct(ids) && rows != []
    ensures Shares(rows, ids) == Shares(rows[..|rows| - 1], ids) + if rows[|rows| - 1].producer in ids then 1 else 0
  {
    if ids != [] {
      var init := ids[..|ids| - 1];
      assert ids == init + [ids[|ids| - 1]];
      OneMore(rows, init);
    }
  }
}
