// What the portal's cache holds after any history, and what becomes of a request that is
// answered from it.

module PortalTheorems {
  import opened Options
  import opened Rows
  import ChunkBuffers
  import opened Recency
  import opened RecencyTheorems
  import opened QueryCaches
  import opened PortalCache

  // ---- the cache follows the history ----

  // How a step uses the cache, told from the requests alone: a submission asks for its key,
  // a request that ends and is stored puts what it was delivered.
  function CacheUse(l: Limits, s: Portal, step: PortalStep): seq<CacheOp<Spec, Row>> {
    if step.Submit? then if step.rid in s.reqs then [] else [GetOp(Key(step.spec))]
    else
      var ended := ApplyStep(l, s, step).ended;
      if |ended| > |s.ended| && ended[|ended| - 1].stored
      then [PutOp(ended[|ended| - 1].key, ended[|ended| - 1].delivered)] else []
  }

  function CacheUses(l: Limits, steps: seq<PortalStep>): seq<CacheOp<Spec, Row>> {
    if steps == [] then []
    else
      var init := steps[..|steps| - 1];
      CacheUses(l, init) + CacheUse(l, RunPortal(l, EmptyPortal(), init), steps[|steps| - 1])
  }

  lemma StepUsesCache(l: Limits, s: Portal, step: PortalStep)
    requires PortalInv(l, s)
    ensures |CacheUse(l, s, step)| <= 1
    ensures ApplyStep(l, s, step).items
      == if CacheUse(l, s, step) == [] then s.items
         else Effect(s.items, CacheUse(l, s, step)[0], l.entries, l.entryRows)
  {
    hide Effect, HitReq, MissReq, PushedReq, CanceledReq, DrainedReq, Lookup;
    if step.Finish? && step.rid in s.reqs { assert ReqOk(l, s.ended, s.reqs[step.rid]); }
  }

  lemma RunCacheMore(a: seq<CacheOp<Spec, Row>>, b: seq<CacheOp<Spec, Row>>, l: Limits)
    requires |b| <= 1
    ensures RunCache(a + b, l.entries, l.entryRows)
      == if b == [] then RunCache(a, l.entries, l.entryRows)
         else Effect(RunCache(a, l.entries, l.entryRows), b[0], l.entries, l.entryRows)
  {
    hide Effect;
    if b == [] { assert a + b == a; } else { assert (a + b)[..|a + b| - 1] == a; }
  }

  // Whatever the interleaving, the cache is what those gets and puts leave in it, in order.
  lemma {:induction false} CacheFollowsHistory(l: Limits, steps: seq<PortalStep>)
    ensures RunPortal(l, EmptyPortal(), steps).items == RunCache(CacheUses(l, steps), l.entries, l.entryRows)
    decreases |steps|
  {
    hide ApplyStep, Effect, CacheUse;
    if steps != [] {
      var init, step := steps[..|steps| - 1], steps[|steps| - 1];
      CacheFollowsHistory(l, init);
      EveryRunKeeps(l, init);
      StepUsesCache(l, RunPortal(l, EmptyPortal(), init), step);
      RunCacheMore(CacheUses(l, init), CacheUse(l, RunPortal(l, EmptyPortal(), init), step), l);
    }
  }

  lemma UsedIsFound(items: seq<Item<Spec, seq<Row>>>, item: Item<Spec, seq<Row>>, capacity: nat)
    requires capacity > 0
    ensures Lookup(Used(items, item, capacity), item.key) == Some(item.value)
  {}

  // So right after a request ended and was stored, its spec is answered with its rows.
  lemma StoredIsFound(l: Limits, s: Portal, rid: string)
    requires PortalInv(l, s) && rid in s.reqs && s.reqs[rid].phase.Saw? && s.reqs[rid].buf.Final()
    ensures var s', e := ApplyStep(l, s, Finish(rid)), EndOf(l, s.reqs[rid]);
      && s'.ended == s.ended + [e]
      && if e.stored then Lookup(s'.items, e.key) == Some(e.delivered) else s'.items == s.items
  {
    hide Lookup, Used;
    var r := s.reqs[rid];
    assert ReqOk(l, s.ended, r);
    if EndOf(l, r).stored { UsedIsFound(s.items, Item(Key(r.spec), r.accum), l.entries); }
  }

  // ---- who is answered from it ----

  // The rows of the latest request of this key that was stored.
  function LatestStored(ended: seq<Ended>, key: Spec): Option<seq<Row>> {
    if ended == [] then None
    else
      var e := ended[|ended| - 1];
      if e.stored && e.key == key then Some(e.delivered) else LatestStored(ended[..|ended| - 1], key)
  }

  lemma LatestPutMore(a: seq<CacheOp<Spec, Row>>, b: seq<CacheOp<Spec, Row>>, key: Spec, l: Limits)
    requires |b| <= 1
    ensures LatestPut(a + b, key, l.entries, l.entryRows)
      == if b != [] && b[0].PutOp? && b[0].key == key && l.entries > 0 && |b[0].rows| <= l.entryRows
         then Some(b[0].rows) else LatestPut(a, key, l.entries, l.entryRows)
  {
    if b == [] { assert a + b == a; } else { assert (a + b)[..|a + b| - 1] == a; }
  }

  // A step ends one request at most.
  lemma StepEnds(l: Limits, s: Portal, step: PortalStep) returns (more: seq<Ended>)
    ensures ApplyStep(l, s, step).ended == s.ended + more && |more| <= 1 && (step.Submit? ==> more == [])
  {
    hide HitReq, MissReq, PushedReq, CanceledReq, DrainedReq, Effect, EndOf, Key;
    assert s.ended + [] == s.ended;
    if step.Finish? && step.rid in s.reqs && s.reqs[step.rid].phase.Saw? && s.reqs[step.rid].buf.Final() {
      more := [EndOf(l, s.reqs[step.rid])];
    } else {
      more := [];
    }
  }

  // What a step put is what it stored.
  lemma StepStores(l: Limits, s: Portal, step: PortalStep, key: Spec)
    requires PortalInv(l, ApplyStep(l, s, step))
    ensures var uses := CacheUse(l, s, step);
      LatestStored(ApplyStep(l, s, step).ended, key)
      == if uses != [] && uses[0].PutOp? && uses[0].key == key && l.entries > 0 && |uses[0].rows| <= l.entryRows
         then Some(uses[0].rows) else LatestStored(s.ended, key)
  {
    hide ApplyStep, Key;
    var more := StepEnds(l, s, step);
    var ended := ApplyStep(l, s, step).ended;
    if more == [] {
      assert ended == s.ended;
    } else {
      assert ended[..|ended| - 1] == s.ended;
      assert EndOk(l, ended[..|s.ended|], ended[|s.ended|]);
    }
  }

  lemma {:induction false} LatestPutIsStored(l: Limits, steps: seq<PortalStep>, key: Spec)
    ensures LatestPut(CacheUses(l, steps), key, l.entries, l.entryRows)
      == LatestStored(RunPortal(l, EmptyPortal(), steps).ended, key)
    decreases |steps|
  {
    hide ApplyStep, CacheUse, LatestPut, LatestStored;
    if steps == [] {
      NothingStored(l, key);
    } else {
      var init, step := steps[..|steps| - 1], steps[|steps| - 1];
      var s := RunPortal(l, EmptyPortal(), init);
      LatestPutIsStored(l, init, key);
      EveryRunKeeps(l, init);
      EveryRunKeeps(l, steps);
      StepUsesCache(l, s, step);
      LatestPutMore(CacheUses(l, init), CacheUse(l, s, step), key, l);
      StepStores(l, s, step, key);
    }
  }

  lemma NothingStored(l: Limits, key: Spec)
    ensures LatestPut<Spec, Row>([], key, l.entries, l.entryRows) == None == LatestStored([], key)
  {}

  // After any history a new request is answered from the cache exactly when its key was used
  // before and fewer than `entries` other keys since, and then with what the latest stored
  // request of an equal spec was delivered.
  lemma SubmissionIsAnswered(l: Limits, steps: seq<PortalStep>, rid: string, spec: Spec, expected: nat)
    requires rid !in RunPortal(l, EmptyPortal(), steps).reqs
    ensures var s := RunPortal(l, EmptyPortal(), steps);
      var log := UseLog(CacheUses(l, steps), l.entries, l.entryRows);
      var hit := ApplyStep(l, s, Submit(rid, spec, expected)).reqs[rid].hit;
      && (hit.Some? <==> Lookup(log, Key(spec)).Some? && |Newer(log, Key(spec))| < l.entries)
      && (hit.Some? ==> hit == LatestStored(s.ended, Key(spec)))
  {
    hide Key, Lookup, UseLog, RunCache, CacheUses, RunPortal;
    SubmitRegisters(l, RunPortal(l, EmptyPortal(), steps), rid, spec, expected);
    CacheFollowsHistory(l, steps);
    HitsExactlyWhenRecent(CacheUses(l, steps), Key(spec), l.entries, l.entryRows);
    HitIsLatestPut(CacheUses(l, steps), Key(spec), l.entries, l.entryRows);
    LatestPutIsStored(l, steps, Key(spec));
  }

  // A new request is registered with what the cache has for its key: its buffer then holds
  // that as far as it fits, and nobody is left to wait for. Otherwise it is empty and waits
  // for all its producers.
  lemma SubmitRegisters(l: Limits, s: Portal, rid: string, spec: Spec, expected: nat)
    requires rid !in s.reqs
    ensures var s' := ApplyStep(l, s, Submit(rid, spec, expected));
      && s'.reqs.Keys == s.reqs.Keys + {rid} && (forall other :: other in s.reqs ==> s'.reqs[other] == s.reqs[other])
      && s'.ended == s.ended
      && var r := s'.reqs[rid];
         && r.hit == (if l.entries > 0 then Lookup(s.items, Key(spec)) else None)
         && r.spec == spec && r.phase.NotFetching? && r.delivered == [] && r.accepted == [] && !r.buf.canceled
         && r.buf.capacity == l.bufferRows && r.buf.q == Prefill(l, r.hit)
         && (r.hit.Some? ==> |r.buf.done| >= r.buf.expected)
         && (r.hit.None? ==> r.buf.done == {} && r.buf.expected == expected)
  {
    hide Lookup, Effect, Key;
    var found := Lookup(s.items, Key(spec));
    if found.Some? {
      var fits := found.value[..ChunkBuffers.Min(|found.value|, l.bufferRows)];
      assert [] + fits == fits;
    }
  }

  // ---- a request answered from the cache ends ----

  // As long as it is only fetched.
  ghost predicate HitStands(l: Limits, r: Req, rows: seq<Row>) {
    && r.hit == Some(rows) && !r.buf.canceled && |r.buf.done| >= r.buf.expected && r.phase != Saw(true)
    && r.accepted == [] && r.delivered + r.buf.q == Prefill(l, Some(rows))
  }

  ghost predicate HitEnded(l: Limits, e: Ended, key: Spec, rows: seq<Row>) {
    && e.hit == Some(rows) && e.key == key && !e.canceled && !e.reported
    && e.accepted == [] && e.delivered == Prefill(l, Some(rows))
  }

  predicate Fetching(step: PortalStep) { step.Drain? || step.SeeCanceled? || step.Finish? }

  // Nobody submits under its id again, pushes to it or cancels it.
  ghost predicate OnlyFetched(steps: seq<PortalStep>, rid: string) {
    forall i :: 0 <= i < |steps| && steps[i].rid == rid ==> Fetching(steps[i])
  }

  ghost predicate HitIn(l: Limits, s: Portal, rid: string, key: Spec, rows: seq<Row>) {
    if rid in s.reqs then HitStands(l, s.reqs[rid], rows) && Key(s.reqs[rid].spec) == key
    else exists k :: 0 <= k < |s.ended| && HitEnded(l, s.ended[k], key, rows)
  }

  // A step of another request's leaves this one alone.
  lemma OthersApart(l: Limits, s: Portal, rid: string, other: PortalStep)
    requires other.rid != rid
    ensures var s' := ApplyStep(l, s, other);
      && (rid in s'.reqs <==> rid in s.reqs) && (rid in s.reqs ==> s'.reqs[rid] == s.reqs[rid])
      && s.ended <= s'.ended
  {
    hide PushedReq, CanceledReq, DrainedReq, HitReq, MissReq, EndOf;
  }

  lemma DrainStands(l: Limits, r: Req, rows: seq<Row>, max: nat)
    requires HitStands(l, r, rows)
    ensures HitStands(l, DrainedReq(l, r, max), rows)
  {
    var n := ChunkBuffers.Min(max, |r.buf.q|);
    assert r.buf.q == r.buf.q[..n] + r.buf.q[n..];
    assert (r.delivered + r.buf.q[..n]) + r.buf.q[n..] == r.delivered + r.buf.q;
  }

  // A reading of finality ends it exactly when the last row has been drained.
  lemma FinishEndsDrained(l: Limits, s: Portal, rid: string, rows: seq<Row>)
    requires rid in s.reqs && HitStands(l, s.reqs[rid], rows) && s.reqs[rid].phase.Saw?
    ensures var s', r := ApplyStep(l, s, Finish(rid)), s.reqs[rid];
      && (rid !in s'.reqs <==> r.delivered == Prefill(l, Some(rows)))
      && (rid in s'.reqs ==> s'.reqs[rid] == r.(phase := NotFetching))
      && (rid !in s'.reqs ==> s'.ended == s.ended + [EndOf(l, r)] && HitEnded(l, EndOf(l, r), Key(r.spec), rows))
  {
    hide Effect, Key;
    var r := s.reqs[rid];
    if r.buf.q == [] { assert r.delivered + [] == r.delivered; }
    assert |r.delivered + r.buf.q| == |r.delivered| + |r.buf.q|;
  }

  lemma HitStep(l: Limits, s: Portal, rid: string, key: Spec, rows: seq<Row>, step: PortalStep)
    requires HitIn(l, s, rid, key, rows) && (step.rid == rid ==> Fetching(step))
    ensures HitIn(l, ApplyStep(l, s, step), rid, key, rows)
  {
    hide HitEnded, Effect, Key, HitReq, MissReq, PushedReq, CanceledReq, DrainedReq, EndOf;
    var s' := ApplyStep(l, s, step);
    if step.rid != rid {
      OthersApart(l, s, rid, step);
      if k :| 0 <= k < |s.ended| && HitEnded(l, s.ended[k], key, rows) { assert s'.ended[k] == s.ended[k]; }
    } else if rid in s.reqs {
      var r := s.reqs[rid];
      if step.Drain? {
        DrainStands(l, r, rows, step.max);
        DrainKeepsSpec(l, r, step.max);
      } else if step.Finish? && r.phase.Saw? {
        FinishEndsDrained(l, s, rid, rows);
        if rid !in s'.reqs { assert HitEnded(l, s'.ended[|s.ended|], key, rows); }
      }
    }
  }

  lemma DrainKeepsSpec(l: Limits, r: Req, max: nat)
    ensures DrainedReq(l, r, max).spec == r.spec
  {}

  // Whatever happens to other requests, it stands until it has ended with exactly the cached
  // rows that fit.
  lemma {:induction false} HitKept(
    l: Limits, s: Portal, rid: string, key: Spec, rows: seq<Row>, steps: seq<PortalStep>)
    requires HitIn(l, s, rid, key, rows) && OnlyFetched(steps, rid)
    ensures HitIn(l, RunPortal(l, s, steps), rid, key, rows)
    decreases |steps|
  {
    hide HitIn, ApplyStep;
    if steps != [] {
      HitKept(l, s, rid, key, rows, steps[..|steps| - 1]);
      HitStep(l, RunPortal(l, s, steps[..|steps| - 1]), rid, key, rows, steps[|steps| - 1]);
    }
  }

  // -- how many fetches that takes --

  // The steps that name a request, in order.
  function Own(steps: seq<PortalStep>, rid: string): seq<PortalStep> {
    if steps == [] then []
    else Own(steps[..|steps| - 1], rid) + if steps[|steps| - 1].rid == rid then [steps[|steps| - 1]] else []
  }

  ghost predicate SameRequest(a: Portal, b: Portal, rid: string) {
    (rid in a.reqs <==> rid in b.reqs) && (rid in a.reqs ==> a.reqs[rid] == b.reqs[rid])
  }

  lemma OwnAlike(l: Limits, a: Portal, b: Portal, rid: string, step: PortalStep)
    requires SameRequest(a, b, rid) && step.rid == rid && Fetching(step)
    ensures SameRequest(ApplyStep(l, a, step), ApplyStep(l, b, step), rid)
  {
    hide Effect, DrainedReq, EndOf;
  }

  // Steps that name others do not matter to it.
  lemma {:induction false} OthersDoNotMatter(l: Limits, s: Portal, rid: string, steps: seq<PortalStep>)
    requires OnlyFetched(steps, rid)
    ensures SameRequest(RunPortal(l, s, steps), RunPortal(l, s, Own(steps, rid)), rid)
    decreases |steps|
  {
    hide ApplyStep;
    if steps != [] {
      var init, step := steps[..|steps| - 1], steps[|steps| - 1];
      OthersDoNotMatter(l, s, rid, init);
      if step.rid == rid {
        assert (Own(init, rid) + [step])[..|Own(init, rid)|] == Own(init, rid);
        OwnAlike(l, RunPortal(l, s, init), RunPortal(l, s, Own(init, rid)), rid, step);
      } else {
        assert Own(init, rid) + [] == Own(init, rid);
        OthersApart(l, RunPortal(l, s, init), rid, step);
      }
    }
  }

  // n fetches of m rows, one after the other.
  function FetchSteps(rid: string, m: nat, n: nat): seq<PortalStep> {
    if n == 0 then [] else FetchSteps(rid, m, n - 1) + [Drain(rid, m), SeeCanceled(rid), Finish(rid)]
  }

  lemma OneMore(l: Limits, s: Portal, steps: seq<PortalStep>, step: PortalStep)
    ensures RunPortal(l, s, steps + [step]) == ApplyStep(l, RunPortal(l, s, steps), step)
  {
    hide ApplyStep;
    assert (steps + [step])[..|steps|] == steps;
  }

  lemma {:induction false} RunPortalConcat(l: Limits, s: Portal, a: seq<PortalStep>, b: seq<PortalStep>)
    ensures RunPortal(l, s, a + b) == RunPortal(l, RunPortal(l, s, a), b)
    decreases |b|
  {
    hide ApplyStep;
    if b == [] {
      assert a + b == a;
    } else {
      assert (a + b)[..|a + b| - 1] == a + b[..|b| - 1];
      RunPortalConcat(l, s, a, b[..|b| - 1]);
    }
  }

  lemma ThreeMore(l: Limits, s: Portal, steps: seq<PortalStep>, a: PortalStep, b: PortalStep, c: PortalStep)
    ensures RunPortal(l, s, steps + [a, b, c])
      == ApplyStep(l, ApplyStep(l, ApplyStep(l, RunPortal(l, s, steps), a), b), c)
  {
    hide ApplyStep, RunPortal;
    OneMore(l, s, steps, a);
    OneMore(l, s, steps + [a], b);
    OneMore(l, s, steps + [a] + [b], c);
    assert steps + [a, b, c] == steps + [a] + [b] + [c];
  }

  // One fetch drains m more rows, or the rest and ends it.
  lemma FetchOnce(l: Limits, s: Portal, rid: string, rows: seq<Row>, m: nat)
    requires rid in s.reqs && HitStands(l, s.reqs[rid], rows) && s.reqs[rid].phase.NotFetching?
    ensures var all, had := Prefill(l, Some(rows)), |s.reqs[rid].delivered|;
      var s' := ApplyStep(l, ApplyStep(l, ApplyStep(l, s, Drain(rid, m)), SeeCanceled(rid)), Finish(rid));
      && (rid in s'.reqs <==> had + m < |all|)
      && (rid in s'.reqs ==>
            && HitStands(l, s'.reqs[rid], rows) && s'.reqs[rid].phase.NotFetching?
            && s'.reqs[rid].delivered == all[..had + m])
  {
    hide Effect, Key, Prefill;
    var r := s.reqs[rid];
    DrainStands(l, r, rows, m);
    var s2 := ApplyStep(l, ApplyStep(l, s, Drain(rid, m)), SeeCanceled(rid));
    var r2 := s2.reqs[rid];
    assert HitStands(l, r2, rows) && r2.phase == Saw(false);
    assert |r2.delivered| == |r.delivered| + ChunkBuffers.Min(m, |r.buf.q|);
    assert r2.delivered == (r2.delivered + r2.buf.q)[..|r2.delivered|];
    assert (r2.delivered + r2.buf.q)[..|r2.delivered + r2.buf.q|] == r2.delivered + r2.buf.q;
    FinishEndsDrained(l, s2, rid, rows);
  }

  lemma {:induction false} AfterFetches(l: Limits, s: Portal, rid: string, rows: seq<Row>, m: nat, n: nat)
    requires rid in s.reqs && HitStands(l, s.reqs[rid], rows) && s.reqs[rid].phase.NotFetching?
    requires s.reqs[rid].delivered == []
    ensures var all, s' := Prefill(l, Some(rows)), RunPortal(l, s, FetchSteps(rid, m, n));
      && (rid in s'.reqs <==> n == 0 || m * n < |all|)
      && (rid in s'.reqs ==>
            && HitStands(l, s'.reqs[rid], rows) && s'.reqs[rid].phase.NotFetching?
            && m * n <= |all| && s'.reqs[rid].delivered == all[..m * n])
    decreases n
  {
    hide ApplyStep, HitStands, Prefill;
    if n > 0 {
      AfterFetches(l, s, rid, rows, m, n - 1);
      var before := RunPortal(l, s, FetchSteps(rid, m, n - 1));
      assert m * n == m * (n - 1) + m;
      ThreeMore(l, s, FetchSteps(rid, m, n - 1), Drain(rid, m), SeeCanceled(rid), Finish(rid));
      if rid in before.reqs {
        FetchOnce(l, before, rid, rows, m);
      } else {
        GoneStays(l, before, rid, m);
      }
    }
  }

  lemma GoneStays(l: Limits, s: Portal, rid: string, m: nat)
    requires rid !in s.reqs
    ensures ApplyStep(l, ApplyStep(l, ApplyStep(l, s, Drain(rid, m)), SeeCanceled(rid)), Finish(rid)) == s
  {}

  // A request answered from the cache that is only fetched, m rows at a time, whatever the
  // other requests do in between, has ended after n fetches exactly when n fetches drain all
  // the cached rows that fit its buffer; it has then delivered them, and no cancel.
  lemma HitEndsExactly(
    l: Limits, s: Portal, rid: string, spec: Spec, expected: nat, steps: seq<PortalStep>, m: nat, n: nat)
    requires rid !in s.reqs && l.entries > 0 && Lookup(s.items, Key(spec)).Some?
    requires OnlyFetched(steps, rid) && Own(steps, rid) == FetchSteps(rid, m, n)
    ensures var rows := Lookup(s.items, Key(spec)).value;
      var s' := RunPortal(l, ApplyStep(l, s, Submit(rid, spec, expected)), steps);
      && (rid !in s'.reqs <==> n > 0 && m * n >= ChunkBuffers.Min(|rows|, l.bufferRows))
      && (rid !in s'.reqs ==> exists k :: 0 <= k < |s'.ended| && HitEnded(l, s'.ended[k], Key(spec), rows))
  {
    hide ApplyStep, RunPortal, Lookup, Key, HitEnded;
    var rows, s1 := Lookup(s.items, Key(spec)).value, ApplyStep(l, s, Submit(rid, spec, expected));
    SubmitRegisters(l, s, rid, spec, expected);
    assert [] + s1.reqs[rid].buf.q == s1.reqs[rid].buf.q;
    HitKept(l, s1, rid, Key(spec), rows, steps);
    OthersDoNotMatter(l, s1, rid, steps);
    AfterFetches(l, s1, rid, rows, m, n);
  }
}
