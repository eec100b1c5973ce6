// The portal's requests and its result cache: submitting, pushing into a request's
// buffer, cancelling, and fetching. A fetch takes three looks at shared state (it drains
// rows, reads the canceled flag, then reads finality), so each look is a step of its own
// and anything may happen in between.

module PortalCache {
  import opened Options
  import opened Rows
  import opened ChunkBuffers
  import opened Recency
  import opened RecencyTheorems
  import opened QueryCaches

  // How far the fetch in progress on a request has got. Fetches of one request follow
  // each other.
  datatype Phase = NotFetching | Drained | Saw(canceled: bool)

  // `hit` is the cached result a request was answered from. What was delivered to the
  // client, what a cancel cleared from the queue and what the buffer accepted of the pushes
  // are kept as an account.
  datatype Req = Req(
    spec: Spec, buf: Buf<Row>, collect: bool, accum: seq<Row>, phase: Phase,
    hit: Option<seq<Row>>, delivered: seq<Row>, cleared: seq<Row>, accepted: seq<Row>)

  // A request that ended: what its last fetch reported of a cancel and whether the buffer
  // was in fact canceled when finality was read, and whether its rows went to the cache.
  datatype Ended = Ended(
    key: Spec, hit: Option<seq<Row>>, delivered: seq<Row>, cleared: seq<Row>, accepted: seq<Row>,
    reported: bool, canceled: bool, stored: bool)

  datatype Limits = Limits(bufferRows: nat, entries: nat, entryRows: nat)

  datatype Portal = Portal(reqs: map<string, Req>, items: seq<Item<Spec, seq<Row>>>, ended: seq<Ended>)

  datatype PortalStep =
    | Submit(rid: string, spec: Spec, expected: nat)
    | Deposit(rid: string, rows: seq<Row>)
    | MarkDone(rid: string, producer: string)
    | CancelRequest(rid: string)
    | Drain(rid: string, max: nat)
    | SeeCanceled(rid: string)
    | Finish(rid: string)

  // What a request's buffer starts with.
  function Prefill(l: Limits, hit: Option<seq<Row>>): seq<Row> {
    if hit.Some? then hit.value[..Min(|hit.value|, l.bufferRows)] else []
  }

  function EmptyBuf(l: Limits, expected: nat): Buf<Row> { Buf(l.bufferRows, expected, [], {}, {}, 0, false) }

  // A request answered from the cache: all its rows, as far as they fit, and its one
  // producer already done.
  function HitReq(l: Limits, spec: Spec, rows: seq<Row>): Req {
    var buf := EmptyBuf(l, 1).Push(rows).MarkDone("__cache__");
    Req(spec, buf, false, [], NotFetching, Some(rows), [], [], [])
  }

  function MissReq(l: Limits, spec: Spec, expected: nat): Req {
    Req(spec, EmptyBuf(l, expected), true, [], NotFetching, None, [], [], [])
  }

  function PushedReq(r: Req, rows: seq<Row>): Req {
    r.(buf := r.buf.Push(rows), accepted := r.accepted + if r.buf.canceled then [] else rows[..r.buf.Room(|rows|)])
  }

  function CanceledReq(r: Req): Req { r.(buf := r.buf.Cancel(), cleared := r.cleared + r.buf.q) }

  // The rows drained are also collected for the cache, until they are too many.
  function DrainedReq(l: Limits, r: Req, max: nat): Req {
    var rows := r.buf.q[..Min(max, |r.buf.q|)];
    var fits := r.collect && |r.accum| + |rows| <= l.entryRows;
    r.(buf := r.buf.Pop(max), phase := Drained, delivered := r.delivered + rows,
       collect := fits, accum := if fits then r.accum + rows else if r.collect then [] else r.accum)
  }

  function EndOf(l: Limits, r: Req): Ended
    requires r.phase.Saw?
  {
    Ended(Key(r.spec), r.hit, r.delivered, r.cleared, r.accepted, r.phase.canceled, r.buf.canceled,
      r.collect && !r.phase.canceled && l.entries > 0)
  }

  // A step that is not possible changes nothing.
  function ApplyStep(l: Limits, s: Portal, step: PortalStep): Portal {
    match step
    case Submit(rid, spec, expected) =>
      if rid in s.reqs then s
      else
        var found := Lookup(s.items, Key(spec));
        var req := if l.entries > 0 && found.Some? then HitReq(l, spec, found.value) else MissReq(l, spec, expected);
        s.(reqs := s.reqs[rid := req], items := Effect(s.items, GetOp(Key(spec)), l.entries, l.entryRows))
    case Deposit(rid, rows) =>
      if rid in s.reqs then s.(reqs := s.reqs[rid := PushedReq(s.reqs[rid], rows)]) else s
    case MarkDone(rid, producer) =>
      if rid in s.reqs then
        s.(reqs := s.reqs[rid := s.reqs[rid].(buf := s.reqs[rid].buf.MarkDone(producer))])
      else s
    case CancelRequest(rid) =>
      if rid in s.reqs then s.(reqs := s.reqs[rid := CanceledReq(s.reqs[rid])]) else s
    case Drain(rid, max) =>
      if rid in s.reqs && s.reqs[rid].phase.NotFetching? then
        s.(reqs := s.reqs[rid := DrainedReq(l, s.reqs[rid], max)])
      else s
    case SeeCanceled(rid) =>
      if rid in s.reqs && s.reqs[rid].phase.Drained? then
        s.(reqs := s.reqs[rid := s.reqs[rid].(phase := Saw(s.reqs[rid].buf.canceled))])
      else s
    case Finish(rid) =>
      if rid in s.reqs && s.reqs[rid].phase.Saw? then
        var r := s.reqs[rid];
        if r.buf.Final() then
          Portal(s.reqs - {rid},
            if EndOf(l, r).stored then Effect(s.items, PutOp(Key(r.spec), r.accum), l.entries, l.entryRows)
            else s.items,
            s.ended + [EndOf(l, r)])
        else s.(reqs := s.reqs[rid := r.(phase := NotFetching)])
      else s
  }

  function RunPortal(l: Limits, s: Portal, steps: seq<PortalStep>): Portal {
    if steps == [] then s else ApplyStep(l, RunPortal(l, s, steps[..|steps| - 1]), steps[|steps| - 1])
  }

  // ---- what every interleaving keeps ----

  // These are the rows delivered to a request of this key that ended and was stored.
  ghost predicate Backed(ended: seq<Ended>, key: Spec, rows: seq<Row>) {
    exists k :: 0 <= k < |ended| && ended[k].stored && ended[k].key == key && ended[k].delivered == rows
  }

  // A hit is a result stored for an equal spec.
  ghost predicate HitOk(l: Limits, ended: seq<Ended>, key: Spec, hit: Option<seq<Row>>) {
    hit.Some? ==> Backed(ended, key, hit.value) && |hit.value| <= l.entryRows
  }

  // Collecting holds exactly while everything delivered so far would be stored.
  ghost predicate ReqOk(l: Limits, ended: seq<Ended>, r: Req) {
    && (r.collect <==> r.hit.None? && |r.delivered| <= l.entryRows)
    && (r.collect ==> r.accum == r.delivered)
    && (if r.buf.canceled then r.buf.q == [] && r.delivered + r.cleared == Prefill(l, r.hit) + r.accepted
        else r.cleared == [] && r.delivered + r.buf.q == Prefill(l, r.hit) + r.accepted)
    && (r.phase == Saw(true) ==> r.buf.canceled)
    && HitOk(l, ended, Key(r.spec), r.hit)
  }

  // A request that ended delivered all its buffer ever held but what a cancel cleared.
  ghost predicate EndOk(l: Limits, before: seq<Ended>, e: Ended) {
    && (e.stored <==> e.hit.None? && !e.reported && |e.delivered| <= l.entryRows && l.entries > 0)
    && (e.reported ==> e.canceled)
    && e.delivered + e.cleared == Prefill(l, e.hit) + e.accepted
    && (!e.canceled ==> e.cleared == [])
    && HitOk(l, before, e.key, e.hit)
  }

  ghost predicate PortalInv(l: Limits, s: Portal) {
    && (forall rid {:trigger s.reqs[rid]} :: rid in s.reqs ==> ReqOk(l, s.ended, s.reqs[rid]))
    && (forall i :: 0 <= i < |s.items| ==> ItemOk(l, s.ended, s.items[i]))
    && (forall k :: 0 <= k < |s.ended| ==> EndOk(l, s.ended[..k], s.ended[k]))
  }

  ghost predicate ItemOk(l: Limits, ended: seq<Ended>, item: Item<Spec, seq<Row>>) {
    Backed(ended, item.key, item.value) && |item.value| <= l.entryRows
  }

  lemma {:induction false} LookupIsItem(items: seq<Item<Spec, seq<Row>>>, key: Spec)
    ensures var found := Lookup(items, key); found.Some? ==> Item(key, found.value) in items
  {
    if items != [] && items[0].key != key {
      LookupIsItem(items[1..], key);
    }
  }

  lemma UsedHolds(items: seq<Item<Spec, seq<Row>>>, item: Item<Spec, seq<Row>>, capacity: nat)
    ensures forall x :: x in Used(items, item, capacity) ==> x == item || x in items
  {
    WithoutHolds(items, item.key);
    var all := [item] + Without(items, item.key);
    assert forall x :: x in all ==> x == item || x in Without(items, item.key);
  }

  // Using the cache brings in nothing but the item put.
  lemma EffectHolds(items: seq<Item<Spec, seq<Row>>>, op: CacheOp<Spec, Row>, l: Limits)
    ensures forall x :: x in Effect(items, op, l.entries, l.entryRows) ==>
      x in items || (op.PutOp? && x == Item(op.key, op.rows) && |op.rows| <= l.entryRows)
  {
    match op
    case GetOp(key) =>
      LookupIsItem(items, key);
      if Lookup(items, key).Some? { UsedHolds(items, Item(key, Lookup(items, key).value), l.entries); }
    case PutOp(key, rows) => UsedHolds(items, Item(key, rows), l.entries);
  }

  lemma BackedMore(ended: seq<Ended>, more: seq<Ended>, key: Spec, rows: seq<Row>)
    requires Backed(ended, key, rows) && ended <= more
    ensures Backed(more, key, rows)
  {
    var k :| 0 <= k < |ended| && ended[k].stored && ended[k].key == key && ended[k].delivered == rows;
    assert more[k] == ended[k];
  }

  lemma ReqOkMore(l: Limits, ended: seq<Ended>, more: seq<Ended>, r: Req)
    requires ReqOk(l, ended, r) && ended <= more
    ensures ReqOk(l, more, r)
  {
    if r.hit.Some? { BackedMore(ended, more, Key(r.spec), r.hit.value); }
  }

  lemma HitReqOk(l: Limits, ended: seq<Ended>, spec: Spec, rows: seq<Row>)
    requires Backed(ended, Key(spec), rows) && |rows| <= l.entryRows
    ensures ReqOk(l, ended, HitReq(l, spec, rows))
  {
    var r := HitReq(l, spec, rows);
    assert r.buf.q == [] + rows[..Min(|rows|, l.bufferRows)];
    assert r.delivered + r.buf.q == Prefill(l, r.hit) + r.accepted;
  }

  lemma PushedOk(l: Limits, ended: seq<Ended>, r: Req, rows: seq<Row>)
    requires ReqOk(l, ended, r)
    ensures ReqOk(l, ended, PushedReq(r, rows))
  {
    if !r.buf.canceled {
      var took := rows[..r.buf.Room(|rows|)];
      assert r.delivered + (r.buf.q + took) == (r.delivered + r.buf.q) + took;
      assert Prefill(l, r.hit) + (r.accepted + took) == (Prefill(l, r.hit) + r.accepted) + took;
    } else {
      assert r.accepted + [] == r.accepted;
    }
  }

  lemma CanceledOk(l: Limits, ended: seq<Ended>, r: Req)
    requires ReqOk(l, ended, r)
    ensures ReqOk(l, ended, CanceledReq(r))
  {
    assert [] + r.buf.q == r.buf.q && r.cleared + [] == r.cleared;
  }

  lemma DrainedOk(l: Limits, ended: seq<Ended>, r: Req, max: nat)
    requires ReqOk(l, ended, r) && r.phase.NotFetching?
    ensures ReqOk(l, ended, DrainedReq(l, r, max))
  {
    var n := Min(max, |r.buf.q|);
    var rows := r.buf.q[..n];
    assert r.buf.q == rows + r.buf.q[n..];
    assert (r.delivered + rows) + r.buf.q[n..] == r.delivered + r.buf.q;
    if r.buf.canceled { assert rows == [] && r.delivered + rows == r.delivered && r.buf.q[n..] == []; }
  }

  // Marking a producer, or moving the fetch on, changes nothing that matters.
  lemma MovedOk(l: Limits, ended: seq<Ended>, r: Req, done: set<string>, phase: Phase)
    requires ReqOk(l, ended, r) && (phase == Saw(true) ==> r.buf.canceled)
    ensures ReqOk(l, ended, r.(buf := r.buf.(done := done), phase := phase))
  {}

  lemma StepKeepsReqs(l: Limits, s: Portal, step: PortalStep, rid: string)
    requires PortalInv(l, s) && rid in s.reqs && rid in ApplyStep(l, s, step).reqs
    ensures ReqOk(l, s.ended, ApplyStep(l, s, step).reqs[rid])
  {
    var r := s.reqs[rid];
    assert ReqOk(l, s.ended, r);
    hide ReqOk, PortalInv, PushedReq, DrainedReq, CanceledReq, HitReq, MissReq, Effect, EndOf;
    match step
    case Submit(_, _, _) =>
    case Deposit(at, rows) => if at == rid { PushedOk(l, s.ended, r, rows); }
    case MarkDone(at, producer) =>
      if at == rid {
        SawIsCanceled(l, s.ended, r);
        MovedOk(l, s.ended, r, r.buf.done + {producer}, r.phase);
      }
    case CancelRequest(_) => CanceledOk(l, s.ended, r);
    case Drain(at, max) => if at == rid && r.phase.NotFetching? { DrainedOk(l, s.ended, r, max); }
    case SeeCanceled(at) => if at == rid { MovedOk(l, s.ended, r, r.buf.done, Saw(r.buf.canceled)); }
    case Finish(at) => if at == rid { MovedOk(l, s.ended, r, r.buf.done, NotFetching); }
  }

  lemma SawIsCanceled(l: Limits, ended: seq<Ended>, r: Req)
    requires ReqOk(l, ended, r)
    ensures r.phase == Saw(true) ==> r.buf.canceled
  {}

  // A submission answered from the cache is answered with a stored result.
  lemma SubmitOk(l: Limits, s: Portal, rid: string, spec: Spec, expected: nat)
    requires PortalInv(l, s) && rid !in s.reqs
    ensures ReqOk(l, s.ended, ApplyStep(l, s, Submit(rid, spec, expected)).reqs[rid])
  {
    var found := Lookup(s.items, Key(spec));
    if l.entries > 0 && found.Some? {
      LookupIsItem(s.items, Key(spec));
      var i :| 0 <= i < |s.items| && s.items[i] == Item(Key(spec), found.value);
      assert ItemOk(l, s.ended, s.items[i]);
      HitReqOk(l, s.ended, spec, found.value);
    }
  }

  lemma EndIsOk(l: Limits, ended: seq<Ended>, r: Req)
    requires ReqOk(l, ended, r) && r.phase.Saw? && r.buf.Final()
    ensures EndOk(l, ended, EndOf(l, r))
  {
    assert r.delivered + [] == r.delivered;
  }

  lemma FinishInv(l: Limits, s: Portal, rid: string)
    requires PortalInv(l, s) && rid in s.reqs && s.reqs[rid].phase.Saw? && s.reqs[rid].buf.Final()
    ensures PortalInv(l, ApplyStep(l, s, Finish(rid)))
  {
    var r, s' := s.reqs[rid], ApplyStep(l, s, Finish(rid));
    var e := EndOf(l, r);
    EndIsOk(l, s.ended, r);
    forall other | other in s'.reqs ensures ReqOk(l, s'.ended, s'.reqs[other]) {
      ReqOkMore(l, s.ended, s'.ended, s.reqs[other]);
    }
    EffectHolds(s.items, PutOp(Key(r.spec), r.accum), l);
    forall i | 0 <= i < |s'.items| ensures ItemOk(l, s'.ended, s'.items[i]) {
      var item := s'.items[i];
      assert item in s'.items;
      if item in s.items {
        var j :| 0 <= j < |s.items| && s.items[j] == item;
        BackedMore(s.ended, s'.ended, item.key, item.value);
      } else {
        assert s'.ended[|s.ended|] == e;
      }
    }
    forall k | 0 <= k < |s'.ended| ensures EndOk(l, s'.ended[..k], s'.ended[k]) {
      if k < |s.ended| { assert s'.ended[..k] == s.ended[..k]; } else { assert s'.ended[..k] == s.ended; }
    }
  }

  lemma ApplyStepInv(l: Limits, s: Portal, step: PortalStep)
    requires PortalInv(l, s)
    ensures PortalInv(l, ApplyStep(l, s, step))
  {
    var s' := ApplyStep(l, s, step);
    if step.Finish? && step.rid in s.reqs && s.reqs[step.rid].phase.Saw? && s.reqs[step.rid].buf.Final() {
      FinishInv(l, s, step.rid);
    } else {
      assert s'.ended == s.ended;
      forall rid | rid in s'.reqs ensures ReqOk(l, s'.ended, s'.reqs[rid]) {
        if rid in s.reqs { StepKeepsReqs(l, s, step, rid); } else { SubmitOk(l, s, rid, step.spec, step.expected); }
      }
      if step.Submit? {
        EffectHolds(s.items, GetOp(Key(step.spec)), l);
        forall i | 0 <= i < |s'.items| ensures ItemOk(l, s'.ended, s'.items[i]) {
          assert s'.items[i] in s'.items;
        }
      }
    }
  }

  function EmptyPortal(): Portal { Portal(map[], [], []) }

  lemma {:induction false} RunKeeps(l: Limits, s: Portal, steps: seq<PortalStep>)
    requires PortalInv(l, s)
    ensures PortalInv(l, RunPortal(l, s, steps))
    decreases |steps|
  {
    if steps != [] {
      RunKeeps(l, s, steps[..|steps| - 1]);
      ApplyStepInv(l, RunPortal(l, s, steps[..|steps| - 1]), steps[|steps| - 1]);
    }
  }

  lemma EveryRunKeeps(l: Limits, steps: seq<PortalStep>)
    ensures PortalInv(l, RunPortal(l, EmptyPortal(), steps))
  {
    RunKeeps(l, EmptyPortal(), steps);
  }

  // ---- what the cache promises ----

  // A cancel fell after the fetch had read the flag and before it read finality.
  predicate Raced(e: Ended) { e.canceled && !e.reported }

  // Every cached result is the whole sequence of rows delivered to an earlier request with
  // an equal spec; and that is everything the request's buffer accepted exactly when no
  // row was cleared by a cancel, which only one racing its last fetch can have done.
  lemma EntriesAreEarlierAnswers(l: Limits, steps: seq<PortalStep>, i: nat) returns (e: Ended)
    requires i < |RunPortal(l, EmptyPortal(), steps).items|
    ensures var s := RunPortal(l, EmptyPortal(), steps);
      && e in s.ended && e.stored && e.hit.None? && e.key == s.items[i].key && e.delivered == s.items[i].value
      && |e.delivered| <= l.entryRows
      && (e.delivered == e.accepted <==> e.cleared == [])
      && (e.cleared != [] ==> Raced(e))
  {
    EveryRunKeeps(l, steps);
    var s := RunPortal(l, EmptyPortal(), steps);
    assert ItemOk(l, s.ended, s.items[i]);
    var k :| 0 <= k < |s.ended| && s.ended[k].stored && s.ended[k].key == s.items[i].key
      && s.ended[k].delivered == s.items[i].value;
    assert EndOk(l, s.ended[..k], s.ended[k]);
    e := s.ended[k];
    assert [] + e.accepted == e.accepted;
    WholeUnlessCleared(e);
  }

  lemma WholeUnlessCleared(e: Ended)
    requires e.delivered + e.cleared == e.accepted
    ensures e.delivered == e.accepted <==> e.cleared == []
  {
    if e.cleared != [] { assert |e.accepted| > |e.delivered|; }
  }

  // A request that ended is stored exactly when it was forwarded, was not reported
  // canceled, delivered no more rows than an entry may have, and there may be entries.
  lemma StoredExactlyWhen(l: Limits, steps: seq<PortalStep>, k: nat)
    requires k < |RunPortal(l, EmptyPortal(), steps).ended|
    ensures var e := RunPortal(l, EmptyPortal(), steps).ended[k];
      e.stored <==> e.hit.None? && !e.reported && |e.delivered| <= l.entryRows && l.entries > 0
  {
    EveryRunKeeps(l, steps);
    assert EndOk(l, RunPortal(l, EmptyPortal(), steps).ended[..k], RunPortal(l, EmptyPortal(), steps).ended[k]);
  }

  // A request answered from the cache that ends uncanceled has delivered the rows an earlier
  // request with an equal spec was delivered, as far as they fit the buffer, and then
  // whatever was pushed to it. When nothing was, it has delivered that result exactly when
  // the entry is no longer than the buffer.
  lemma HitRepeatsEarlierAnswer(l: Limits, steps: seq<PortalStep>, k: nat) returns (j: nat)
    requires k < |RunPortal(l, EmptyPortal(), steps).ended|
    requires RunPortal(l, EmptyPortal(), steps).ended[k].hit.Some?
      && !RunPortal(l, EmptyPortal(), steps).ended[k].canceled
    ensures var ended := RunPortal(l, EmptyPortal(), steps).ended;
      && j < k && ended[j].stored && ended[j].key == ended[k].key && ended[k].hit == Some(ended[j].delivered)
      && ended[k].delivered == ended[j].delivered[..Min(|ended[j].delivered|, l.bufferRows)] + ended[k].accepted
      && (ended[k].accepted == [] ==>
            && (ended[k].delivered == ended[j].delivered <==> |ended[j].delivered| <= l.bufferRows)
            && (l.entryRows <= l.bufferRows ==> ended[k].delivered == ended[j].delivered))
  {
    EveryRunKeeps(l, steps);
    var ended := RunPortal(l, EmptyPortal(), steps).ended;
    assert EndOk(l, ended[..k], ended[k]);
    var rows := ended[k].hit.value;
    j :| 0 <= j < k && ended[..k][j].stored && ended[..k][j].key == ended[k].key && ended[..k][j].delivered == rows;
    assert ended[k].delivered + [] == ended[k].delivered;
    if |rows| <= l.bufferRows { assert rows[..|rows|] == rows; }
    if ended[k].accepted == [] { assert Prefill(l, ended[k].hit) + [] == Prefill(l, ended[k].hit); }
  }

  lemma Then(l: Limits, steps: seq<PortalStep>, s: Portal, step: PortalStep) returns (s': Portal)
    requires RunPortal(l, EmptyPortal(), steps) == s
    ensures RunPortal(l, EmptyPortal(), steps + [step]) == s' == ApplyStep(l, s, step)
  {
    assert (steps + [step])[..|steps|] == steps;
    s' := ApplyStep(l, s, step);
  }

  // A fetch that found the queue empty and read the flag as not canceled, and a row that
  // arrived in between.
  lemma ReadyToRace(l: Limits, spec: Spec, r: Row, max: nat) returns (steps: seq<PortalStep>)
    requires l.bufferRows > 0
    ensures RunPortal(l, EmptyPortal(), steps)
      == Portal(map["q" := Req(spec, EmptyBuf(l, 1).(q := [r]), true, [], Saw(false), None, [], [], [r])], [], [])
    ensures forall i :: 0 <= i < |steps| && steps[i].Drain? ==> steps[i].max == max
  {
    var q, miss := "q", MissReq(l, spec, 1);
    var s1 := Then(l, [], EmptyPortal(), Submit(q, spec, 1));
    assert s1 == Portal(map[q := miss], [], []);
    var s2 := Then(l, [Submit(q, spec, 1)], s1, Drain(q, max));
    assert s2 == Portal(map[q := miss.(phase := Drained)], [], []);
    var a := [Submit(q, spec, 1)] + [Drain(q, max)];
    var s3 := Then(l, a, s2, Deposit(q, [r]));
    var full := miss.(buf := EmptyBuf(l, 1).(q := [r]), accepted := [r], phase := Drained);
    assert [] + [r][..1] == [r];
    assert s3 == Portal(map[q := full], [], []);
    var s4 := Then(l, a + [Deposit(q, [r])], s3, SeeCanceled(q));
    steps := a + [Deposit(q, [r])] + [SeeCanceled(q)];
  }

  // The race is real, whatever the size of the fetch: a request canceled at that moment
  // leaves an empty result in the cache although its buffer held a row, and the next query
  // with an equal spec is answered from it.
  lemma RaceStoresPartial(l: Limits, spec: Spec, r: Row, max: nat) returns (steps: seq<PortalStep>)
    requires l.bufferRows > 0 && l.entries > 0 && max > 0
    ensures forall i :: 0 <= i < |steps| && steps[i].Drain? ==> steps[i].max == max
    ensures var s := RunPortal(l, EmptyPortal(), steps);
      && |s.ended| == 1 && Raced(s.ended[0]) && s.ended[0].accepted == s.ended[0].cleared == [r]
      && Lookup(s.items, Key(spec)) == Some([])
  {
    hide Key;
    var a := ReadyToRace(l, spec, r, max);
    var s4 := RunPortal(l, EmptyPortal(), a);
    var s5 := Then(l, a, s4, CancelRequest("q"));
    var s6 := Then(l, a + [CancelRequest("q")], s5, Finish("q"));
    steps := a + [CancelRequest("q")] + [Finish("q")];
    var stored: Item<Spec, seq<Row>> := Item(Key(spec), []);
    assert s6.items == Used([], stored, l.entries) == [stored];
  }
}
