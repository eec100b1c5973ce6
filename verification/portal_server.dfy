// The portal's handlers over its registry and its result cache. Each locked look at the
// shared state is one step of the portal machine, so the machine's theorems hold of any
// interleaving of them.

module PortalServers {
  import opened Options
  import Rows
  import opened ChunkBuffers
  import Recency
  import QueryCaches
  import opened PortalCache
  import PortalTheorems

  lemma ThreeSteps(l: Limits, s: Portal, a: PortalStep, b: PortalStep, c: PortalStep)
    ensures RunPortal(l, s, [a, b, c]) == ApplyStep(l, ApplyStep(l, ApplyStep(l, s, a), b), c)
  {
    assert [a, b, c][..2] == [a, b] && [a, b][..1] == [a] && [a][..0] == [];
    assert RunPortal(l, s, []) == s;
    assert RunPortal(l, s, [a]) == ApplyStep(l, s, a);
    assert RunPortal(l, s, [a, b]) == ApplyStep(l, ApplyStep(l, s, a), b);
  }

  lemma NothingFound(items: seq<QueryCaches.Entry>, key: Rows.Spec)
    ensures items == [] ==> Recency.Lookup(items, key).None?
  {}

  // A request has ended with these rows last, and with this answer about a cancel.
  ghost predicate Told(before: seq<Ended>, ended: seq<Ended>, r: Req, rows: seq<Rows.Row>, canceled: bool) {
    && |ended| == |before| + 1 && ended[..|before|] == before
    && var e := ended[|before|];
       && e.key == QueryCaches.Key(r.spec) && e.hit == r.hit
       && e.delivered == r.delivered + rows && e.reported == canceled
  }

  // If the last request to end was stored, its rows are what the cache has for its key.
  ghost predicate Kept(ended: seq<Ended>, items: seq<QueryCaches.Entry>) {
    ended != [] && var e := ended[|ended| - 1]; e.stored ==> Recency.Lookup(items, e.key) == Some(e.delivered)
  }

  class PortalServer {
    const limits: Limits
    const cache: QueryCaches.QueryCache
    var reqs: map<string, Req>
    ghost var ended: seq<Ended>

    ghost predicate Valid()
      reads this, cache
    {
      && cache.Valid() && cache.capacity == limits.entries && cache.maxRows == limits.entryRows
      && PortalInv(limits, Portal(reqs, cache.Contents(), ended))
    }

    ghost function State(): Portal
      reads this, cache
      requires Valid()
    {
      Portal(reqs, cache.Contents(), ended)
    }

    constructor (limits: Limits, hash: QueryCaches.SpecHash)
      requires QueryCaches.Respects(hash)
      ensures Valid() && fresh(cache) && this.limits == limits && State() == EmptyPortal()
    {
      this.limits := limits;
      cache := new QueryCaches.QueryCache(limits.entries, limits.entryRows, hash);
      reqs, ended := map[], [];
    }

    // Answers from the cache when an equal spec is there; otherwise registers a request
    // to be forwarded. Request ids are new.
    method SubmitQuery(rid: string, spec: Rows.Spec, expected: nat) returns (cached: bool)
      requires Valid() && rid !in reqs
      modifies this, cache
      ensures Valid() && State() == ApplyStep(limits, old(State()), Submit(rid, spec, expected))
      ensures rid in reqs && (cached <==> reqs[rid].hit.Some?)
      ensures reqs[rid].hit
        == if limits.entries > 0 then Recency.Lookup(old(cache.Contents()), QueryCaches.Key(spec)) else None
      ensures reqs[rid].buf.q == Prefill(limits, reqs[rid].hit) && (cached ==> reqs[rid].buf.AllDone())
    {
      hide PortalInv, Recency.Lookup, Recency.Used, HitReq, MissReq, Prefill, QueryCaches.Key;
      ghost var before := State();
      NothingFound(cache.Contents(), QueryCaches.Key(spec));
      ApplyStepInv(limits, before, Submit(rid, spec, expected));
      PortalTheorems.SubmitRegisters(limits, before, rid, spec, expected);
      var rows := cache.Get(spec);
      cached := rows.Some?;
      if cached {
        reqs := reqs[rid := HitReq(limits, spec, rows.value)];
      } else {
        reqs := reqs[rid := MissReq(limits, spec, expected)];
      }
    }

    // Takes what fits and says "ok" all the same; refuses for a request that is gone or
    // canceled.
    method PushChunk(rid: string, producer: string, rows: seq<Rows.Row>, done: bool) returns (ok: bool, canceled: bool)
      requires Valid()
      modifies this
      ensures Valid() && ok == !canceled
      ensures ok <==> rid in old(reqs) && !old(reqs)[rid].buf.canceled
      ensures !ok ==> State() == old(State())
      ensures ok ==>
        var deposited := ApplyStep(limits, old(State()), Deposit(rid, rows));
        State() == if done then ApplyStep(limits, deposited, MarkDone(rid, producer)) else deposited
    {
      if rid !in reqs || reqs[rid].buf.canceled {
        return false, true;
      }
      ApplyStepInv(limits, State(), Deposit(rid, rows));
      ApplyStepInv(limits, ApplyStep(limits, State(), Deposit(rid, rows)), MarkDone(rid, producer));
      reqs := reqs[rid := PushedReq(reqs[rid], rows)];
      if done {
        reqs := reqs[rid := reqs[rid].(buf := reqs[rid].buf.MarkDone(producer))];
      }
      return true, false;
    }

    method CancelQuery(rid: string)
      requires Valid()
      modifies this
      ensures Valid() && State() == ApplyStep(limits, old(State()), CancelRequest(rid))
    {
      ApplyStepInv(limits, State(), CancelRequest(rid));
      if rid in reqs {
        reqs := reqs[rid := CanceledReq(reqs[rid])];
      }
    }

    // A fetch: drain, read the canceled flag, read finality. It answers with both readings; a
    // final answer ends the request, and stores its rows unless it was collecting no more or
    // the answer says canceled.
    method FetchChunk(rid: string, want: nat, suggested: nat, maxChunk: nat)
      returns (rows: seq<Rows.Row>, canceled: bool, final: bool)
      requires Valid() && (rid in reqs ==> reqs[rid].phase.NotFetching?)
      modifies this, cache
      ensures Valid()
      ensures rid !in old(reqs) ==> rows == [] && canceled && final && State() == old(State())
      ensures rid in old(reqs) ==>
        var r, max := old(reqs)[rid], Min(if want == 0 then suggested else want, maxChunk);
        && rows == r.buf.q[..Min(max, |r.buf.q|)]
        && canceled == r.buf.canceled
        && (final <==> r.buf.canceled || (|rows| == |r.buf.q| && r.buf.AllDone()))
        && State() == RunPortal(limits, old(State()),
             [PortalStep.Drain(rid, max), PortalStep.SeeCanceled(rid), PortalStep.Finish(rid)])
        && (final <==> rid !in reqs)
        && (final ==> Told(old(ended), ended, r, rows, canceled) && Kept(ended, cache.Contents()))
    {
      hide PortalInv, Recency.Lookup;
      if rid !in reqs {
        return [], true, true;
      }
      var max := if want == 0 then suggested else want;
      if max > maxChunk {
        max := maxChunk;
      }
      ThreeSteps(limits, State(), PortalStep.Drain(rid, max), PortalStep.SeeCanceled(rid), PortalStep.Finish(rid));
      rows := Drain(rid, max);
      canceled := SeeCanceled(rid);
      final := Finish(rid);
    }

    method Drain(rid: string, max: nat) returns (rows: seq<Rows.Row>)
      requires Valid() && rid in reqs && reqs[rid].phase.NotFetching?
      modifies this`reqs
      ensures Valid() && State() == ApplyStep(limits, old(State()), PortalStep.Drain(rid, max))
      ensures rows == old(reqs)[rid].buf.q[..Min(max, |old(reqs)[rid].buf.q|)]
      ensures rid in reqs && reqs[rid] == DrainedReq(limits, old(reqs)[rid], max)
    {
      hide PortalInv;
      ApplyStepInv(limits, State(), PortalStep.Drain(rid, max));
      rows := reqs[rid].buf.q[..Min(max, |reqs[rid].buf.q|)];
      reqs := reqs[rid := DrainedReq(limits, reqs[rid], max)];
    }

    method SeeCanceled(rid: string) returns (canceled: bool)
      requires Valid() && rid in reqs && reqs[rid].phase.Drained?
      modifies this`reqs
      ensures Valid() && State() == ApplyStep(limits, old(State()), PortalStep.SeeCanceled(rid))
      ensures canceled == old(reqs)[rid].buf.canceled
      ensures rid in reqs && reqs[rid] == old(reqs)[rid].(phase := Saw(canceled))
    {
      hide PortalInv;
      ApplyStepInv(limits, State(), PortalStep.SeeCanceled(rid));
      canceled := reqs[rid].buf.canceled;
      reqs := reqs[rid := reqs[rid].(phase := Saw(canceled))];
    }

    // Once it has ended, a stored result is what the cache has for its key.
    method Finish(rid: string) returns (final: bool)
      requires Valid() && rid in reqs && reqs[rid].phase.Saw?
      modifies this, cache
      ensures Valid() && State() == ApplyStep(limits, old(State()), PortalStep.Finish(rid))
      ensures final <==> old(reqs)[rid].buf.Final()
      ensures final <==> rid !in reqs
      ensures final ==>
        Told(old(ended), ended, old(reqs)[rid], [], old(reqs)[rid].phase.canceled) && Kept(ended, cache.Contents())
    {
      hide PortalInv, Recency.Lookup, Recency.Used;
      ApplyStepInv(limits, State(), PortalStep.Finish(rid));
      var r := reqs[rid];
      final := r.buf.Final();
      if final {
        PortalTheorems.StoredIsFound(limits, State(), rid);
        assert r.delivered + [] == r.delivered;
        if r.collect && !r.phase.canceled {
          cache.Put(r.spec, r.accum);
        }
        ended := ended + [EndOf(limits, r)];
        reqs := reqs - {rid};
      } else {
        reqs := reqs[rid := r.(phase := NotFetching)];
      }
    }
  }
}
