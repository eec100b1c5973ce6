// A producer's chunks on their way to the portal as the handlers carry them: each push
// is a blocking call that every inner node passes on to its upstream peer, and the portal
// deposits into the request's buffer.

module Relay {
  import opened Rows
  import opened ChunkBuffers
  import opened Overlay

  // A chunk deposited for a producer: its rows first, then, if it is the last, the mark.
  function ChunkDeposited<R>(b: Buf<R>, producer: Node, chunk: Chunk<R>): Buf<R> {
    if chunk.done then b.Push(chunk.rows).MarkDone(producer) else b.Push(chunk.rows)
  }

  function ChunksDeposited<R>(b: Buf<R>, producer: Node, chunks: seq<Chunk<R>>): Buf<R> {
    if chunks == [] then b
    else ChunkDeposited(ChunksDeposited(b, producer, chunks[..|chunks| - 1]), producer, chunks[|chunks| - 1])
  }

  lemma FlatLast<R>(init: seq<Chunk<R>>, last: Chunk<R>)
    ensures Flat(init + [last]) == Flat(init) + last.rows
  {
    FlatConcat(init, [last]);
    assert Flat([last]) == last.rows + Flat<R>([]);
  }

  lemma {:induction false} DepositsWhatFits<R>(b: Buf<R>, producer: Node, chunks: seq<Chunk<R>>)
    requires !b.canceled
    ensures var b' := ChunksDeposited(b, producer, chunks);
      !b'.canceled && b'.capacity == b.capacity && b'.q == b.q + Flat(chunks)[..b.Room(|Flat(chunks)|)]
    decreases |chunks|
  {
    if chunks == [] {
      assert b.q + [] == b.q;
    } else {
      hide Flat;
      var init, last := chunks[..|chunks| - 1], chunks[|chunks| - 1];
      DepositsWhatFits(b, producer, init);
      assert chunks == init + [last];
      FlatLast(init, last);
      PrefixGrows(b, Flat(init), last.rows);
    }
  }

  // A scan left alone with the buffer adds the longest prefix of its rows that fits,
  // chunk boundaries or not, and nothing after the first row refused: all of them exactly
  // when they fit.
  lemma DepositsAPrefix<R>(b: Buf<R>, producer: Node, chunks: seq<Chunk<R>>)
    requires !b.canceled
    ensures var b' := ChunksDeposited(b, producer, chunks);
      && !b'.canceled && b'.capacity == b.capacity
      && b'.q == b.q + Flat(chunks)[..b.Room(|Flat(chunks)|)]
      && (b'.q == b.q + Flat(chunks) <==> Flat(chunks) == [] || |b.q| + |Flat(chunks)| <= b.capacity)
  {
    hide Flat, ChunksDeposited;
    DepositsWhatFits(b, producer, chunks);
    var rows := Flat(chunks);
    if rows == [] || |b.q| + |rows| <= b.capacity {
      assert rows[..|rows|] == rows;
    } else {
      assert |b.q + rows[..b.Room(|rows|)]| < |b.q + rows|;
    }
  }

  ghost predicate Finishes<R>(chunks: seq<Chunk<R>>) { exists k :: 0 <= k < |chunks| && chunks[k].done }

  // It marks its producer done exactly when it deposits a last chunk.
  lemma {:induction false} MarksWhenFinished<R>(b: Buf<R>, producer: Node, chunks: seq<Chunk<R>>)
    ensures ChunksDeposited(b, producer, chunks).done == if Finishes(chunks) then b.done + {producer} else b.done
    decreases |chunks|
  {
    if chunks != [] {
      var init, last := chunks[..|chunks| - 1], chunks[|chunks| - 1];
      MarksWhenFinished(b, producer, init);
      assert chunks[|chunks| - 1].done ==> Finishes(chunks);
      if Finishes(init) {
        var k :| 0 <= k < |init| && init[k].done;
        assert chunks[k].done;
      } else if Finishes(chunks) {
        var k :| 0 <= k < |chunks| && chunks[k].done;
        assert k < |init| ==> init[k].done;
      }
    }
  }

  lemma PrefixGrows<R>(b: Buf<R>, rows: seq<R>, more: seq<R>)
    requires !b.canceled
    ensures var b' := b.(q := b.q + rows[..b.Room(|rows|)]);
      b'.q + more[..b'.Room(|more|)] == b.q + (rows + more)[..b.Room(|rows + more|)]
  {}

  // ---- what the network does to a try ----

  datatype Fate = Acked | RequestLost | AnswerLost

  const TRIES := 5

  // The tries from the k-th on: the producer stops at the first answer it gets.
  function Tried<R>(b: Buf<R>, producer: Node, chunk: Chunk<R>, fate: nat -> Fate, k: nat): Buf<R>
    decreases TRIES - k
  {
    if k >= TRIES then b
    else match fate(k)
      case Acked => ChunkDeposited(b, producer, chunk)
      case RequestLost => Tried(b, producer, chunk, fate, k + 1)
      case AnswerLost => Tried(ChunkDeposited(b, producer, chunk), producer, chunk, fate, k + 1)
  }

  function Repeated<R>(b: Buf<R>, producer: Node, chunk: Chunk<R>, n: nat): Buf<R>
    decreases n
  {
    if n == 0 then b else Repeated(ChunkDeposited(b, producer, chunk), producer, chunk, n - 1)
  }

  // How often the chunk ends up deposited.
  function Copies(fate: nat -> Fate, k: nat): nat
    decreases TRIES - k
  {
    if k >= TRIES then 0
    else match fate(k)
      case Acked => 1
      case RequestLost => Copies(fate, k + 1)
      case AnswerLost => 1 + Copies(fate, k + 1)
  }

  lemma {:induction false} TriedIsRepeated<R>(b: Buf<R>, producer: Node, chunk: Chunk<R>, fate: nat -> Fate, k: nat)
    ensures Tried(b, producer, chunk, fate, k) == Repeated(b, producer, chunk, Copies(fate, k))
    decreases TRIES - k
  {
    if k < TRIES {
      match fate(k)
      case Acked => OneCopy(b, producer, chunk);
      case RequestLost => TriedIsRepeated(b, producer, chunk, fate, k + 1);
      case AnswerLost => TriedIsRepeated(ChunkDeposited(b, producer, chunk), producer, chunk, fate, k + 1);
    }
  }

  ghost predicate AllLost(fate: nat -> Fate, from: nat, to: nat) {
    forall i :: from <= i < to ==> fate(i) == RequestLost
  }

  // The one try that gets through: everything before it is lost on the way there, and it
  // is answered or nothing after it gets through.
  ghost predicate OnlyTry(fate: nat -> Fate, k: nat, i: nat) {
    k <= i < TRIES && AllLost(fate, k, i) && fate(i) != RequestLost
      && (fate(i) == Acked || AllLost(fate, i + 1, TRIES))
  }

  lemma {:induction false} NoCopyIffAllLost(fate: nat -> Fate, k: nat)
    requires k <= TRIES
    ensures Copies(fate, k) == 0 <==> AllLost(fate, k, TRIES)
    decreases TRIES - k
  {
    if k < TRIES {
      NoCopyIffAllLost(fate, k + 1);
    }
  }

  // A chunk is deposited exactly once if and only if one try gets through and no later
  // one does: a lost answer makes the next try a duplicate.
  lemma {:induction false} OnceIffOnlyTry(fate: nat -> Fate, k: nat)
    requires k <= TRIES
    ensures Copies(fate, k) == 1 <==> exists i: nat :: OnlyTry(fate, k, i)
    decreases TRIES - k
  {
    if k < TRIES {
      NoCopyIffAllLost(fate, k + 1);
      if fate(k) == RequestLost {
        OnceIffOnlyTry(fate, k + 1);
        LaterTry(fate, k, k + 1);
      } else {
        assert Copies(fate, k) == 1 <==> OnlyTry(fate, k, k);
        forall i: nat | OnlyTry(fate, k, i) ensures i == k {}
      }
    }
  }

  lemma LaterTry(fate: nat -> Fate, k: nat, next: nat)
    requires k < TRIES && fate(k) == RequestLost && next == k + 1
    ensures (exists i: nat :: OnlyTry(fate, k, i)) <==> (exists i: nat :: OnlyTry(fate, next, i))
  {
    if i: nat :| OnlyTry(fate, k, i) { assert OnlyTry(fate, next, i); }
    if i: nat :| OnlyTry(fate, next, i) { assert OnlyTry(fate, k, i); }
  }

  // There are five tries: a chunk whose first four are lost and whose fifth is answered is
  // deposited once, and one that loses all five never is.
  lemma FiveTries<R>(b: Buf<R>, producer: Node, chunk: Chunk<R>, fate: nat -> Fate)
    requires fate(0) == fate(1) == fate(2) == fate(3) == RequestLost
    ensures fate(4) == Acked ==> Tried(b, producer, chunk, fate, 0) == ChunkDeposited(b, producer, chunk)
    ensures fate(4) == RequestLost ==> Tried(b, producer, chunk, fate, 0) == b
  {
    assert Tried(b, producer, chunk, fate, 0) == Tried(b, producer, chunk, fate, 2);
    assert Tried(b, producer, chunk, fate, 2) == Tried(b, producer, chunk, fate, 4);
    assert Tried(b, producer, chunk, fate, 5) == b;
  }

  // How often each chunk of a scan is deposited; the portal's own scan uses no network.
  ghost function Times(fate: (nat, nat) -> Fate, atPortal: bool): nat -> nat {
    (i: nat) => if atPortal then 1 else Copies((k: nat) => fate(i, k), 0)
  }

  ghost function AllSent<R>(b: Buf<R>, producer: Node, chunks: seq<Chunk<R>>, times: nat -> nat): Buf<R> {
    if chunks == [] then b
    else
      var n := |chunks| - 1;
      Repeated(AllSent(b, producer, chunks[..n], times), producer, chunks[n], times(n))
  }

  lemma SentStep<R>(b: Buf<R>, producer: Node, chunks: seq<Chunk<R>>, times: nat -> nat, i: nat)
    requires i < |chunks|
    ensures AllSent(b, producer, chunks[..i + 1], times)
      == Repeated(AllSent(b, producer, chunks[..i], times), producer, chunks[i], times(i))
  {
    assert chunks[..i + 1][..i] == chunks[..i];
  }

  // A network that lets exactly one try of every chunk through deposits the scan as it is.
  lemma {:induction false} SentOnce<R>(b: Buf<R>, producer: Node, chunks: seq<Chunk<R>>, times: nat -> nat)
    requires forall i :: 0 <= i < |chunks| ==> times(i) == 1
    ensures AllSent(b, producer, chunks, times) == ChunksDeposited(b, producer, chunks)
    decreases |chunks|
  {
    if chunks != [] {
      var n := |chunks| - 1;
      SentOnce(b, producer, chunks[..n], times);
      var before := AllSent(b, producer, chunks[..n], times);
      OneCopy(before, producer, chunks[n]);
    }
  }

  lemma {:induction false} RepeatedStaysOpen<R>(b: Buf<R>, producer: Node, chunk: Chunk<R>, n: nat)
    ensures Repeated(b, producer, chunk, n).canceled == b.canceled
    decreases n
  {
    if n > 0 {
      RepeatedStaysOpen(ChunkDeposited(b, producer, chunk), producer, chunk, n - 1);
    }
  }

  // One request's routes, its buffer at the portal, and whether the portal still has it
  // registered.
  class Carrier<R> {
    const topo: Topology
    const buffer: ChunkBuffer<R>
    var routes: map<Node, Route>
    var registered: bool
    ghost var hops: nat

    constructor (t: Topology, buffer: ChunkBuffer<R>, routes: map<Node, Route>)
      ensures topo == t && this.buffer == buffer && this.routes == routes && registered && hops == 0
    {
      topo, this.buffer, this.routes, registered, hops := t, buffer, routes, true, 0;
    }

    // From any node with a route the chunk arrives at the portal, unchanged, in as many
    // hops as the node's path has edges; the answer comes back unchanged.
    method PushChunk(me: Node, producer: Node, chunk: Chunk<R>) returns (ok: bool, canceled: bool)
      requires Tree(topo, routes)
      modifies this`hops, buffer
      ensures ok == !canceled
      ensures ok <==> me in routes && registered && !old(buffer.canceled)
      ensures buffer.State() == if ok then ChunkDeposited(old(buffer.State()), producer, chunk) else old(buffer.State())
      ensures me in routes ==> hops == old(hops) + |routes[me].visited| - 1
      decreases if me in routes then |routes[me].visited| else 0
    {
      if me in routes { assert Simple(routes, me) && Rooted(topo, routes, me); }
      if me == topo.root {
        if !registered {
          return false, true;
        }
        if buffer.canceled {
          return false, true;
        }
        var took := buffer.PushRows(chunk.rows);
        if chunk.done {
          buffer.MarkProducerDone(producer);
        }
        return true, false;
      }
      if me !in routes {
        return false, true;
      }
      var up := routes[me].upstream.id;
      assert Simple(routes, up);
      hops := hops + 1;
      ok, canceled := PushChunk(up, producer, chunk);
    }

    // One chunk, tried up to five times; a producer told "canceled" gives up on it, one
    // told "ok" is content, however little was taken.
    method Send(up: Node, me: Node, chunk: Chunk<R>, fate: nat -> Fate)
      requires Tree(topo, routes) && up in routes
      modifies this`hops, buffer
      ensures buffer.State() == if registered && !old(buffer.canceled)
        then Repeated(old(buffer.State()), me, chunk, Copies(fate, 0)) else old(buffer.State())
    {
      TriedIsRepeated(old(buffer.State()), me, chunk, fate, 0);
      var retries := TRIES;
      while retries > 0
        invariant 0 <= retries <= TRIES
        invariant registered && !old(buffer.canceled) ==> !buffer.canceled
        invariant registered && !old(buffer.canceled) ==>
          Tried(buffer.State(), me, chunk, fate, TRIES - retries) == Tried(old(buffer.State()), me, chunk, fate, 0)
        invariant !registered || old(buffer.canceled) ==> buffer.State() == old(buffer.State())
      {
        var answer := fate(TRIES - retries);
        retries := retries - 1;
        if answer != RequestLost {
          var ok, canceled := PushChunk(up, me, chunk);
          if answer == Acked && (ok || canceled) {
            return;
          }
        }
      }
    }

    // A scan's whole output, chunk by chunk: while the request lives each chunk is
    // deposited, in order, as often as a try of it gets through.
    method ExecuteLocal(me: Node, chunks: seq<Chunk<R>>, fate: (nat, nat) -> Fate)
      requires Tree(topo, routes) && me in routes
      modifies this`hops, buffer
      ensures registered && !old(buffer.canceled) ==>
        buffer.State() == AllSent(old(buffer.State()), me, chunks, Times(fate, me == topo.root))
      ensures !registered ==> buffer.State() == old(buffer.State())
      ensures old(buffer.canceled) ==> buffer.State() == old(buffer.State()).(done := buffer.done)
    {
      hide AllSent, Repeated, Copies;
      assert Rooted(topo, routes, me);
      ghost var times := Times(fate, me == topo.root);
      NothingSent(buffer.State(), me, times);
      assert chunks[..0] == [];
      for i := 0 to |chunks|
        invariant registered && !old(buffer.canceled) ==>
          buffer.State() == AllSent(old(buffer.State()), me, chunks[..i], times) && !buffer.canceled
        invariant !registered ==> buffer.State() == old(buffer.State())
        invariant old(buffer.canceled) ==> buffer.State() == old(buffer.State()).(done := buffer.done)
      {
        SentStep(old(buffer.State()), me, chunks, times, i);
        RepeatedStaysOpen(buffer.State(), me, chunks[i], times(i));
        if routes[me].upstream.SelfRoute? {
          OneCopy(buffer.State(), me, chunks[i]);
          if registered {
            var took := buffer.PushRows(chunks[i].rows);
            if chunks[i].done {
              buffer.MarkProducerDone(me);
            }
          }
        } else {
          Send(routes[me].upstream.id, me, chunks[i], (k: nat) => fate(i, k));
        }
      }
      assert chunks[..|chunks|] == chunks;
    }

    // The client's fetch: drains, reads the canceled flag, then finality, and forgets a
    // request that is final. The rows of an uncanceled final fetch are the last there are.
    method FetchChunk(max: nat) returns (rows: seq<R>, canceled: bool, final: bool)
      modifies this`registered, buffer
      ensures !old(registered) ==> rows == [] && canceled && final && buffer.State() == old(buffer.State())
      ensures old(registered) ==> buffer.State() == old(buffer.State()).Pop(max) && canceled == buffer.canceled
      ensures old(registered) ==> rows + buffer.q == old(buffer.q) && |rows| == Min(max, |old(buffer.q)|)
      ensures final <==> !registered
      ensures old(registered) ==>
        (final <==> canceled || (rows == old(buffer.q) && |buffer.done| >= buffer.expected))
      ensures final && !canceled ==> rows == old(buffer.q) && buffer.PendingProducers() == 0
    {
      if !registered {
        return [], true, true;
      }
      rows := buffer.PopUpTo(max);
      canceled := buffer.canceled;
      final := buffer.IsFinal();
      if final {
        registered := false;
      }
    }
  }

  lemma NothingSent<R>(b: Buf<R>, producer: Node, times: nat -> nat)
    ensures AllSent(b, producer, [], times) == b
  {}

  lemma OneCopy<R>(b: Buf<R>, producer: Node, chunk: Chunk<R>)
    ensures Repeated(b, producer, chunk, 1) == ChunkDeposited(b, producer, chunk)
  {
    assert Repeated(ChunkDeposited(b, producer, chunk), producer, chunk, 0) == ChunkDeposited(b, producer, chunk);
  }
}
