// The per-request bounded row buffer at the portal: one lock, so every method is one
// atomic step, and what any interleaving of those steps keeps.

module ChunkBuffers {

  function Min(a: nat, b: nat): nat { if a < b then a else b }

  // The buffer's state, and each locked method as a function of it.
  datatype Buf<T> = Buf(
    capacity: nat, expected: nat, q: seq<T>, started: set<string>, done: set<string>, served: nat, canceled: bool)
  {
    // How many of n offered rows still fit.
    function Room(n: nat): nat { Min(n, if |q| >= capacity then 0 else capacity - |q|) }

    // A canceled buffer swallows what it is given.
    function Push(rows: seq<T>): Buf<T> {
      if canceled then this else this.(q := q + rows[..Room(|rows|)])
    }

    function Pop(max: nat): Buf<T> {
      this.(q := q[Min(max, |q|)..], served := served + Min(max, |q|))
    }

    function MarkDone(producer: string): Buf<T> { this.(done := done + {producer}) }

    function Cancel(): Buf<T> { this.(q := [], canceled := true) }

    predicate AllDone() { |done| >= expected }

    predicate Final() { canceled || (q == [] && AllDone()) }
  }

  class ChunkBuffer<T> {
    const capacity: nat
    const expected: nat
    var q: seq<T>
    var started: set<string>
    var done: set<string>
    var rowsServed: nat
    var canceled: bool

    ghost function State(): Buf<T>
      reads this
    {
      Buf(capacity, expected, q, started, done, rowsServed, canceled)
    }

    constructor (capacity: nat, expected: nat)
      ensures State() == Buf(capacity, expected, [], {}, {}, 0, false)
    {
      this.capacity, this.expected := capacity, expected;
      q, started, done, rowsServed, canceled := [], {}, {}, 0, false;
    }

    // Takes what fits. The answer tells a short-accepted producer how much was taken,
    // and tells a producer pushing into a canceled buffer that all of it was.
    method PushRows(rows: seq<T>) returns (took: nat)
      modifies this
      ensures State() == old(State()).Push(rows)
      ensures took == if old(canceled) then |rows| else |q| - |old(q)|
      ensures !canceled ==> q == old(q) + rows[..took] && (took < |rows| ==> |q| >= capacity)
    {
      if rows == [] {
        assert rows[..old(State()).Room(0)] == [] && q + [] == q;
        return 0;
      }
      if canceled {
        return |rows|;
      }
      var avail := if |q| >= capacity then 0 else capacity - |q|;
      var take := Min(|rows|, avail);
      var i := 0;
      while i < take
        invariant 0 <= i <= take
        invariant q == old(q) + rows[..i]
        invariant unchanged(`started) && unchanged(`done) && unchanged(`rowsServed) && unchanged(`canceled)
      {
        assert rows[..i + 1] == rows[..i] + [rows[i]];
        q := q + [rows[i]];
        i := i + 1;
      }
      took := take;
    }

    // Drains up to max rows from the front.
    method PopUpTo(max: nat) returns (out: seq<T>)
      modifies this
      ensures State() == old(State()).Pop(max)
      ensures out + q == old(q) && |out| == Min(max, |old(q)|)
    {
      out := [];
      if max == 0 {
        assert q[0..] == q;
        return;
      }
      ghost var all := q;
      while q != [] && |out| < max
        invariant |out| <= max && |out| <= |all| && out == all[..|out|] && q == all[|out|..]
        invariant unchanged(`started) && unchanged(`done) && unchanged(`rowsServed) && unchanged(`canceled)
        decreases |q|
      {
        out := out + [q[0]];
        q := q[1..];
      }
      rowsServed := rowsServed + |out|;
    }

    method MarkProducerStarted(producer: string)
      modifies this
      ensures State() == old(State()).(started := old(started) + {producer})
    {
      started := started + {producer};
    }

    method MarkProducerDone(producer: string)
      modifies this
      ensures State() == old(State()).MarkDone(producer)
    {
      done := done + {producer};
    }

    method CancelBuffer()
      modifies this
      ensures State() == old(State()).Cancel()
    {
      canceled := true;
      q := [];
    }

    predicate IsFinal()
      reads this
      ensures IsFinal() <==> State().Final()
    {
      if canceled then true else q == [] && |done| >= expected
    }

    function PendingProducers(): (n: nat)
      reads this
      ensures n == 0 <==> State().AllDone()
      ensures n + |done| >= expected && (n > 0 ==> n + |done| == expected)
    {
      if |done| >= expected then 0 else expected - |done|
    }
  }

  // ---- every interleaving of the locked methods ----

  datatype Op<T> = PushOp(rows: seq<T>) | PopOp(max: nat) | DoneOp(producer: string) | CancelOp

  // The buffer beside an account of everything offered to and taken from it.
  datatype Ledger<T> = Ledger(buf: Buf<T>, accepted: seq<T>, popped: seq<T>, pushed: nat, refused: nat)
  {
    function Step(op: Op<T>): Ledger<T> {
      match op
      case PushOp(rows) =>
        var took := if buf.canceled then 0 else buf.Room(|rows|);
        Ledger(buf.Push(rows), accepted + rows[..took], popped, pushed + |rows|, refused + |rows| - took)
      case PopOp(max) =>
        this.(buf := buf.Pop(max), popped := popped + buf.q[..Min(max, |buf.q|)])
      case DoneOp(producer) => this.(buf := buf.MarkDone(producer))
      case CancelOp => this.(buf := buf.Cancel())
    }

    ghost predicate Balanced() {
      && |buf.q| <= buf.capacity
      && buf.served == |popped|
      && pushed == |accepted| + refused
      && (if buf.canceled then buf.q == [] && popped <= accepted else popped + buf.q == accepted)
      && (!buf.canceled && pushed <= buf.capacity ==> refused == 0)
    }
  }

  function RunOps<T>(l: Ledger<T>, ops: seq<Op<T>>): Ledger<T>
    decreases |ops|
  {
    if ops == [] then l else RunOps(l.Step(ops[0]), ops[1..])
  }

  function Opened<T>(capacity: nat, expected: nat): Ledger<T> {
    Ledger(Buf(capacity, expected, [], {}, {}, 0, false), [], [], 0, 0)
  }

  lemma StepBalances<T>(l: Ledger<T>, op: Op<T>)
    requires l.Balanced()
    ensures l.Step(op).Balanced()
  {
    match op
    case PushOp(rows) =>
      if !l.buf.canceled {
        var took := l.buf.Room(|rows|);
        assert l.popped + (l.buf.q + rows[..took]) == l.accepted + rows[..took];
      }
    case PopOp(max) =>
      var n := Min(max, |l.buf.q|);
      assert l.buf.q[..n] + l.buf.q[n..] == l.buf.q;
      assert l.popped + l.buf.q[..n] + l.buf.q[n..] == l.popped + l.buf.q;
    case DoneOp(_) =>
    case CancelOp =>
  }

  // Conservation: whatever the interleaving, the queue never exceeds its capacity,
  // rows come out in the order they were accepted and none is lost between, the
  // served count is the number popped, and nothing is refused while all that was
  // pushed would fit.
  lemma {:induction false} BufferConserves<T>(capacity: nat, expected: nat, ops: seq<Op<T>>)
    ensures RunOps(Opened(capacity, expected), ops).Balanced()
  {
    var start: Ledger<T> := Opened(capacity, expected);
    assert start.Balanced();
    BalanceKept(start, ops);
  }

  lemma {:induction false} BalanceKept<T>(l: Ledger<T>, ops: seq<Op<T>>)
    requires l.Balanced()
    ensures RunOps(l, ops).Balanced()
    decreases |ops|
  {
    if ops != [] {
      StepBalances(l, ops[0]);
      BalanceKept(l.Step(ops[0]), ops[1..]);
    }
  }

  // A cancel is for good: nothing is delivered after it and the request stays final.
  lemma {:induction false} CancelIsForGood<T>(l: Ledger<T>, ops: seq<Op<T>>)
    requires l.buf.canceled && l.buf.q == []
    ensures var l' := RunOps(l, ops);
      l'.buf.canceled && l'.buf.q == [] && l'.buf.Final() && l'.popped == l.popped
    decreases |ops|
  {
    if ops != [] {
      CancelIsForGood(l.Step(ops[0]), ops[1..]);
    }
  }

  // ---- what final means ----

  function DoneIn<T>(ops: seq<Op<T>>): set<string> {
    if ops == [] then {} else (if ops[0].DoneOp? then {ops[0].producer} else {}) + DoneIn(ops[1..])
  }

  predicate CanceledIn<T>(ops: seq<Op<T>>) {
    ops != [] && (ops[0].CancelOp? || CanceledIn(ops[1..]))
  }

  lemma {:induction false} HistoryKept<T>(l: Ledger<T>, ops: seq<Op<T>>)
    ensures var l' := RunOps(l, ops);
      && l'.buf.done == l.buf.done + DoneIn(ops) && (l'.buf.canceled <==> l.buf.canceled || CanceledIn(ops))
      && l'.buf.expected == l.buf.expected
    decreases |ops|
  {
    if ops != [] {
      HistoryKept(l.Step(ops[0]), ops[1..]);
    }
  }

  // After any interleaving a request is final if and only if it was canceled, or every row
  // ever accepted has been taken out and enough producers have been marked done.
  lemma FinalByHistory<T>(capacity: nat, expected: nat, ops: seq<Op<T>>)
    ensures var l := RunOps(Opened(capacity, expected), ops);
      l.buf.Final() <==> CanceledIn(ops) || (l.popped == l.accepted && |DoneIn(ops)| >= expected)
  {
    var l := RunOps(Opened(capacity, expected), ops);
    BufferConserves(capacity, expected, ops);
    HistoryKept(Opened(capacity, expected), ops);
    assert {} + DoneIn(ops) == DoneIn(ops);
    if !l.buf.canceled {
      assert l.popped + l.buf.q == l.accepted;
      assert l.buf.q == [] <==> |l.popped| == |l.accepted|;
    }
  }
}
