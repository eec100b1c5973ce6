// The Python partition store's scan: the indexed plan and the plain row loop kept beside
// it, both framed, capped and cancelable.

module PartitionScan {
  import opened Rows
  import GridIndices
  import opened QueryPlan

  // A size below one yields every row on its own.
  function ChunkSize(chunkRows: int): nat { if chunkRows < 1 then 1 else chunkRows }

  // How the generator frames its rows: a row cap ends the last chunk at once, even a
  // full one; otherwise every full chunk is yielded as soon as it fills.
  function ScanFrame(rows: seq<Row>, chunkRows: int, cap: nat): seq<Chunk<Row>> {
    var size := ChunkSize(chunkRows);
    if cap != 0 && |rows| >= cap then Chunks(rows[..cap], size, true) else Chunks(rows, size, false)
  }

  // Where the emit loop stands: full chunks yielded, fewer rows than a chunk pending.
  ghost predicate Emitting(sent: seq<Chunk<Row>>, out: seq<Row>, rows: seq<Row>, size: nat, cap: nat) {
    FullChunks(sent, size) && Flat(sent) + out == rows && |out| < size && (cap == 0 || |rows| < cap)
  }

  // Where it may leave off: all rows emitted below the cap, or the cap just reached.
  ghost predicate CapReached(sent: seq<Chunk<Row>>, out: seq<Row>, rows: seq<Row>, size: nat, cap: nat) {
    cap != 0 && FullChunks(sent, size) && Flat(sent) + out == rows && |rows| == cap && 1 <= |out| <= size
  }

  ghost predicate Emitted(sent: seq<Chunk<Row>>, out: seq<Row>, total: seq<Row>, size: nat, cap: nat) {
    || Emitting(sent, out, total, size, cap)
    || (CapReached(sent, out, Flat(sent) + out, size, cap) && Flat(sent) + out <= total)
  }

  // emit_one, then the yield of a chunk that has filled up.
  method EmitOne(sent: seq<Chunk<Row>>, out: seq<Row>, r: Row, chunkRows: int, cap: nat, produced: nat,
      ghost rows: seq<Row>)
    returns (sent': seq<Chunk<Row>>, out': seq<Row>, more: bool)
    requires produced == |rows| && Emitting(sent, out, rows, ChunkSize(chunkRows), cap)
    ensures more ==> Emitting(sent', out', rows + [r], ChunkSize(chunkRows), cap)
    ensures !more ==> CapReached(sent', out', rows + [r], ChunkSize(chunkRows), cap)
  {
    sent', out' := sent, out + [r];
    assert Flat(sent) + (out + [r]) == rows + [r];
    if cap != 0 && produced + 1 >= cap {
      return sent', out', false;
    }
    if |out'| >= chunkRows {
      FlatShip(sent, out');
      sent', out' := sent + [Chunk(out', false)], [];
    }
    more := true;
  }

  lemma EmittedIsFramed(sent: seq<Chunk<Row>>, out: seq<Row>, total: seq<Row>, chunkRows: int, cap: nat)
    requires Emitted(sent, out, total, ChunkSize(chunkRows), cap)
    ensures sent + [Chunk(out, true)] == ScanFrame(total, chunkRows, cap)
  {
    var size := ChunkSize(chunkRows);
    if Emitting(sent, out, total, size, cap) {
      ChunksResume(sent, out, size, false);
    } else {
      assert total[..cap] == Flat(sent) + out;
      ChunksResume(sent, out, size, true);
    }
  }

  // The rows a scan emits before its cap, given the answers the cancel flag gives.
  ghost function ScanRows(rows: seq<Row>, spec: Spec, linear: bool, polls: nat -> bool): seq<Row> {
    if linear || Unfiltered(spec) then
      Reference(rows[..Stop(polls, 0, |rows|)], spec, spec.borough)
    else
      var found := AllFound(rows, spec, spec.borough);
      BoxOnly(spec, found[..Stop(polls, 0, |found|)])
  }

  // The chunks it yields.
  ghost function ScanChunks(rows: seq<Row>, spec: Spec, chunkRows: int, linear: bool, polls: nat -> bool)
    : seq<Chunk<Row>>
  {
    ScanFrame(ScanRows(rows, spec, linear, polls), chunkRows, spec.maxRows)
  }

  lemma ReferenceStep(rows: seq<Row>, spec: Spec, borough: int, n: nat)
    requires n < |rows|
    ensures Reference(rows[..n + 1], spec, borough)
      == Reference(rows[..n], spec, borough) + if Wanted(spec, borough, rows[n]) then [rows[n]] else []
  {
    assert rows[..n + 1][..n] == rows[..n];
  }

  lemma ReferencePrefix(rows: seq<Row>, spec: Spec, borough: int, m: nat, n: nat)
    requires m <= n <= |rows|
    ensures Reference(rows[..m], spec, borough) <= Reference(rows[..n], spec, borough)
  {
    assert rows[..n] == rows[..m] + rows[m..n];
    ReferenceConcat(rows[..m], rows[m..n], spec, borough);
  }

  lemma BoxOnlyStep(spec: Spec, rows: seq<Row>, n: nat)
    requires n < |rows|
    ensures BoxOnly(spec, rows[..n + 1])
      == BoxOnly(spec, rows[..n]) + if PassesBox(spec, rows[n]) then [rows[n]] else []
  {
    assert rows[..n + 1][..n] == rows[..n];
  }

  lemma BoxOnlyPrefix(spec: Spec, rows: seq<Row>, m: nat, n: nat)
    requires m <= n <= |rows|
    ensures BoxOnly(spec, rows[..m]) <= BoxOnly(spec, rows[..n])
  {
    BoxOnlySplit(spec, rows[..n], m);
    assert rows[..n][..m] == rows[..m];
  }

  class PartitionStore {
    const cols: Columns
    const idx: GridIndices.Indices

    ghost predicate Valid()
      reads this, idx
    {
      idx.Built(cols)
    }

    constructor (c: Columns)
      requires GridIndices.Mappable(c)
      ensures Valid() && cols == c && fresh(idx)
    {
      cols := c;
      var i := new GridIndices.Indices();
      idx := i;
      new;
      idx.Build(c);
    }

    method Scan(spec: Spec, chunkRows: int, polls: nat -> bool, forceLinear: bool)
      returns (sent: seq<Chunk<Row>>)
      requires Valid()
      requires spec.useGeoBox && !forceLinear ==> GridIndices.BoxOnGrid(spec)
      ensures sent == ScanChunks(cols.AllRows(), spec, chunkRows, forceLinear, polls)
    {
      var cands: seq<seq<nat>> := [];
      if !forceLinear {
        var none;
        none, cands := Candidates(idx, cols, spec, spec.borough);
        if none {
          NoneFound(cols, spec, spec.borough);
          return [Chunk([], true)];
        }
      }
      if cands == [] {
        sent := RowByRow(spec, chunkRows, polls);
      } else {
        var work := Survivors(cands, cols, spec, spec.borough);
        sent := EmitAll(work, spec, chunkRows, polls, AllFound(cols.AllRows(), spec, spec.borough));
      }
    }

    // The plain row loop: every predicate tested row by row.
    method RowByRow(spec: Spec, chunkRows: int, polls: nat -> bool) returns (sent: seq<Chunk<Row>>)
      requires cols.Aligned()
      ensures var all := cols.AllRows();
        sent == ScanFrame(Reference(all[..Stop(polls, 0, |all|)], spec, spec.borough), chunkRows, spec.maxRows)
    {
      sent := [];
      var out: seq<Row> := [];
      var produced := 0;
      ghost var all := cols.AllRows();
      ghost var stop := Stop(polls, 0, |all|);
      ghost var rows: seq<Row> := [];
      var i := 0;
      while i < cols.Size()
        invariant 0 <= i <= stop <= cols.Size() == |all| && stop == Stop(polls, i, |all|)
        invariant rows == Reference(all[..i], spec, spec.borough) && produced == |rows|
        invariant Emitting(sent, out, rows, ChunkSize(chunkRows), spec.maxRows)
      {
        if i % 1024 == 0 && polls(i) {
          break;
        }
        ReferenceStep(all, spec, spec.borough, i);
        if Wanted(spec, spec.borough, cols.RowAt(i)) {
          var more;
          sent, out, more := EmitOne(sent, out, cols.RowAt(i), chunkRows, spec.maxRows, produced, rows);
          produced := produced + 1;
          if !more {
            ReferencePrefix(all, spec, spec.borough, i + 1, stop);
            break;
          }
        }
        i := i + 1;
        rows := Reference(all[..i], spec, spec.borough);
      }
      EmittedIsFramed(sent, out, Reference(all[..stop], spec, spec.borough), chunkRows, spec.maxRows);
      sent := sent + [Chunk(out, true)];
    }

    // Re-validates the survivors against the exact box and emits them.
    method EmitAll(work: seq<nat>, spec: Spec, chunkRows: int, polls: nat -> bool, ghost found: seq<Row>)
      returns (sent: seq<Chunk<Row>>)
      requires cols.Aligned() && forall k :: 0 <= k < |work| ==> work[k] < cols.Size()
      requires found == cols.RowsOf(work)
      ensures sent == ScanFrame(BoxOnly(spec, found[..Stop(polls, 0, |found|)]), chunkRows, spec.maxRows)
    {
      sent := [];
      var out: seq<Row> := [];
      var produced := 0;
      ghost var stop := Stop(polls, 0, |found|);
      ghost var rows: seq<Row> := [];
      var i := 0;
      while i < |work|
        invariant 0 <= i <= stop <= |work| == |found| && stop == Stop(polls, i, |found|)
        invariant rows == BoxOnly(spec, found[..i]) && produced == |rows|
        invariant Emitting(sent, out, rows, ChunkSize(chunkRows), spec.maxRows)
      {
        if i % 1024 == 0 && polls(i) {
          break;
        }
        BoxOnlyStep(spec, found, i);
        if !(spec.useGeoBox && !InBox(spec, cols.RowAt(work[i]))) {
          var more;
          sent, out, more := EmitOne(sent, out, cols.RowAt(work[i]), chunkRows, spec.maxRows, produced, rows);
          produced := produced + 1;
          if !more {
            BoxOnlyPrefix(spec, found, i + 1, stop);
            break;
          }
        }
        i := i + 1;
        rows := BoxOnly(spec, found[..i]);
      }
      EmittedIsFramed(sent, out, BoxOnly(spec, found[..stop]), chunkRows, spec.maxRows);
      sent := sent + [Chunk(out, true)];
    }
  }
}
