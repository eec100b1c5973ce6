// The C++ QueryEngine::run: the same plan over the same indices, but its emit step
// answers "stop" for a survivor outside the exact box, so the first such survivor ends
// the scan.

module QueryEngine {
  import Lists
  import opened Rows
  import opened GridIndices
  import opened QueryPlan
  import PartitionScan
  import opened ScanTheorems

  // The spec's borough is cast to the one-byte column type.
  function BoroughByte(spec: Spec): uint8 { spec.borough % 0x100 }

  // The rows before the first one outside the box.
  function BeforeMiss(spec: Spec, rows: seq<Row>): seq<Row> {
    if rows == [] || !PassesBox(spec, rows[0]) then [] else [rows[0]] + BeforeMiss(spec, rows[1..])
  }

  ghost predicate AllPass(spec: Spec, rows: seq<Row>, n: nat)
    requires n <= |rows|
  {
    forall k :: 0 <= k < n ==> PassesBox(spec, rows[k])
  }

  // p is the position of the first miss, or the end.
  ghost predicate FirstMiss(spec: Spec, rows: seq<Row>, p: nat) {
    p <= |rows| && AllPass(spec, rows, p) && (p < |rows| ==> !PassesBox(spec, rows[p]))
  }

  lemma {:induction false} BeforeMissIs(spec: Spec, rows: seq<Row>) returns (p: nat)
    ensures FirstMiss(spec, rows, p) && BeforeMiss(spec, rows) == rows[..p]
  {
    if rows == [] || !PassesBox(spec, rows[0]) {
      p := 0;
    } else {
      var q := BeforeMissIs(spec, rows[1..]);
      p := q + 1;
      assert rows[..p] == [rows[0]] + rows[1..][..q];
    }
  }

  // Everything run sends, before chunking, given the answers its cancel poll gets.
  ghost function RunRows(rows: seq<Row>, spec: Spec, polls: nat -> bool): seq<Row> {
    var found := AllFound(rows, spec, BoroughByte(spec));
    Capped(BeforeMiss(spec, found[..Stop(polls, 0, |found|)]), spec.maxRows)
  }

  // The chunks it hands its sink.
  ghost function RunChunks(rows: seq<Row>, spec: Spec, chunkRows: uint32, polls: nat -> bool): seq<Chunk<Row>> {
    Chunks(RunRows(rows, spec, polls), if chunkRows == 0 then 512 else chunkRows, false)
  }

  class Engine {
    const cols: Columns
    const idx: Indices

    ghost predicate Valid()
      reads this, idx
    {
      idx.Built(cols)
    }

    constructor (c: Columns)
      requires Mappable(c)
      ensures Valid() && cols == c && fresh(idx)
    {
      cols := c;
      var i := new Indices();
      idx := i;
      new;
      idx.Build(c);
    }

    // The chunks handed to the sink: full ones as they fill, one done chunk at the end.
    method Run(spec: Spec, chunkRows: uint32, polls: nat -> bool) returns (sunk: seq<Chunk<Row>>)
      requires Valid()
      requires spec.useGeoBox ==> BoxOnGrid(spec)
      ensures sunk == RunChunks(cols.AllRows(), spec, chunkRows, polls)
    {
      var size: nat := if chunkRows == 0 then 512 else chunkRows;
      ghost var found := AllFound(cols.AllRows(), spec, BoroughByte(spec));
      var none, cands := Candidates(idx, cols, spec, BoroughByte(spec));
      if none {
        NoneFound(cols, spec, BoroughByte(spec));
        return [Chunk([], true)];
      }
      var work: seq<nat>;
      if cands == [] {
        EveryRowFound(cols.AllRows(), spec);
        work := UpTo(cols.Size());
        assert cols.RowsOf(work) == cols.AllRows();
      } else {
        work := Survivors(cands, cols, spec, BoroughByte(spec));
      }
      sunk := EmitUntilMiss(work, spec, size, polls, found);
    }

    // The emit loop, left at the first cancel, miss or reached cap.
    method EmitUntilMiss(work: seq<nat>, spec: Spec, size: nat, polls: nat -> bool, ghost found: seq<Row>)
      returns (sunk: seq<Chunk<Row>>)
      requires cols.Aligned() && size > 0
      requires forall k :: 0 <= k < |work| ==> work[k] < cols.Size()
      requires found == cols.RowsOf(work)
      ensures sunk == Chunks(
        Capped(BeforeMiss(spec, found[..Stop(polls, 0, |found|)]), spec.maxRows), size, false)
    {
      hide PassesBox, InBox, BeforeMiss, Capped, AllPass, FullChunks, Flat, Chunks, Sending;
      sunk := [];
      var chunk: seq<Row> := [];
      ghost var stop := Stop(polls, 0, |found|);
      var i := 0;
      var produced := 0;
      NothingSent(spec, found, size);
      while i < |work|
        invariant 0 <= i <= stop <= |work| == |found| && stop == Stop(polls, i, |found|)
        invariant produced == i && (spec.maxRows == 0 || i < spec.maxRows)
        invariant Sending(spec, found, sunk, chunk, size, i)
      {
        if i % 1024 == 0 && polls(i) {
          break;
        }
        var more;
        sunk, chunk, produced, more := EmitRow(sunk, chunk, cols.RowAt(work[i]), spec, size, produced, found, i);
        if !more {
          break;
        }
        i := i + 1;
      }
      EmitStopped(spec, found, stop, produced, sunk, chunk, size);
      sunk := sunk + [Chunk(chunk, true)];
    }
  }

  // Full chunks sent and the rest pending: the first i rows, none of them a miss.
  ghost predicate Sending(spec: Spec, found: seq<Row>, sunk: seq<Chunk<Row>>, chunk: seq<Row>, size: nat, i: nat) {
    && i <= |found| && AllPass(spec, found, i)
    && FullChunks(sunk, size) && |chunk| < size && Flat(sunk) + chunk == found[..i]
  }

  lemma NothingSent(spec: Spec, found: seq<Row>, size: nat)
    requires size > 0
    ensures Sending(spec, found, [], [], size, 0)
  {}

  // Every row id, as the fallback loop visits them.
  function UpTo(n: nat): (ids: seq<nat>)
    ensures |ids| == n && forall k :: 0 <= k < n ==> ids[k] == k
  {
    seq(n, i => i)
  }

  lemma {:induction false} EveryRowFound(rows: seq<Row>, spec: Spec)
    requires Unfiltered(spec)
    ensures AllFound(rows, spec, BoroughByte(spec)) == rows
  {
    if rows != [] {
      EveryRowFound(rows[..|rows| - 1], spec);
    }
  }

  // emit_one: stops at a row outside the box; otherwise appends the row, hands over
  // the chunk if it is full, and stops once the cap is reached.
  method EmitRow(sunk: seq<Chunk<Row>>, chunk: seq<Row>, r: Row, spec: Spec, size: nat, produced: nat,
      ghost found: seq<Row>, ghost i: nat)
    returns (sunk': seq<Chunk<Row>>, chunk': seq<Row>, produced': nat, more: bool)
    requires Sending(spec, found, sunk, chunk, size, i) && i < |found| && r == found[i] && produced == i
    ensures produced' == i + if PassesBox(spec, r) then 1 else 0
    ensures Sending(spec, found, sunk', chunk', size, produced')
    ensures more <==> PassesBox(spec, r) && (spec.maxRows == 0 || produced' < spec.maxRows)
  {
    sunk', chunk', produced', more := sunk, chunk, produced, false;
    if spec.useGeoBox && !InBox(spec, r) {
      return;
    }
    Lists.PrefixStep(found, i);
    chunk', produced' := chunk + [r], produced + 1;
    assert Flat(sunk) + (chunk + [r]) == found[..i + 1];
    if |chunk'| >= size {
      FlatShip(sunk, chunk');
      sunk', chunk' := sunk + [Chunk(chunk', false)], [];
    }
    more := spec.maxRows == 0 || produced' < spec.maxRows;
  }

  // A place the loop may leave off: the end, a miss, or the cap.
  ghost predicate StopsAt(spec: Spec, rows: seq<Row>, stop: nat, i: nat) {
    && i <= stop <= |rows|
    && (spec.maxRows == 0 || i <= spec.maxRows)
    && (i == stop || !PassesBox(spec, rows[i]) || (spec.maxRows != 0 && i == spec.maxRows))
  }

  // Wherever the loop leaves off, what it sent is the framing of the capped rows before
  // the first miss.
  lemma EmitStopped(spec: Spec, rows: seq<Row>, stop: nat, i: nat, sunk: seq<Chunk<Row>>, chunk: seq<Row>, size: nat)
    requires StopsAt(spec, rows, stop, i) && Sending(spec, rows, sunk, chunk, size, i)
    ensures sunk + [Chunk(chunk, true)] == Chunks(Capped(BeforeMiss(spec, rows[..stop]), spec.maxRows), size, false)
  {
    hide PassesBox, BeforeMiss, Flat, Chunks;
    var p := BeforeMissIs(spec, rows[..stop]);
    assert forall k :: 0 <= k < stop ==> rows[..stop][k] == rows[k];
    assert rows[..stop][..p] == rows[..p];
    assert i <= p && (i < p ==> rows[..p][..i] == rows[..i]);
    ChunksResume(sunk, chunk, size, false);
  }

  // ---- how far the run agrees with the reference ----

  lemma {:induction false} BoxOnlyAll(spec: Spec, rows: seq<Row>)
    requires AllPass(spec, rows, |rows|)
    ensures BoxOnly(spec, rows) == rows
  {
    if rows != [] {
      BoxOnlyAll(spec, rows[..|rows| - 1]);
    }
  }

  // The answer is what the run sends before the first miss, then what it never reaches.
  lemma AnswerSplit(rows: seq<Row>, spec: Spec) returns (p: nat)
    ensures var found := AllFound(rows, spec, BoroughByte(spec));
      && FirstMiss(spec, found, p) && BeforeMiss(spec, found) == found[..p]
      && Answer(rows, spec, BoroughByte(spec)) == found[..p] + BoxOnly(spec, found[p..])
  {
    FoundInBox(rows, spec, BoroughByte(spec));
    var found := AllFound(rows, spec, BoroughByte(spec));
    p := BeforeMissIs(spec, found);
    BoxOnlyAll(spec, found[..p]);
    BoxOnlySplit(spec, found, p);
  }

  // The run is sound whatever the cancel flag does: what it sends is a prefix of the
  // answer, in row order.
  lemma RunIsPrefix(rows: seq<Row>, spec: Spec, polls: nat -> bool)
    ensures RunRows(rows, spec, polls) <= Answer(rows, spec, BoroughByte(spec))
  {
    hide PassesBox, AllFound, Answer;
    var found := AllFound(rows, spec, BoroughByte(spec));
    var p := AnswerSplit(rows, spec);
    var stop := Stop(polls, 0, |found|);
    var q := BeforeMissIs(spec, found[..stop]);
    assert found[..stop][..q] == found[..q];
  }

  // Chunks carry exactly the rows sent, done once and last; the others are full, 512 rows each
  // unless the caller says otherwise, and the last is shorter.
  lemma RunChunksCarry(rows: seq<Row>, spec: Spec, chunkRows: uint32, polls: nat -> bool)
    ensures var cs, size: nat := RunChunks(rows, spec, chunkRows, polls), if chunkRows == 0 then 512 else chunkRows;
      && Flat(cs) == RunRows(rows, spec, polls)
      && (forall k :: 0 <= k < |cs| ==> (cs[k].done <==> k == |cs| - 1))
      && (forall k :: 0 <= k < |cs| - 1 ==> |cs[k].rows| == size)
      && |cs[|cs| - 1].rows| < size
  {
    ChunksFrame(RunRows(rows, spec, polls), if chunkRows == 0 then 512 else chunkRows, false);
  }

  // A run that finds the flag first set at its poll of item 1024 * j has gone through that
  // many survivors, or up to the first miss or the cap among them; one whose polls all find
  // it clear through all of them.
  lemma CanceledRunStops(rows: seq<Row>, spec: Spec, polls: nat -> bool, j: nat)
    ensures var found := AllFound(rows, spec, BoroughByte(spec));
      && (SetAt(polls, j) ==>
            RunRows(rows, spec, polls) == Capped(BeforeMiss(spec, Head(found, 1024 * j)), spec.maxRows))
      && ((forall k :: 0 <= k < |found| && k % 1024 == 0 ==> !polls(k)) ==>
            RunRows(rows, spec, polls) == Capped(BeforeMiss(spec, found), spec.maxRows))
  {
    var found := AllFound(rows, spec, BoroughByte(spec));
    if SetAt(polls, j) { StopsAfter(polls, j, found); }
    if forall k :: 0 <= k < |found| && k % 1024 == 0 ==> !polls(k) {
      NeverStops(polls, 0, |found|);
      assert found[..|found|] == found;
    }
  }

  // So the run of a request canceled before it begins hands over one empty chunk.
  lemma CanceledRunAtOnce(rows: seq<Row>, spec: Spec, chunkRows: uint32, polls: nat -> bool)
    requires polls(0)
    ensures RunChunks(rows, spec, chunkRows, polls) == [Chunk([], true)]
  {
    CanceledRunStops(rows, spec, polls, 0);
    assert Head(AllFound(rows, spec, BoroughByte(spec)), 0) == [];
  }

  // The guard that fails: a survivor outside the box comes before one inside it that
  // the cap would still have let through.
  ghost predicate LosesRows(spec: Spec, found: seq<Row>) {
    exists p, k :: LosesAt(spec, found, p, k)
  }

  ghost predicate LosesAt(spec: Spec, found: seq<Row>, p: int, k: int) {
    && 0 <= p < k < |found|
    && !PassesBox(spec, found[p]) && (spec.maxRows == 0 || |BoxOnly(spec, found[..p])| < spec.maxRows)
    && PassesBox(spec, found[k])
  }

  lemma LosesPastMiss(spec: Spec, found: seq<Row>, p: nat, q: int, k: int)
    requires FirstMiss(spec, found, p) && LosesAt(spec, found, q, k)
    ensures BoxOnly(spec, found[p..]) != [] && (spec.maxRows == 0 || p < spec.maxRows)
  {
    hide PassesBox, BoxOnly;
    assert p <= q;
    BoxOnlyAll(spec, found[..p]);
    PartitionScan.BoxOnlyPrefix(spec, found, p, q);
    assert found[p..][k - p] == found[k];
    BoxOnlyHas(spec, found[p..], k - p);
  }

  lemma MissLoses(spec: Spec, found: seq<Row>, p: nat) returns (k: int)
    requires FirstMiss(spec, found, p) && BoxOnly(spec, found[p..]) != []
    requires spec.maxRows == 0 || p < spec.maxRows
    ensures LosesAt(spec, found, p, k)
  {
    hide PassesBox, BoxOnly;
    var j := HitIn(spec, found[p..]);
    k := p + j;
    assert found[p..][j] == found[k];
    BoxOnlyAll(spec, found[..p]);
  }

  lemma WholeUnlessLoses(spec: Spec, found: seq<Row>, p: nat)
    requires FirstMiss(spec, found, p)
    ensures Capped(found[..p], spec.maxRows) == Capped(found[..p] + BoxOnly(spec, found[p..]), spec.maxRows)
      <==> !LosesRows(spec, found)
  {
    hide PassesBox, BoxOnly, Capped, LosesAt;
    CappedExtends(found[..p], BoxOnly(spec, found[p..]), spec.maxRows);
    if LosesRows(spec, found) {
      var q, k :| LosesAt(spec, found, q, k);
      LosesPastMiss(spec, found, p, q, k);
    } else if BoxOnly(spec, found[p..]) != [] && (spec.maxRows == 0 || p < spec.maxRows) {
      var k := MissLoses(spec, found, p);
    }
  }

  // Uncanceled, the run is the whole (capped) answer exactly when that guard never fails.
  lemma RunIsWholeAnswer(rows: seq<Row>, spec: Spec, polls: nat -> bool)
    requires Uncanceled(polls)
    ensures RunRows(rows, spec, polls) == Capped(Answer(rows, spec, BoroughByte(spec)), spec.maxRows)
      <==> !LosesRows(spec, AllFound(rows, spec, BoroughByte(spec)))
  {
    var found := AllFound(rows, spec, BoroughByte(spec));
    NeverStops(polls, 0, |found|);
    assert found[..|found|] == found;
    var p := AnswerSplit(rows, spec);
    WholeUnlessLoses(spec, found, p);
  }

  lemma CappedExtends(a: seq<Row>, b: seq<Row>, cap: nat)
    ensures Capped(a, cap) == Capped(a + b, cap) <==> b == [] || (cap != 0 && |a| >= cap)
  {
    if b == [] {
      assert a + b == a;
    } else if cap != 0 && |a| >= cap {
      assert (a + b)[..cap] == a[..cap];
      assert |a| == cap ==> a[..cap] == a;
    } else {
      assert |Capped(a + b, cap)| > |Capped(a, cap)|;
    }
  }

  lemma {:induction false} BoxOnlyHas(spec: Spec, rows: seq<Row>, k: nat)
    requires k < |rows| && PassesBox(spec, rows[k])
    ensures rows[k] in BoxOnly(spec, rows)
    decreases |rows|
  {
    if k < |rows| - 1 {
      BoxOnlyHas(spec, rows[..|rows| - 1], k);
    }
  }

  lemma {:induction false} HitIn(spec: Spec, rows: seq<Row>) returns (k: nat)
    requires BoxOnly(spec, rows) != []
    ensures k < |rows| && PassesBox(spec, rows[k])
    decreases |rows|
  {
    if PassesBox(spec, rows[|rows| - 1]) {
      k := |rows| - 1;
    } else {
      k := HitIn(spec, rows[..|rows| - 1]);
    }
  }

  // Without a box there is no miss, so the run is whole.
  lemma BoxlessRunIsWhole(rows: seq<Row>, spec: Spec, polls: nat -> bool)
    requires Uncanceled(polls) && !spec.useGeoBox
    ensures RunRows(rows, spec, polls) == Capped(Reference(rows, spec, BoroughByte(spec)), spec.maxRows)
  {
    RunIsWholeAnswer(rows, spec, polls);
  }

  // A latitude strictly between x and the top of x's cell.
  function JustAbove(x: real): real { (x + ((Cell(x) + 1) as real) * GRID_DEG) / 2.0 }

  lemma JustAboveInCell(x: real)
    ensures x < JustAbove(x) && Cell(JustAbove(x)) == Cell(x) && JustAbove(x) != 0.0
  {
    var k := Cell(x);
    assert k as real <= x / GRID_DEG < (k + 1) as real;
    assert JustAbove(x) / GRID_DEG == (x / GRID_DEG + (k + 1) as real) / 2.0;
    if JustAbove(x) == 0.0 { assert k as real < 0.0 / GRID_DEG < (k + 1) as real; }
  }

  lemma FoundTwo(a: Row, b: Row, spec: Spec, borough: int)
    requires Found(spec, borough, a) && Found(spec, borough, b)
    ensures AllFound([a, b], spec, borough) == [a, b]
  {
    assert [a, b][..1] == [a] && [a][..0] == [];
    assert AllFound([], spec, borough) == [];
    assert AllFound([a], spec, borough) == [a];
  }

  // Any row a box query should return can be lost: put one row of the same cells, just
  // north of the box, ahead of it and the run returns nothing at all.
  lemma BoxRunCanLoseAnyRow(spec: Spec, r: Row, polls: nat -> bool) returns (rows: seq<Row>)
    requires spec.useGeoBox && Uncanceled(polls)
    requires Wanted(spec, BoroughByte(spec), r) && !AtOrigin(r)
    ensures r in Answer(rows, spec, BoroughByte(spec)) && RunRows(rows, spec, polls) == []
    ensures |rows| == 2 && rows[1] == r && Cell(rows[0].lat) == Cell(spec.maxLat) && rows[0].lon == r.lon
  {
    hide Found, InBox, Wanted, JustAbove;
    var north := NorthOf(spec, r);
    rows := [north, r];
    FoundTwo(north, r, spec, BoroughByte(spec));
    NeverStops(polls, 0, 2);
    assert rows[..2] == rows;
    FoundInBox(rows, spec, BoroughByte(spec));
    BoxOnlyHas(spec, rows, 1);
  }

  lemma NorthOf(spec: Spec, r: Row) returns (north: Row)
    requires spec.useGeoBox && Wanted(spec, BoroughByte(spec), r) && !AtOrigin(r)
    ensures Found(spec, BoroughByte(spec), north) && Found(spec, BoroughByte(spec), r)
    ensures !InBox(spec, north) && InBox(spec, r)
    ensures Cell(north.lat) == Cell(spec.maxLat) && north.lon == r.lon
  {
    JustAboveInCell(spec.maxLat);
    north := r.(lat := JustAbove(spec.maxLat));
    BoxTouchesCell(spec, r);
    CellMonotone(spec.minLat, spec.maxLat);
  }

  // ---- on which queries it can be relied on ----

  // Without regard to the grid's blind spot: uncanceled, the run is the capped plain
  // filter exactly when it loses no row and no row it should send sits at the origin of
  // a box query.
  lemma RunIsReferenceIff(rows: seq<Row>, spec: Spec, polls: nat -> bool)
    requires Uncanceled(polls)
    ensures var all := Reference(rows, spec, BoroughByte(spec));
      RunRows(rows, spec, polls) == Capped(all, spec.maxRows) <==>
        && !LosesRows(spec, AllFound(rows, spec, BoroughByte(spec)))
        && (spec.useGeoBox ==> NoneAtOrigin(Capped(all, spec.maxRows)))
  {
    hide LosesRows, AllFound, NoneAtOrigin, Reference, OffOrigin;
    var all, answer := Reference(rows, spec, BoroughByte(spec)), Answer(rows, spec, BoroughByte(spec));
    RunIsWholeAnswer(rows, spec, polls);
    if spec.useGeoBox {
      OffOriginCapped(all, spec.maxRows);
      OffOriginDrops(all);
      RunIsPrefix(rows, spec, polls);
      PrefixOfCapped(RunRows(rows, spec, polls), answer, spec.maxRows);
    }
  }

  lemma PrefixOfCapped(sent: seq<Row>, answer: seq<Row>, cap: nat)
    requires sent <= answer && (cap == 0 || |sent| <= cap)
    ensures |sent| < |Capped(answer, cap)| || sent == Capped(answer, cap)
  {}

  predicate DatesPossible(spec: Spec) {
    spec.dateFrom == 0 || spec.dateTo == 0 || spec.dateFrom <= spec.dateTo
  }

  predicate EmptyBox(spec: Spec) { spec.minLat > spec.maxLat || spec.minLon > spec.maxLon }

  // The box is the single point (0, 0).
  predicate OriginBox(spec: Spec) { spec.minLat == spec.maxLat == spec.minLon == spec.maxLon == 0.0 }

  // No row off the origin can match the box query.
  predicate MatchesNowhere(spec: Spec) { !DatesPossible(spec) || EmptyBox(spec) || OriginBox(spec) }

  // A row in the box, off the origin if the box leaves it, that passes the rest of the spec.
  function RowInBox(spec: Spec): Row {
    var low := spec.minLat != 0.0 || spec.minLon != 0.0;
    Row(1, if spec.dateFrom != 0 then spec.dateFrom else spec.dateTo, BoroughByte(spec),
      if low then spec.minLat else spec.maxLat, if low then spec.minLon else spec.maxLon, spec.complaint)
  }

  lemma RowInBoxWanted(spec: Spec)
    requires DatesPossible(spec) && (spec.useGeoBox ==> !EmptyBox(spec))
    ensures Wanted(spec, BoroughByte(spec), RowInBox(spec))
    ensures !OriginBox(spec) ==> !AtOrigin(RowInBox(spec))
  {}

  // A spec is answered whole on every store exactly when it has no box, or one that no row
  // off the origin can match: no date can, or the box is empty or the point (0, 0).
  lemma RunIsWholeEverywhereIff(spec: Spec, polls: nat -> bool)
    requires Uncanceled(polls)
    ensures (forall rows :: RunRows(rows, spec, polls) == Capped(Answer(rows, spec, BoroughByte(spec)), spec.maxRows))
      <==> !spec.useGeoBox || MatchesNowhere(spec)
  {
    if !spec.useGeoBox {
      forall rows ensures RunRows(rows, spec, polls) == Capped(Answer(rows, spec, BoroughByte(spec)), spec.maxRows) {
        BoxlessRunIsWhole(rows, spec, polls);
      }
    } else if MatchesNowhere(spec) {
      forall rows ensures RunRows(rows, spec, polls) == Capped(Answer(rows, spec, BoroughByte(spec)), spec.maxRows) {
        NothingOffOrigin(rows, spec, BoroughByte(spec));
        RunIsPrefix(rows, spec, polls);
      }
    } else {
      RowInBoxWanted(spec);
      var rows := BoxRunCanLoseAnyRow(spec, RowInBox(spec), polls);
      assert Capped(Answer(rows, spec, BoroughByte(spec)), spec.maxRows) != [];
    }
  }

  lemma WantedNowhere(spec: Spec, borough: int, r: Row)
    requires spec.useGeoBox && MatchesNowhere(spec) && Wanted(spec, borough, r)
    ensures AtOrigin(r) && DatesPossible(spec) && !EmptyBox(spec)
  {}

  lemma {:induction false} OffOriginNone(rows: seq<Row>)
    requires forall k :: 0 <= k < |rows| ==> AtOrigin(rows[k])
    ensures OffOrigin(rows) == []
  {
    hide AtOrigin;
    if rows != [] {
      OffOriginNone(rows[..|rows| - 1]);
    }
  }

  lemma NothingOffOrigin(rows: seq<Row>, spec: Spec, borough: int)
    requires spec.useGeoBox && MatchesNowhere(spec)
    ensures OffOrigin(Reference(rows, spec, borough)) == []
    ensures !DatesPossible(spec) || EmptyBox(spec) ==> Reference(rows, spec, borough) == []
  {
    hide Wanted, AtOrigin, Reference, OffOrigin, DatesPossible, EmptyBox, MatchesNowhere;
    var all := Reference(rows, spec, borough);
    ReferenceKeeps(rows, spec, borough);
    forall k | 0 <= k < |all| ensures AtOrigin(all[k]) && DatesPossible(spec) && !EmptyBox(spec) {
      assert all[k] in all;
      WantedNowhere(spec, borough, all[k]);
    }
    OffOriginNone(all);
    if all != [] { assert AtOrigin(all[0]); }
  }

  // ---- the borough byte ----

  lemma {:induction false} NoneWanted(rows: seq<Row>, spec: Spec, borough: int)
    requires forall r :: !Wanted(spec, borough, r)
    ensures Reference(rows, spec, borough) == []
  {
    if rows != [] {
      NoneWanted(rows[..|rows| - 1], spec, borough);
    }
  }

  // The engine and the Python row loop answer the spec alike on every store exactly when no
  // date can match; or without a box the borough fits the byte it is cast to; or with one, the
  // box is empty, or is the point (0, 0) and the borough does not fit the byte.
  lemma EnginesAgreeIff(spec: Spec, polls: nat -> bool)
    requires Uncanceled(polls)
    ensures (forall rows :: RunRows(rows, spec, polls) == Capped(Reference(rows, spec, spec.borough), spec.maxRows))
      <==>
      || !DatesPossible(spec)
      || (if spec.useGeoBox then EmptyBox(spec) || (OriginBox(spec) && !(0 <= spec.borough < 0x100))
          else 0 <= spec.borough < 0x100)
  {
    hide Reference, RunRows, Wanted, DatesPossible, EmptyBox, OriginBox, BoroughByte;
    if spec.useGeoBox {
      BoxEnginesAgreeIff(spec, polls);
    } else {
      BoxlessEnginesAgreeIff(spec, polls);
    }
  }

  lemma BoxlessEnginesAgreeIff(spec: Spec, polls: nat -> bool)
    requires Uncanceled(polls) && !spec.useGeoBox
    ensures (forall rows :: RunRows(rows, spec, polls) == Capped(Reference(rows, spec, spec.borough), spec.maxRows))
      <==> 0 <= spec.borough < 0x100 || !DatesPossible(spec)
  {
    if 0 <= spec.borough < 0x100 {
      forall rows ensures RunRows(rows, spec, polls) == Capped(Reference(rows, spec, spec.borough), spec.maxRows) {
        BoxlessRunIsWhole(rows, spec, polls);
      }
    } else if !DatesPossible(spec) {
      forall rows ensures RunRows(rows, spec, polls) == Capped(Reference(rows, spec, spec.borough), spec.maxRows) {
        BoxlessRunIsWhole(rows, spec, polls);
        NoneWanted(rows, spec, spec.borough);
        NoneWanted(rows, spec, BoroughByte(spec));
      }
    } else {
      var r := RowInBox(spec);
      RowInBoxWanted(spec);
      BoxlessRunIsWhole([r], spec, polls);
      ReferenceOne(r, spec, spec.borough);
      ReferenceOne(r, spec, BoroughByte(spec));
      assert Capped([r], spec.maxRows) == [r];
    }
  }

  lemma BoxEnginesAgreeIff(spec: Spec, polls: nat -> bool)
    requires Uncanceled(polls) && spec.useGeoBox
    ensures (forall rows :: RunRows(rows, spec, polls) == Capped(Reference(rows, spec, spec.borough), spec.maxRows))
      <==> !DatesPossible(spec) || EmptyBox(spec) || (OriginBox(spec) && !(0 <= spec.borough < 0x100))
  {
    hide Reference, RunRows, AllFound, Wanted;
    if !DatesPossible(spec) || EmptyBox(spec) || (OriginBox(spec) && !(0 <= spec.borough < 0x100)) {
      forall rows ensures RunRows(rows, spec, polls) == Capped(Reference(rows, spec, spec.borough), spec.maxRows) {
        NothingOffOrigin(rows, spec, BoroughByte(spec));
        RunIsPrefix(rows, spec, polls);
        NothingOffOrigin(rows, spec, spec.borough);
        if 0 > spec.borough || spec.borough >= 0x100 { OutOfByte(rows, spec); }
      }
    } else {
      var rows := EnginesDiffer(spec, polls);
    }
  }

  lemma OutOfByte(rows: seq<Row>, spec: Spec)
    requires !(0 <= spec.borough < 0x100)
    ensures Reference(rows, spec, spec.borough) == []
  {
    NoneWanted(rows, spec, spec.borough);
  }

  // One store on which they differ.
  lemma EnginesDiffer(spec: Spec, polls: nat -> bool) returns (rows: seq<Row>)
    requires Uncanceled(polls) && spec.useGeoBox && DatesPossible(spec) && !EmptyBox(spec)
    requires OriginBox(spec) ==> 0 <= spec.borough < 0x100
    ensures RunRows(rows, spec, polls) != Capped(Reference(rows, spec, spec.borough), spec.maxRows)
  {
    hide Reference, RunRows, AllFound, Wanted, InBox, Found;
    var r := RowInBox(spec);
    RowInBoxWanted(spec);
    ReferenceOne(r, spec, spec.borough);
    if OriginBox(spec) {
      rows := [r];
      NothingOffOrigin(rows, spec, BoroughByte(spec));
      RunIsPrefix(rows, spec, polls);
    } else if 0 <= spec.borough < 0x100 {
      rows := BoxRunCanLoseAnyRow(spec, r, polls);
      ReferenceKeeps(rows, spec, spec.borough);
      assert rows[1] in rows;
      assert rows[1] in Reference(rows, spec, spec.borough);
    } else {
      rows := [r];
      OutOfByte(rows, spec);
      OneRowIsSent(spec, r, polls);
    }
  }

  // A single matching row off the origin is always sent.
  lemma OneRowIsSent(spec: Spec, r: Row, polls: nat -> bool)
    requires Uncanceled(polls) && Wanted(spec, BoroughByte(spec), r) && !AtOrigin(r)
    ensures RunRows([r], spec, polls) == [r]
  {
    hide AllFound, RunRows, Reference, Wanted, OffOrigin;
    RunIsWholeAnswer([r], spec, polls);
    FoundNoMore([r], spec, BoroughByte(spec));
    assert !LosesRows(spec, AllFound([r], spec, BoroughByte(spec)));
    ReferenceOne(r, spec, BoroughByte(spec));
    OffOriginKeeps([r]);
  }

  // As for 256: the engine asks for rows with no borough, the row loop for nothing.
  lemma BoroughWraps(r: Row, polls: nat -> bool)
    requires Uncanceled(polls) && r.borough == 0
    ensures var spec := Spec(256, "", 0, 0, 0.0, 0.0, 0.0, 0.0, false, 0);
      RunRows([r], spec, polls) == [r] && Reference([r], spec, spec.borough) == []
  {
    var spec := Spec(256, "", 0, 0, 0.0, 0.0, 0.0, 0.0, false, 0);
    BoxlessRunIsWhole([r], spec, polls);
    ReferenceOne(r, spec, 0);
    ReferenceOne(r, spec, 256);
  }
}
