// What the Python scan promises: the indexed plan yields the row loop's chunks, and
// exactly when it does not.

module ScanTheorems {
  import opened Rows
  import opened QueryPlan
  import opened PartitionScan

  ghost predicate Uncanceled(polls: nat -> bool) { forall k :: !polls(k) }

  // Uncanceled, the row loop emits the reference answer and the indexed plan the
  // answer the grid can see.
  lemma ScansAreReference(rows: seq<Row>, spec: Spec, polls: nat -> bool)
    requires Uncanceled(polls)
    ensures ScanRows(rows, spec, true, polls) == Reference(rows, spec, spec.borough)
    ensures ScanRows(rows, spec, false, polls) == Answer(rows, spec, spec.borough)
  {
    NeverStops(polls, 0, |rows|);
    assert rows[..|rows|] == rows;
    if !Unfiltered(spec) {
      var found := AllFound(rows, spec, spec.borough);
      NeverStops(polls, 0, |found|);
      assert found[..|found|] == found;
      FoundInBox(rows, spec, spec.borough);
    }
  }

  // A query that asks for nothing in particular wants every row.
  lemma {:induction false} NothingAskedWantsAll(rows: seq<Row>, spec: Spec, borough: int)
    requires spec.borough == 0 && spec.complaint == "" && spec.dateFrom == 0 && spec.dateTo == 0 && !spec.useGeoBox
    ensures Reference(rows, spec, borough) == rows
  {
    if rows != [] {
      var init := rows[..|rows| - 1];
      NothingAskedWantsAll(init, spec, borough);
      assert rows == init + [rows[|rows| - 1]];
    }
  }

  // ---- a canceled scan ----

  // A scan that finds the flag first set at its poll of item 1024 * j has gone through the
  // items before it and no others: the row loop through that many rows, the indexed plan
  // through that many survivors.
  lemma CanceledScanStops(rows: seq<Row>, spec: Spec, polls: nat -> bool, j: nat)
    requires SetAt(polls, j)
    ensures ScanRows(rows, spec, true, polls) == Reference(Head(rows, 1024 * j), spec, spec.borough)
    ensures ScanRows(rows, spec, false, polls)
      == if Unfiltered(spec) then Reference(Head(rows, 1024 * j), spec, spec.borough)
         else BoxOnly(spec, Head(AllFound(rows, spec, spec.borough), 1024 * j))
  {
    StopsAfter(polls, j, rows);
    StopsAfter(polls, j, AllFound(rows, spec, spec.borough));
  }

  // One whose polls all find it clear emits everything, whatever the flag is in between.
  lemma ClearScanGoesOn(rows: seq<Row>, spec: Spec, polls: nat -> bool)
    requires forall k :: 0 <= k < |rows| && k % 1024 == 0 ==> !polls(k)
    ensures ScanRows(rows, spec, true, polls) == Reference(rows, spec, spec.borough)
    ensures ScanRows(rows, spec, false, polls) == Answer(rows, spec, spec.borough)
  {
    var found := AllFound(rows, spec, spec.borough);
    FoundNoMore(rows, spec, spec.borough);
    NeverStops(polls, 0, |rows|);
    NeverStops(polls, 0, |found|);
    assert rows[..|rows|] == rows && found[..|found|] == found;
    FoundInBox(rows, spec, spec.borough);
  }

  // So a scan of a request canceled before it begins yields one empty chunk.
  lemma CanceledAtOnce(rows: seq<Row>, spec: Spec, chunkRows: int, linear: bool, polls: nat -> bool)
    requires polls(0)
    ensures ScanChunks(rows, spec, chunkRows, linear, polls) == [Chunk([], true)]
  {
    CanceledScanStops(rows, spec, polls, 0);
    assert Head(rows, 0) == [] && Head(AllFound(rows, spec, spec.borough), 0) == [];
  }

  // Chunks carry exactly the capped rows, in order, done once and last; the last is shorter
  // than the others, unless the cap ended it, when it is not empty.
  lemma ScanFrameCarries(rows: seq<Row>, chunkRows: int, cap: nat)
    ensures var cs := ScanFrame(rows, chunkRows, cap);
      && Flat(cs) == Capped(rows, cap)
      && (forall k :: 0 <= k < |cs| ==> (cs[k].done <==> k == |cs| - 1))
      && (forall k :: 0 <= k < |cs| - 1 ==> |cs[k].rows| == if chunkRows < 1 then 1 else chunkRows)
      && var last, size := |cs[|cs| - 1].rows|, if chunkRows < 1 then 1 else chunkRows;
         if cap != 0 && |rows| >= cap then 1 <= last <= size else last < size
  {
    hide Chunks, Flat;
    var size := if chunkRows < 1 then 1 else chunkRows;
    ChunksFrame(rows, size, false);
    if cap != 0 && |rows| >= cap {
      ChunksFrame(rows[..cap], size, true);
      LazyLastIsNotEmpty(rows[..cap], size);
    }
  }

  lemma {:induction false} LazyLastIsNotEmpty(rows: seq<Row>, size: nat)
    requires size > 0 && rows != []
    ensures var cs := Chunks(rows, size, true); cs[|cs| - 1].rows != []
    decreases |rows|
  {
    if |rows| > size {
      LazyLastIsNotEmpty(rows[size..], size);
    }
  }

  // Two answers are chunked alike exactly when they agree up to the cap.
  lemma SameFrame(a: seq<Row>, b: seq<Row>, chunkRows: int, cap: nat)
    ensures ScanFrame(a, chunkRows, cap) == ScanFrame(b, chunkRows, cap) <==> Capped(a, cap) == Capped(b, cap)
  {
    ScanFrameCarries(a, chunkRows, cap);
    ScanFrameCarries(b, chunkRows, cap);
    if Capped(a, cap) == Capped(b, cap) && cap != 0 {
      assert |a| >= cap <==> |b| >= cap;
      assert |a| == cap ==> a[..cap] == a;
      assert |b| == cap ==> b[..cap] == b;
    }
  }

  lemma {:induction false} OffOriginConcat(a: seq<Row>, b: seq<Row>)
    ensures OffOrigin(a + b) == OffOrigin(a) + OffOrigin(b)
    decreases |b|
  {
    if b == [] {
      assert a + b == a;
    } else {
      assert (a + b)[..|a + b| - 1] == a + b[..|b| - 1];
      OffOriginConcat(a, b[..|b| - 1]);
    }
  }

  ghost predicate NoneAtOrigin(rows: seq<Row>) {
    forall k :: 0 <= k < |rows| ==> !AtOrigin(rows[k])
  }

  lemma {:induction false} OffOriginDrops(rows: seq<Row>)
    ensures NoneAtOrigin(OffOrigin(rows)) && |OffOrigin(rows)| <= |rows|
    ensures |OffOrigin(rows)| == |rows| ==> OffOrigin(rows) == rows
  {
    hide AtOrigin;
    if rows != [] {
      OffOriginDrops(rows[..|rows| - 1]);
    }
  }

  lemma {:induction false} OffOriginKeeps(rows: seq<Row>)
    requires NoneAtOrigin(rows)
    ensures OffOrigin(rows) == rows
  {
    hide AtOrigin;
    if rows != [] {
      var init := rows[..|rows| - 1];
      OffOriginKeeps(init);
      assert rows == init + [rows[|rows| - 1]];
    }
  }

  lemma OffOriginCapped(rows: seq<Row>, cap: nat)
    ensures Capped(OffOrigin(rows), cap) == Capped(rows, cap) <==> NoneAtOrigin(Capped(rows, cap))
  {
    hide OffOrigin, AtOrigin;
    OffOriginDrops(rows);
    if NoneAtOrigin(Capped(rows, cap)) {
      OffOriginKeeps(Capped(rows, cap));
      if cap != 0 && |rows| > cap {
        OffOriginConcat(rows[..cap], rows[cap..]);
        assert rows == rows[..cap] + rows[cap..];
        CappedPrefix(rows[..cap], OffOrigin(rows[cap..]), cap);
      }
    } else {
      NoneAtOriginCapped(OffOrigin(rows), cap);
    }
  }

  lemma CappedPrefix(a: seq<Row>, b: seq<Row>, cap: nat)
    requires cap == |a| > 0
    ensures Capped(a + b, cap) == a
  {}

  lemma NoneAtOriginCapped(rows: seq<Row>, cap: nat)
    requires NoneAtOrigin(rows)
    ensures NoneAtOrigin(Capped(rows, cap))
  {}

  // The indexed plan yields the same sequence of (rows, done) pairs as the row loop
  // exactly when no delivered row of a box query sits at the origin, the one place
  // the grid leaves out.
  lemma IndexedRefinesLinear(rows: seq<Row>, spec: Spec, chunkRows: int, polls: nat -> bool)
    requires Uncanceled(polls)
    ensures ScanChunks(rows, spec, chunkRows, false, polls) == ScanChunks(rows, spec, chunkRows, true, polls)
      <==> !spec.useGeoBox || NoneAtOrigin(Capped(Reference(rows, spec, spec.borough), spec.maxRows))
  {
    ScansAreReference(rows, spec, polls);
    SameFrame(ScanRows(rows, spec, false, polls), ScanRows(rows, spec, true, polls), chunkRows, spec.maxRows);
    OffOriginCapped(Reference(rows, spec, spec.borough), spec.maxRows);
  }

  // ---- the condition a caller can check on the spec alone ----

  predicate OriginMatches(spec: Spec) {
    && spec.useGeoBox
    && spec.minLat <= 0.0 <= spec.maxLat && spec.minLon <= 0.0 <= spec.maxLon
    && 0 <= spec.borough < 0x100
    && (spec.dateFrom == 0 || spec.dateTo == 0 || spec.dateFrom <= spec.dateTo)
  }

  // A row at the origin passing every predicate of the spec.
  function OriginRow(spec: Spec): Row
    requires OriginMatches(spec)
  {
    Row(1, if spec.dateFrom != 0 then spec.dateFrom else spec.dateTo, spec.borough, 0.0, 0.0, spec.complaint)
  }

  // A spec is safe on every partition exactly when no row at the origin can match it.
  lemma IndexedRefinesLinearEverywhere(spec: Spec, chunkRows: int, polls: nat -> bool)
    requires Uncanceled(polls)
    ensures (forall rows ::
      ScanChunks(rows, spec, chunkRows, false, polls) == ScanChunks(rows, spec, chunkRows, true, polls))
      <==> !OriginMatches(spec)
  {
    if OriginMatches(spec) {
      var r := OriginRow(spec);
      ReferenceOne(r, spec, spec.borough);
      assert Capped([r], spec.maxRows)[0] == r;
      IndexedRefinesLinear([r], spec, chunkRows, polls);
    } else {
      forall rows
        ensures ScanChunks(rows, spec, chunkRows, false, polls) == ScanChunks(rows, spec, chunkRows, true, polls)
      {
        var all := Reference(rows, spec, spec.borough);
        ReferenceKeeps(rows, spec, spec.borough);
        forall k | 0 <= k < |Capped(all, spec.maxRows)|
          ensures spec.useGeoBox ==> !AtOrigin(Capped(all, spec.maxRows)[k])
        {
          assert all[k] in all;
        }
        IndexedRefinesLinear(rows, spec, chunkRows, polls);
      }
    }
  }

  // A canceled scan emits a prefix of what the uncanceled one emits, on either path.
  lemma CanceledIsPrefix(rows: seq<Row>, spec: Spec, linear: bool, polls: nat -> bool, never: nat -> bool)
    requires Uncanceled(never)
    ensures ScanRows(rows, spec, linear, polls) <= ScanRows(rows, spec, linear, never)
  {
    if linear || Unfiltered(spec) {
      NeverStops(never, 0, |rows|);
      ReferencePrefix(rows, spec, spec.borough, Stop(polls, 0, |rows|), |rows|);
    } else {
      var found := AllFound(rows, spec, spec.borough);
      NeverStops(never, 0, |found|);
      BoxOnlyPrefix(spec, found, Stop(polls, 0, |found|), |found|);
    }
  }
}
