// The query plan over the indices: one candidate list per predicate, their intersection,
// and the residual check against the exact box.

module QueryPlan {
  import opened Lists
  import opened Rows
  import opened GridIndices

  // What the index lookups know of a row: every predicate exactly, except that the box
  // is known by grid cell only and rows at the origin are never seen.
  predicate Found(spec: Spec, borough: int, r: Row) {
    && (spec.borough == 0 || r.borough == borough)
    && (spec.complaint == "" || r.complaint == spec.complaint)
    && DateWanted(spec, r.date)
    && (spec.useGeoBox ==> !AtOrigin(r) && CellTouched(spec, r))
  }

  function AllFound(rows: seq<Row>, spec: Spec, borough: int): seq<Row> {
    if rows == [] then []
    else AllFound(rows[..|rows| - 1], spec, borough)
         + if Found(spec, borough, rows[|rows| - 1]) then [rows[|rows| - 1]] else []
  }

  lemma {:induction false} FoundNoMore(rows: seq<Row>, spec: Spec, borough: int)
    ensures |AllFound(rows, spec, borough)| <= |rows|
  {
    if rows != [] {
      FoundNoMore(rows[..|rows| - 1], spec, borough);
    }
  }

  // The ascending list of found row ids below n.
  ghost predicate FoundIds(c: Columns, spec: Spec, borough: int, ids: seq<nat>, n: nat)
    requires c.Aligned() && n <= c.Size()
  {
    && Ascending(ids)
    && (forall k :: 0 <= k < |ids| ==> ids[k] < n)
    && forall x :: 0 <= x < n ==> (x in ids <==> Found(spec, borough, c.RowAt(x)))
  }

  lemma FoundNext(c: Columns, spec: Spec, borough: int, n: nat)
    requires c.Aligned() && n < c.Size()
    ensures AllFound(c.AllRows()[..n + 1], spec, borough)
      == AllFound(c.AllRows()[..n], spec, borough) + if Found(spec, borough, c.RowAt(n)) then [c.RowAt(n)] else []
  {
    hide Found;
    assert c.AllRows()[..n + 1][..n] == c.AllRows()[..n];
  }

  lemma FoundNone(c: Columns, spec: Spec, borough: int)
    requires c.Aligned()
    ensures c.RowsOf([]) == AllFound(c.AllRows()[..0], spec, borough)
  {}

  lemma RowsOfNext(c: Columns, ids: seq<nat>)
    requires c.Aligned() && ids != [] && forall k :: 0 <= k < |ids| ==> ids[k] < c.Size()
    ensures c.RowsOf(ids) == c.RowsOf(ids[..|ids| - 1]) + [c.RowAt(ids[|ids| - 1])]
  {}

  lemma FoundBelow(c: Columns, spec: Spec, borough: int, ids: seq<nat>, n: nat)
    requires c.Aligned() && n <= c.Size() && FoundIds(c, spec, borough, ids, n)
    ensures (forall k :: 0 <= k < |ids| ==> ids[k] < n) && (ids == [] || n > 0)
    ensures n > 0 ==> (n - 1 in ids <==> Found(spec, borough, c.RowAt(n - 1)))
  {
    hide Found;
    if ids != [] { assert ids[0] < n; }
  }

  // Reading the columns at those ids gives the found rows in row order.
  lemma {:induction false} IdsReadFound(c: Columns, spec: Spec, borough: int, ids: seq<nat>, n: nat)
    requires c.Aligned() && n <= c.Size()
    requires FoundIds(c, spec, borough, ids, n)
    ensures c.RowsOf(ids) == AllFound(c.AllRows()[..n], spec, borough)
    decreases n
  {
    hide Found, AllFound, FoundIds, Columns.RowsOf, Columns.AllRows;
    FoundBelow(c, spec, borough, ids, n);
    if n == 0 {
      FoundNone(c, spec, borough);
    } else {
      FoundNext(c, spec, borough, n - 1);
      if n - 1 in ids {
        FoundInit(c, spec, borough, ids, n);
        IdsReadFound(c, spec, borough, ids[..|ids| - 1], n - 1);
        RowsOfNext(c, ids);
      } else {
        FoundSkip(c, spec, borough, ids, n);
        IdsReadFound(c, spec, borough, ids, n - 1);
      }
    }
  }

  lemma FoundSkip(c: Columns, spec: Spec, borough: int, ids: seq<nat>, n: nat)
    requires c.Aligned() && 0 < n <= c.Size()
    requires FoundIds(c, spec, borough, ids, n) && n - 1 !in ids
    ensures FoundIds(c, spec, borough, ids, n - 1)
  {
    hide Found;
    assert forall k :: 0 <= k < |ids| ==> ids[k] in ids;
  }

  lemma FoundInit(c: Columns, spec: Spec, borough: int, ids: seq<nat>, n: nat)
    requires c.Aligned() && 0 < n <= c.Size()
    requires FoundIds(c, spec, borough, ids, n) && n - 1 in ids
    ensures ids[|ids| - 1] == n - 1 && FoundIds(c, spec, borough, ids[..|ids| - 1], n - 1)
  {
    var init := ids[..|ids| - 1];
    assert ids == init + [ids[|ids| - 1]];
    assert ids[|ids| - 1] == n - 1;
    forall x | 0 <= x < n - 1 ensures x in init <==> x in ids {}
  }

  predicate Unfiltered(spec: Spec) {
    spec.borough == 0 && spec.complaint == "" && spec.dateFrom == 0 && spec.dateTo == 0 && !spec.useGeoBox
  }

  // The bucket of rows holding the wanted borough; empty when there is none.
  method BoroughRows(idx: Indices, ghost c: Columns, borough: int) returns (v: seq<nat>)
    requires idx.Built(c)
    ensures Ascending(v)
    ensures forall x: nat :: x in v <==> x < c.Size() && c.boroughs[x] == borough
  {
    v := if borough in idx.byBorough then idx.byBorough[borough] else [];
    BucketHolds(idx.byBorough, BoroughColumn(c), borough, 0);
    forall x: nat ensures x in v <==> x < c.Size() && c.boroughs[x] == borough {
      BucketHolds(idx.byBorough, BoroughColumn(c), borough, x);
    }
  }

  // The bucket of rows holding the wanted complaint type; empty when there is none.
  method ComplaintRows(idx: Indices, ghost c: Columns, complaint: string) returns (v: seq<nat>)
    requires idx.Built(c)
    ensures Ascending(v)
    ensures forall x: nat :: x in v <==> x < c.Size() && c.complaints[x] == complaint
  {
    v := if complaint in idx.byComplaint then idx.byComplaint[complaint] else [];
    BucketHolds(idx.byComplaint, ComplaintColumn(c), complaint, 0);
    forall x: nat ensures x in v <==> x < c.Size() && c.complaints[x] == complaint {
      BucketHolds(idx.byComplaint, ComplaintColumn(c), complaint, x);
    }
  }

  // One candidate list per indexable predicate; `none` when some predicate has no
  // row at all, which ends the query at once.
  method Candidates(idx: Indices, ghost c: Columns, spec: Spec, borough: int)
    returns (none: bool, cands: seq<seq<nat>>)
    requires idx.Built(c)
    requires spec.useGeoBox ==> BoxOnGrid(spec)
    ensures none ==> !Unfiltered(spec)
    ensures none ==> forall x: nat :: x < c.Size() ==> !Found(spec, borough, c.RowAt(x))
    ensures !none ==> forall k :: 0 <= k < |cands| ==> Ascending(cands[k])
    ensures !none ==> (cands == [] <==> Unfiltered(spec))
    ensures !none && cands != [] ==> forall x: nat ::
      InAll(x, cands) <==> x < c.Size() && Found(spec, borough, c.RowAt(x))
  {
    hide Bucketed, DateSorted, CellTouched, BoxOnGrid, AtOrigin;
    none, cands := false, [];
    if spec.borough != 0 {
      var v := BoroughRows(idx, c, borough);
      if v == [] {
        none := true;
        return;
      }
      AddCandidate(cands, v);
      cands := cands + [v];
    }
    if spec.complaint != "" {
      var v := ComplaintRows(idx, c, spec.complaint);
      if v == [] {
        none := true;
        return;
      }
      AddCandidate(cands, v);
      cands := cands + [v];
    }
    if spec.dateFrom != 0 || spec.dateTo != 0 {
      var v := idx.DateRange(spec.dateFrom, spec.dateTo, c);
      if v == [] {
        none := true;
        return;
      }
      AddCandidate(cands, v);
      cands := cands + [v];
    }
    if spec.useGeoBox {
      var v := idx.GeoBox(spec, c);
      if v == [] {
        none := true;
        return;
      }
      AddCandidate(cands, v);
      cands := cands + [v];
    }
  }

  lemma NoneFound(c: Columns, spec: Spec, borough: int)
    requires c.Aligned()
    requires forall x: nat :: x < c.Size() ==> !Found(spec, borough, c.RowAt(x))
    ensures AllFound(c.AllRows(), spec, borough) == []
  {
    assert FoundIds(c, spec, borough, [], c.Size());
    IdsReadFound(c, spec, borough, [], c.Size());
    assert c.AllRows()[..c.Size()] == c.AllRows();
  }

  lemma AddCandidate(cands: seq<seq<nat>>, v: seq<nat>)
    ensures forall x: nat :: InAll(x, cands + [v]) <==> InAll(x, cands) && x in v
  {
    forall x: nat ensures InAll(x, cands + [v]) <==> InAll(x, cands) && x in v {
      assert (cands + [v])[|cands|] == v;
      assert forall k :: 0 <= k < |cands| ==> (cands + [v])[k] == cands[k];
    }
  }

  // The row ids the index plan settles on before any residual check.
  method Survivors(cands: seq<seq<nat>>, ghost c: Columns, ghost spec: Spec, ghost borough: int)
    returns (work: seq<nat>)
    requires c.Aligned() && cands != []
    requires forall k :: 0 <= k < |cands| ==> Ascending(cands[k])
    requires forall x: nat :: InAll(x, cands) <==> x < c.Size() && Found(spec, borough, c.RowAt(x))
    ensures forall k :: 0 <= k < |work| ==> work[k] < c.Size()
    ensures c.RowsOf(work) == AllFound(c.AllRows(), spec, borough)
  {
    work := IntersectAll(cands);
    forall k | 0 <= k < |work| ensures work[k] < c.Size() {
      assert work[k] in work;
    }
    IdsReadFound(c, spec, borough, work, c.Size());
    assert c.AllRows()[..c.Size()] == c.AllRows();
  }

  // ---- cancellation ----

  // Where an emit loop over n items stops, when the flag is polled every 1024 items
  // and `polls(i)` is the answer it would get at item i.
  ghost function Stop(polls: nat -> bool, i: nat, n: nat): (stop: nat)
    requires i <= n
    ensures i <= stop <= n
    decreases n - i
  {
    if i == n || (i % 1024 == 0 && polls(i)) then i else Stop(polls, i + 1, n)
  }

  // A loop whose polls all find the flag clear goes on to the end.
  lemma {:induction false} NeverStops(polls: nat -> bool, i: nat, n: nat)
    requires i <= n && forall k :: i <= k < n && k % 1024 == 0 ==> !polls(k)
    ensures Stop(polls, i, n) == n
    decreases n - i
  {
    if i < n {
      NeverStops(polls, i + 1, n);
    }
  }

  // The flag is clear at items 0, 1024 and so on, and first found set at item 1024 * j.
  ghost predicate SetAt(polls: nat -> bool, j: nat) {
    polls(1024 * j) && forall k :: 0 <= k < 1024 * j && k % 1024 == 0 ==> !polls(k)
  }

  // Then the loop has gone through the first 1024 * j items, or all if there are no more.
  lemma {:induction false} StopsWhereSet(polls: nat -> bool, j: nat, i: nat, n: nat)
    requires SetAt(polls, j) && i <= n && i <= 1024 * j
    ensures Stop(polls, i, n) == if n <= 1024 * j then n else 1024 * j
    decreases n - i
  {
    if i < n && i < 1024 * j {
      StopsWhereSet(polls, j, i + 1, n);
    }
  }

  lemma StopsAfter<T>(polls: nat -> bool, j: nat, items: seq<T>)
    requires SetAt(polls, j)
    ensures items[..Stop(polls, 0, |items|)] == Head(items, 1024 * j)
  {
    StopsWhereSet(polls, j, 0, |items|);
    assert items[..|items|] == items;
  }

  // ---- the residual box check ----

  predicate PassesBox(spec: Spec, r: Row) { spec.useGeoBox ==> InBox(spec, r) }

  function BoxOnly(spec: Spec, rows: seq<Row>): seq<Row> {
    if rows == [] then []
    else BoxOnly(spec, rows[..|rows| - 1]) + if PassesBox(spec, rows[|rows| - 1]) then [rows[|rows| - 1]] else []
  }

  lemma {:induction false} BoxOnlySplit(spec: Spec, rows: seq<Row>, p: nat)
    requires p <= |rows|
    ensures BoxOnly(spec, rows) == BoxOnly(spec, rows[..p]) + BoxOnly(spec, rows[p..])
    decreases |rows|
  {
    if p == |rows| {
      assert rows[..p] == rows;
    } else {
      var init := rows[..|rows| - 1];
      BoxOnlySplit(spec, init, p);
      assert init[..p] == rows[..p] && rows[p..][..|rows[p..]| - 1] == init[p..];
    }
  }

  function OffOrigin(rows: seq<Row>): seq<Row> {
    if rows == [] then []
    else OffOrigin(rows[..|rows| - 1]) + if AtOrigin(rows[|rows| - 1]) then [] else [rows[|rows| - 1]]
  }

  // What a complete answer to a spec holds: the reference rows, minus those at the
  // origin when the spec carries a box.
  function Answer(rows: seq<Row>, spec: Spec, borough: int): seq<Row> {
    if spec.useGeoBox then OffOrigin(Reference(rows, spec, borough)) else Reference(rows, spec, borough)
  }

  // The found rows, re-validated against the exact box, are the answer.
  lemma {:induction false} FoundInBox(rows: seq<Row>, spec: Spec, borough: int)
    ensures BoxOnly(spec, AllFound(rows, spec, borough)) == Answer(rows, spec, borough)
  {
    if rows != [] {
      var init, r := rows[..|rows| - 1], rows[|rows| - 1];
      FoundInBox(init, spec, borough);
      if spec.useGeoBox && InBox(spec, r) {
        BoxTouchesCell(spec, r);
      }
      var found, wanted := AllFound(init, spec, borough), Reference(init, spec, borough);
      assert (found + [r])[..|found|] == found && (wanted + [r])[..|wanted|] == wanted;
      assert AllFound(rows, spec, borough) == if Found(spec, borough, r) then found + [r] else found;
      assert Reference(rows, spec, borough) == if Wanted(spec, borough, r) then wanted + [r] else wanted;
      assert Found(spec, borough, r) && PassesBox(spec, r)
        <==> Wanted(spec, borough, r) && !(spec.useGeoBox && AtOrigin(r));
    }
  }
}
