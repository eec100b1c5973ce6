// The four per-partition secondary indices: borough and complaint buckets, the
// date-sorted vector with its two binary searches, and the lat/lon grid.

module GridIndices {
  import opened Options
  import opened Lists
  import opened Rows

  // ---- grid cells ----

  const GRID_DEG := 0.01
  const BIAS := 0x4000_0000
  const HALF := 0x1_0000_0000

  function Cell(x: real): int { (x / GRID_DEG).Floor }

  // Coordinates whose biased cell fits the 32-bit half of a key.
  predicate OnGrid(x: real) { -BIAS <= Cell(x) < BIAS }

  // The two biased cells side by side: the high half shifted by 32, plus the low half.
  function CellKey(la: int, lo: int): uint64
    requires -BIAS <= la < BIAS && -BIAS <= lo < BIAS
  {
    (la + BIAS) * HALF + (lo + BIAS)
  }

  // The shift-and-or of two 32-bit halves is the sum above, and loses neither half.
  lemma PackIsSum(hi: bv64, lw: bv64)
    requires hi < 0x1_0000_0000 && lw < 0x1_0000_0000
    ensures (hi << 32) | lw == (hi << 32) + lw
    ensures ((hi << 32) | lw) >> 32 == hi
    ensures ((hi << 32) | lw) & 0xFFFF_FFFF == lw
  {}

  lemma CellMonotone(x: real, y: real)
    requires x <= y
    ensures Cell(x) <= Cell(y)
  {
    assert x / GRID_DEG <= y / GRID_DEG;
  }

  // A cell is a hundredth of a degree wide and closed below.
  lemma CellIsHundredth(x: real)
    ensures Cell(x) as real * 0.01 <= x < (Cell(x) + 1) as real * 0.01
  {
    assert Cell(x) as real <= x / 0.01 < (Cell(x) + 1) as real;
  }

  // Two cells never share a key.
  lemma CellKeyInjective(la: int, lo: int, la': int, lo': int)
    requires -BIAS <= la < BIAS && -BIAS <= lo < BIAS && -BIAS <= la' < BIAS && -BIAS <= lo' < BIAS
    ensures CellKey(la, lo) == CellKey(la', lo') <==> la == la' && lo == lo'
  {}

  // ---- bucket indices ----

  // A bucket holds exactly the positions of one value, strictly ascending.
  ghost predicate Collects<K>(bucket: seq<nat>, column: seq<Option<K>>, k: K) {
    Ascending(bucket) && forall x: nat :: x in bucket <==> x < |column| && column[x] == Some(k)
  }

  function BucketOf<K>(m: map<K, seq<nat>>, k: K): seq<nat> { if k in m then m[k] else [] }

  // m groups the positions of `column` by value, in non-empty buckets. Positions holding
  // None are in no bucket.
  ghost predicate Bucketed<K(!new)>(m: map<K, seq<nat>>, column: seq<Option<K>>) {
    && (forall k {:trigger BucketOf(m, k)} :: Collects(BucketOf(m, k), column, k))
    && (forall k :: k in m ==> m[k] != [])
  }

  function Append<K>(m: map<K, seq<nat>>, k: K, i: nat): map<K, seq<nat>> {
    m[k := BucketOf(m, k) + [i]]
  }

  lemma CollectsNext<K>(bucket: seq<nat>, column: seq<Option<K>>, k: K, next: Option<K>)
    requires Collects(bucket, column, k)
    ensures Collects(if next == Some(k) then bucket + [|column|] else bucket, column + [next], k)
  {
    forall i | 0 <= i < |bucket| ensures bucket[i] < |column| { assert bucket[i] in bucket; }
  }

  lemma AppendBuckets<K(!new)>(m: map<K, seq<nat>>, column: seq<Option<K>>, k: K)
    requires Bucketed(m, column)
    ensures Bucketed(Append(m, k, |column|), column + [Some(k)])
  {
    hide Collects;
    var m' := Append(m, k, |column|);
    forall j ensures Collects(BucketOf(m', j), column + [Some(k)], j) {
      CollectsNext(BucketOf(m, j), column, j, Some(k));
    }
  }

  lemma SkipBuckets<K(!new)>(m: map<K, seq<nat>>, column: seq<Option<K>>)
    requires Bucketed(m, column)
    ensures Bucketed(m, column + [None])
  {
    hide Collects;
    forall j ensures Collects(BucketOf(m, j), column + [None], j) {
      CollectsNext(BucketOf(m, j), column, j, None);
    }
  }

  // A lookup returns exactly the positions holding the key; no bucket means none do.
  lemma BucketHolds<K(!new)>(m: map<K, seq<nat>>, column: seq<Option<K>>, k: K, x: nat)
    requires Bucketed(m, column)
    ensures Ascending(BucketOf(m, k))
    ensures x in BucketOf(m, k) <==> x < |column| && column[x] == Some(k)
  {
    assert Collects(BucketOf(m, k), column, k);
  }

  ghost function BoroughColumn(c: Columns): seq<Option<int>> {
    seq(|c.boroughs|, i requires 0 <= i < |c.boroughs| => Some(c.boroughs[i]))
  }

  ghost function ComplaintColumn(c: Columns): seq<Option<string>> {
    seq(|c.complaints|, i requires 0 <= i < |c.complaints| => Some(c.complaints[i]))
  }

  // Every coordinate of the partition lies on the grid.
  ghost predicate Mappable(c: Columns) {
    && c.Aligned()
    && forall i :: 0 <= i < c.Size() ==> OnGrid(c.lats[i]) && OnGrid(c.lons[i])
  }

  ghost function CellColumn(c: Columns): seq<Option<uint64>>
    requires Mappable(c)
  {
    seq(c.Size(), i requires 0 <= i < c.Size() =>
      if AtOrigin(c.RowAt(i)) then None else Some(CellKey(Cell(c.lats[i]), Cell(c.lons[i]))))
  }

  // ---- the date index ----

  type DateEntry = (uint32, nat)

  predicate DateLe(a: DateEntry, b: DateEntry) {
    a.0 < b.0 || (a.0 == b.0 && a.1 <= b.1)
  }

  // One entry per row, ordered by date and then row id.
  ghost predicate DateSorted(entries: seq<DateEntry>, dates: seq<uint32>) {
    && SortedBy(entries, DateLe)
    && (forall i :: 0 <= i < |entries| ==> entries[i].1 < |dates| && entries[i].0 == dates[entries[i].1])
    && (forall x :: 0 <= x < |dates| ==> (dates[x], x) in entries)
    && (forall i, j :: 0 <= i < j < |entries| ==> entries[i].1 != entries[j].1)
  }

  ghost predicate DateEntries(entries: seq<DateEntry>, dates: seq<uint32>) {
    && (forall i :: 0 <= i < |entries| ==> entries[i].1 < |dates| && entries[i].0 == dates[entries[i].1])
    && (forall x :: 0 <= x < |dates| ==> (dates[x], x) in entries)
    && Distinct(entries)
  }

  lemma PermutedEntries(a: seq<DateEntry>, b: seq<DateEntry>, dates: seq<uint32>)
    requires multiset(a) == multiset(b) && DateEntries(a, dates)
    ensures DateEntries(b, dates)
  {
    SameMembers(a, b);
    DistinctIffOnce(a);
    DistinctIffOnce(b);
    forall i | 0 <= i < |b| ensures b[i].1 < |dates| && b[i].0 == dates[b[i].1] {
      assert b[i] in b;
    }
  }

  lemma SortedDates(entries: seq<DateEntry>, dates: seq<uint32>)
    requires |entries| == |dates| && forall i :: 0 <= i < |dates| ==> entries[i] == (dates[i], i)
    ensures DateSorted(Sort(entries, DateLe), dates)
  {
    assert DateEntries(entries, dates) by {
      forall x | 0 <= x < |dates| ensures (dates[x], x) in entries { assert entries[x] in entries; }
    }
    SortSorts(entries, DateLe);
    PermutedEntries(entries, Sort(entries, DateLe), dates);
  }

  // std::lower_bound on the date column.
  method LowerBound(entries: seq<DateEntry>, lo: nat) returns (left: nat)
    requires SortedBy(entries, DateLe)
    ensures left <= |entries|
    ensures forall i :: 0 <= i < |entries| ==> (i < left <==> entries[i].0 < lo)
  {
    left := 0;
    var right := |entries|;
    while left < right
      invariant 0 <= left <= right <= |entries|
      invariant forall i :: 0 <= i < left ==> entries[i].0 < lo
      invariant forall i :: right <= i < |entries| ==> lo <= entries[i].0
    {
      var mid := (left + right) / 2;
      assert forall i :: 0 <= i < mid ==> DateLe(entries[i], entries[mid]);
      assert forall i :: mid < i < |entries| ==> DateLe(entries[mid], entries[i]);
      if entries[mid].0 < lo { left := mid + 1; } else { right := mid; }
    }
  }

  // std::upper_bound on the date column.
  method UpperBound(entries: seq<DateEntry>, hi: nat) returns (right: nat)
    requires SortedBy(entries, DateLe)
    ensures right <= |entries|
    ensures forall i :: 0 <= i < |entries| ==> (i < right <==> entries[i].0 <= hi)
  {
    var left := 0;
    right := |entries|;
    while left < right
      invariant 0 <= left <= right <= |entries|
      invariant forall i :: 0 <= i < left ==> entries[i].0 <= hi
      invariant forall i :: right <= i < |entries| ==> hi < entries[i].0
    {
      var mid := (left + right) / 2;
      assert forall i :: 0 <= i < mid ==> DateLe(entries[i], entries[mid]);
      assert forall i :: mid < i < |entries| ==> DateLe(entries[mid], entries[i]);
      if entries[mid].0 <= hi { left := mid + 1; } else { right := mid; }
    }
  }

  ghost predicate Cut(entries: seq<DateEntry>, lo: nat, hi: nat, left: nat, right: nat) {
    && left <= |entries| && right <= |entries|
    && (forall i :: 0 <= i < |entries| ==> (i < left <==> entries[i].0 < lo))
    && (forall i :: 0 <= i < |entries| ==> (i < right <==> entries[i].0 <= hi))
  }

  lemma LeftBeforeRight(entries: seq<DateEntry>, lo: nat, hi: nat, left: nat, right: nat)
    requires Cut(entries, lo, hi, left, right) && lo <= hi
    ensures left <= right
  {
    assert right < |entries| ==> hi < entries[right].0;
  }

  // The entries between the two bounds name exactly the rows dated between them.
  lemma DatesPicked(entries: seq<DateEntry>, dates: seq<uint32>, lo: nat, hi: nat, left: nat, right: nat, out: seq<nat>)
    requires DateSorted(entries, dates) && Cut(entries, lo, hi, left, right) && left <= right
    requires |out| == right - left && forall k :: 0 <= k < |out| ==> out[k] == entries[left + k].1
    ensures Distinct(out)
    ensures forall x: nat :: x in out <==> x < |dates| && lo <= dates[x] <= hi
  {
    forall x: nat ensures x in out <==> x < |dates| && lo <= dates[x] <= hi {
      if x < |dates| && lo <= dates[x] <= hi {
        var k :| 0 <= k < |entries| && entries[k] == (dates[x], x);
        assert left <= k < right && out[k - left] == x;
      }
    }
  }

  // ---- the query box on the grid ----

  predicate BoxOnGrid(spec: Spec) {
    OnGrid(spec.minLat) && OnGrid(spec.maxLat) && OnGrid(spec.minLon) && OnGrid(spec.maxLon)
  }

  // Row's cell is one the box touches.
  predicate CellTouched(spec: Spec, r: Row) {
    && spec.minLat <= spec.maxLat && spec.minLon <= spec.maxLon
    && Cell(spec.minLat) <= Cell(r.lat) <= Cell(spec.maxLat)
    && Cell(spec.minLon) <= Cell(r.lon) <= Cell(spec.maxLon)
  }

  // The grid loses no row of the box.
  lemma BoxTouchesCell(spec: Spec, r: Row)
    requires InBox(spec, r)
    ensures CellTouched(spec, r)
  {
    CellMonotone(spec.minLat, r.lat);
    CellMonotone(r.lat, spec.maxLat);
    CellMonotone(spec.minLon, r.lon);
    CellMonotone(r.lon, spec.maxLon);
  }

  // The cells a box touches are exactly those of its own points.
  lemma TouchedIffMeets(spec: Spec, r: Row)
    ensures CellTouched(spec, r) <==> exists p: Row :: MeetsCell(spec, r, p)
  {
    if CellTouched(spec, r) {
      ClampedInCell(r.lat, spec.minLat, spec.maxLat);
      ClampedInCell(r.lon, spec.minLon, spec.maxLon);
      assert MeetsCell(spec, r,
        r.(lat := Clamped(r.lat, spec.minLat, spec.maxLat), lon := Clamped(r.lon, spec.minLon, spec.maxLon)));
    }
    if p: Row :| MeetsCell(spec, r, p) { BoxTouchesCell(spec, p); }
  }

  // p lies in the box and in the cell of r.
  ghost predicate MeetsCell(spec: Spec, r: Row, p: Row) {
    InBox(spec, p) && Cell(p.lat) == Cell(r.lat) && Cell(p.lon) == Cell(r.lon)
  }

  function Clamped(x: real, low: real, high: real): real { if x < low then low else if x > high then high else x }

  lemma ClampedInCell(x: real, low: real, high: real)
    requires low <= high && Cell(low) <= Cell(x) <= Cell(high)
    ensures low <= Clamped(x, low, high) <= high && Cell(Clamped(x, low, high)) == Cell(x)
  {
    if x < low { CellMonotone(x, low); } else if x > high { CellMonotone(high, x); }
  }

  class Indices {
    var totalRows: nat
    var byBorough: map<int, seq<nat>>
    var byComplaint: map<string, seq<nat>>
    var byDate: seq<DateEntry>
    var byCell: map<uint64, seq<nat>>

    // The indices describe exactly the columns c.
    ghost predicate Built(c: Columns)
      reads this
    {
      && Mappable(c)
      && totalRows == c.Size()
      && Bucketed(byBorough, BoroughColumn(c))
      && Bucketed(byComplaint, ComplaintColumn(c))
      && DateSorted(byDate, c.dates)
      && Bucketed(byCell, CellColumn(c))
    }

    constructor () {
      totalRows, byBorough, byComplaint, byDate, byCell := 0, map[], map[], [], map[];
    }

    method Build(c: Columns)
      requires Mappable(c)
      modifies this
      ensures Built(c)
    {
      totalRows := c.Size();
      BuildBoroughs(c);
      BuildComplaints(c);
      BuildDates(c);
      BuildCells(c);
    }

    method BuildBoroughs(c: Columns)
      requires c.Aligned() && totalRows == c.Size()
      modifies this`byBorough
      ensures Bucketed(byBorough, BoroughColumn(c))
    {
      byBorough := map[];
      for i := 0 to totalRows
        invariant Bucketed(byBorough, BoroughColumn(c)[..i])
      {
        AppendBuckets(byBorough, BoroughColumn(c)[..i], c.boroughs[i]);
        assert BoroughColumn(c)[..i + 1] == BoroughColumn(c)[..i] + [Some(c.boroughs[i])];
        byBorough := Append(byBorough, c.boroughs[i], i);
      }
      assert BoroughColumn(c)[..c.Size()] == BoroughColumn(c);
    }

    method BuildComplaints(c: Columns)
      requires c.Aligned() && totalRows == c.Size()
      modifies this`byComplaint
      ensures Bucketed(byComplaint, ComplaintColumn(c))
    {
      byComplaint := map[];
      for i := 0 to totalRows
        invariant Bucketed(byComplaint, ComplaintColumn(c)[..i])
      {
        AppendBuckets(byComplaint, ComplaintColumn(c)[..i], c.complaints[i]);
        assert ComplaintColumn(c)[..i + 1] == ComplaintColumn(c)[..i] + [Some(c.complaints[i])];
        byComplaint := Append(byComplaint, c.complaints[i], i);
      }
      assert ComplaintColumn(c)[..c.Size()] == ComplaintColumn(c);
    }

    method BuildDates(c: Columns)
      requires c.Aligned() && totalRows == c.Size()
      modifies this`byDate
      ensures DateSorted(byDate, c.dates)
    {
      var entries: seq<DateEntry> := [];
      for i := 0 to totalRows
        invariant |entries| == i
        invariant forall k :: 0 <= k < i ==> entries[k] == (c.dates[k], k)
      {
        entries := entries + [(c.dates[i], i)];
      }
      SortedDates(entries, c.dates);
      byDate := Sort(entries, DateLe);
    }

    method BuildCells(c: Columns)
      requires Mappable(c) && totalRows == c.Size()
      modifies this`byCell
      ensures Bucketed(byCell, CellColumn(c))
    {
      byCell := map[];
      for i := 0 to totalRows
        invariant Bucketed(byCell, CellColumn(c)[..i])
      {
        assert CellColumn(c)[..i + 1] == CellColumn(c)[..i] + [CellColumn(c)[i]];
        if c.lats[i] == 0.0 && c.lons[i] == 0.0 {
          SkipBuckets(byCell, CellColumn(c)[..i]);
        } else {
          var key := CellKey(Cell(c.lats[i]), Cell(c.lons[i]));
          AppendBuckets(byCell, CellColumn(c)[..i], key);
          byCell := Append(byCell, key, i);
        }
      }
      assert CellColumn(c)[..c.Size()] == CellColumn(c);
    }

    // Ascending ids of the rows dated within [from, to]; 0 leaves a side open.
    method DateRange(from: uint32, to: uint32, ghost c: Columns) returns (out: seq<nat>)
      requires Built(c)
      ensures Ascending(out)
      ensures forall x: nat :: x in out <==>
        x < c.Size() && (from == 0 || from <= c.dates[x]) && (to == 0 || c.dates[x] <= to)
    {
      hide Bucketed, SortedBy, Sort, Distinct;
      out := [];
      var lo: nat := if from == 0 then 0 else from;
      var hi: nat := if to == 0 then 0xFFFF_FFFF else to;
      if lo > hi {
        return;
      }
      var left := LowerBound(byDate, lo);
      var right := UpperBound(byDate, hi);
      var i := left;
      LeftBeforeRight(byDate, lo, hi, left, right);
      while i < right
        invariant left <= i <= right
        invariant |out| == i - left && forall k :: 0 <= k < |out| ==> out[k] == byDate[left + k].1
      {
        out := out + [byDate[i].1];
        i := i + 1;
      }
      DatesPicked(byDate, c.dates, lo, hi, left, right, out);
      SortedIds(out);
      out := Sort(out, IdLe);
    }

    // Ascending ids of the rows, other than those at the origin, whose grid cell the
    // box touches: a superset of the rows in the box.
    method GeoBox(spec: Spec, ghost c: Columns) returns (out: seq<nat>)
      requires Built(c) && BoxOnGrid(spec)
      ensures Ascending(out)
      ensures forall x: nat :: x in out <==>
        x < c.Size() && !AtOrigin(c.RowAt(x)) && CellTouched(spec, c.RowAt(x))
    {
      out := [];
      if byCell == map[] {
        forall x | 0 <= x < c.Size() ensures AtOrigin(c.RowAt(x)) {
          if CellColumn(c)[x].Some? { BucketHolds(byCell, CellColumn(c), CellColumn(c)[x].value, x); }
        }
        return;
      }
      if spec.minLat > spec.maxLat || spec.minLon > spec.maxLon {
        return;
      }
      var la0, la1 := Cell(spec.minLat), Cell(spec.maxLat);
      var lo0, lo1 := Cell(spec.minLon), Cell(spec.maxLon);
      CellMonotone(spec.minLat, spec.maxLat);
      CellMonotone(spec.minLon, spec.maxLon);
      var la := la0;
      while la <= la1
        invariant la0 <= la <= la1 + 1
        invariant Distinct(out)
        invariant forall x :: x in out <==> Within(c, x, la0, la - 1, lo0, lo1)
      {
        var lo := lo0;
        while lo <= lo1
          invariant lo0 <= lo <= lo1 + 1
          invariant Distinct(out)
          invariant forall x :: x in out <==>
            Within(c, x, la0, la - 1, lo0, lo1) || Within(c, x, la, la, lo0, lo - 1)
        {
          var key := CellKey(la, lo);
          ghost var before := out;
          if key in byCell {
            out := out + byCell[key];
          }
          CellBucket(c, byCell, la, lo);
          AddCell(c, before, out, la, lo, BucketOf(byCell, key));
          lo := lo + 1;
        }
        la := la + 1;
      }
      SortedIds(out);
      out := Sort(out, IdLe);
    }
  }

  // Row x is off the origin and its cell lies in the given rectangle of cells.
  ghost predicate Within(c: Columns, x: nat, la0: int, la1: int, lo0: int, lo1: int)
    requires Mappable(c)
  {
    x < c.Size() && !AtOrigin(c.RowAt(x)) && la0 <= Cell(c.lats[x]) <= la1 && lo0 <= Cell(c.lons[x]) <= lo1
  }

  // The bucket under a cell's key holds exactly that cell's rows, by key injectivity.
  lemma CellBucket(c: Columns, byCell: map<uint64, seq<nat>>, la: int, lo: int)
    requires Mappable(c) && Bucketed(byCell, CellColumn(c))
    requires -BIAS <= la < BIAS && -BIAS <= lo < BIAS
    ensures Ascending(BucketOf(byCell, CellKey(la, lo)))
    ensures forall x: nat :: x in BucketOf(byCell, CellKey(la, lo)) <==> Within(c, x, la, la, lo, lo)
  {
    hide Bucketed, BucketOf;
    BucketHolds(byCell, CellColumn(c), CellKey(la, lo), 0);
    forall x: nat ensures x in BucketOf(byCell, CellKey(la, lo)) <==> Within(c, x, la, la, lo, lo) {
      BucketHolds(byCell, CellColumn(c), CellKey(la, lo), x);
      if x < c.Size() {
        CellKeyInjective(la, lo, Cell(c.lats[x]), Cell(c.lons[x]));
      }
    }
  }

  lemma AddCell(c: Columns, before: seq<nat>, after: seq<nat>, la: int, lo: int, bucket: seq<nat>)
    requires Mappable(c)
    requires Distinct(before) && Ascending(bucket) && after == before + bucket
    requires forall x :: x in bucket <==> Within(c, x, la, la, lo, lo)
    requires forall x :: x in before ==> !Within(c, x, la, la, lo, lo)
    ensures Distinct(after)
    ensures forall x :: x in after <==> x in before || Within(c, x, la, la, lo, lo)
  {
    forall i, j | 0 <= i < j < |after| ensures after[i] != after[j] {
      if i < |before| <= j {
        assert after[i] in before && after[j] in bucket;
      }
    }
  }
}
