// The data model: 311 rows, query specs, one partition's columns, the reference
// answer (the plain row-by-row filter), and how an answer is framed into chunks.

module Rows {

  type uint8 = x: nat | x < 0x100
  type uint32 = x: nat | x < 0x1_0000_0000
  type uint64 = x: nat | x < 0x1_0000_0000_0000_0000
  type int32 = x: int | -0x8000_0000 <= x < 0x8000_0000

  datatype Row = Row(key: uint64, date: uint32, borough: uint8, lat: real, lon: real, complaint: string)

  // Zero and empty fields mean "any". The borough is an open enum on the wire, so
  // every int32 can arrive.
  datatype Spec = Spec(
    borough: int32, complaint: string, dateFrom: uint32, dateTo: uint32,
    minLat: real, maxLat: real, minLon: real, maxLon: real, useGeoBox: bool, maxRows: uint32)

  // One partition, column by column; immutable once loaded.
  datatype Columns = Columns(
    keys: seq<uint64>, dates: seq<uint32>, boroughs: seq<uint8>,
    lats: seq<real>, lons: seq<real>, complaints: seq<string>)
  {
    ghost predicate Aligned() {
      |keys| == |dates| == |boroughs| == |lats| == |lons| == |complaints|
    }

    function Size(): nat { |keys| }

    function RowAt(i: nat): Row
      requires Aligned() && i < Size()
    {
      Row(keys[i], dates[i], boroughs[i], lats[i], lons[i], complaints[i])
    }

    function AllRows(): seq<Row>
      requires Aligned()
    {
      seq(Size(), i requires 0 <= i < Size() => RowAt(i))
    }

    function RowsOf(ids: seq<nat>): (rows: seq<Row>)
      requires Aligned() && forall k :: 0 <= k < |ids| ==> ids[k] < Size()
      ensures |rows| == |ids| && forall k :: 0 <= k < |ids| ==> rows[k] == RowAt(ids[k])
    {
      seq(|ids|, k requires 0 <= k < |ids| => RowAt(ids[k]))
    }
  }

  // ---- predicates ----

  predicate InBox(spec: Spec, r: Row) {
    !(r.lat < spec.minLat || r.lat > spec.maxLat || r.lon < spec.minLon || r.lon > spec.maxLon)
  }

  predicate AtOrigin(r: Row) { r.lat == 0.0 && r.lon == 0.0 }

  predicate DateWanted(spec: Spec, d: uint32) {
    !(spec.dateFrom != 0 && d < spec.dateFrom) && !(spec.dateTo != 0 && d > spec.dateTo)
  }

  // What the row loop keeps. `borough` is the value compared with the column: the
  // spec's own value, or the byte it is cast to.
  predicate Wanted(spec: Spec, borough: int, r: Row) {
    && (spec.borough == 0 || r.borough == borough)
    && DateWanted(spec, r.date)
    && (spec.useGeoBox ==> InBox(spec, r))
    && (spec.complaint == "" || r.complaint == spec.complaint)
  }

  // ---- the reference answer ----

  // The plain filter: every wanted row, in row order.
  function Reference(rows: seq<Row>, spec: Spec, borough: int): seq<Row> {
    if rows == [] then []
    else Reference(rows[..|rows| - 1], spec, borough)
         + if Wanted(spec, borough, rows[|rows| - 1]) then [rows[|rows| - 1]] else []
  }

  lemma {:induction false} ReferenceConcat(a: seq<Row>, b: seq<Row>, spec: Spec, borough: int)
    ensures Reference(a + b, spec, borough) == Reference(a, spec, borough) + Reference(b, spec, borough)
    decreases |b|
  {
    if b == [] {
      assert a + b == a;
    } else {
      var b' := b[..|b| - 1];
      assert (a + b)[..|a + b| - 1] == a + b';
      ReferenceConcat(a, b', spec, borough);
    }
  }

  lemma {:induction false} ReferenceKeeps(rows: seq<Row>, spec: Spec, borough: int)
    ensures forall r :: r in Reference(rows, spec, borough) <==> r in rows && Wanted(spec, borough, r)
  {
    if rows != [] {
      var init := rows[..|rows| - 1];
      ReferenceKeeps(init, spec, borough);
      assert rows == init + [rows[|rows| - 1]];
    }
  }

  lemma ReferenceOne(r: Row, spec: Spec, borough: int)
    ensures Reference([r], spec, borough) == if Wanted(spec, borough, r) then [r] else []
  {
    assert [r][..0] == [];
    assert Reference([], spec, borough) == [];
  }

  // ---- chunk framing ----

  datatype Chunk<T> = Chunk(rows: seq<T>, done: bool)

  function Capped<T>(items: seq<T>, cap: nat): seq<T> {
    if cap == 0 || |items| <= cap then items else items[..cap]
  }

  // The first n items, or all if there are no more.
  function Head<T>(items: seq<T>, n: nat): seq<T> { if |items| <= n then items else items[..n] }

  // Full chunks of `size`, then one last chunk flagged done. An eager framing ships
  // a chunk as soon as it is full, so its last chunk may be empty but never full; a
  // lazy one lets the last chunk be full.
  function Chunks<T>(items: seq<T>, size: nat, lazy: bool): (chunks: seq<Chunk<T>>)
    requires size > 0
    ensures chunks != []
    decreases |items|
  {
    if |items| < size || (lazy && |items| == size) then [Chunk(items, true)]
    else [Chunk(items[..size], false)] + Chunks(items[size..], size, lazy)
  }

  function Flat<T>(chunks: seq<Chunk<T>>): seq<T> {
    if chunks == [] then [] else chunks[0].rows + Flat(chunks[1..])
  }

  lemma {:induction false} FlatConcat<T>(a: seq<Chunk<T>>, b: seq<Chunk<T>>)
    ensures Flat(a + b) == Flat(a) + Flat(b)
  {
    if a == [] {
      assert a + b == b;
    } else {
      assert (a + b)[1..] == a[1..] + b;
      FlatConcat(a[1..], b);
    }
  }

  // Chunks carry exactly the items in order; done comes once, last; every earlier
  // chunk is full and the last is shorter (or, when lazy, at most full).
  lemma {:induction false} ChunksFrame<T>(items: seq<T>, size: nat, lazy: bool)
    requires size > 0
    ensures var cs := Chunks(items, size, lazy);
      && Flat(cs) == items
      && (forall k :: 0 <= k < |cs| ==> (cs[k].done <==> k == |cs| - 1))
      && (forall k :: 0 <= k < |cs| - 1 ==> |cs[k].rows| == size)
      && (|cs[|cs| - 1].rows| < size || (lazy && |cs[|cs| - 1].rows| == size))
    decreases |items|
  {
    if |items| < size || (lazy && |items| == size) {
      assert Flat([Chunk(items, true)]) == items + Flat<T>([]);
    } else {
      ChunksFrame(items[size..], size, lazy);
      assert items == items[..size] + items[size..];
      assert Chunks(items, size, lazy)[1..] == Chunks(items[size..], size, lazy);
    }
  }

  // The full, unfinished chunks an emit loop has shipped so far.
  ghost predicate FullChunks<T>(chunks: seq<Chunk<T>>, size: nat) {
    forall k :: 0 <= k < |chunks| ==> |chunks[k].rows| == size && !chunks[k].done
  }

  // Closing an emit loop: what was shipped, then the pending rows flagged done, is
  // the framing of everything emitted.
  lemma {:induction false} ChunksResume<T>(shipped: seq<Chunk<T>>, pending: seq<T>, size: nat, lazy: bool)
    requires size > 0 && FullChunks(shipped, size)
    requires if lazy then |pending| <= size && (pending == [] ==> shipped == []) else |pending| < size
    ensures Chunks(Flat(shipped) + pending, size, lazy) == shipped + [Chunk(pending, true)]
    decreases |shipped|
  {
    var items := Flat(shipped) + pending;
    if shipped == [] {
      assert items == pending;
    } else {
      assert items[..size] == shipped[0].rows;
      assert items[size..] == Flat(shipped[1..]) + pending;
      ChunksResume(shipped[1..], pending, size, lazy);
      assert shipped == [shipped[0]] + shipped[1..];
      assert |items| >= size && (lazy ==> |items| > size) by {
        if |shipped| > 1 { assert |Flat(shipped[1..])| >= |shipped[1].rows|; }
      }
    }
  }

  lemma {:induction false} FlatShip<T>(shipped: seq<Chunk<T>>, rows: seq<T>)
    ensures Flat(shipped + [Chunk(rows, false)]) == Flat(shipped) + rows
  {
    FlatConcat(shipped, [Chunk(rows, false)]);
    assert Flat([Chunk(rows, false)]) == rows + Flat<T>([]);
  }
}
