// The portal's LRU result cache: a recency list of entries and a hash multimap of
// references into it, refining "the capacity most recently used keys", whatever the
// hash collides on.

// The reference: a list of items, most recently used first.
module Recency {
  import opened Options

  datatype Item<K, V> = Item(key: K, value: V)

  function Without<K(==), V>(items: seq<Item<K, V>>, key: K): seq<Item<K, V>> {
    if items == [] then []
    else (if items[0].key == key then [] else [items[0]]) + Without(items[1..], key)
  }

  function Lookup<K(==), V>(items: seq<Item<K, V>>, key: K): Option<V> {
    if items == [] then None
    else if items[0].key == key then Some(items[0].value)
    else Lookup(items[1..], key)
  }

  function Take<T>(items: seq<T>, n: nat): seq<T> { if |items| <= n then items else items[..n] }

  // Putting an item in front, dropping its equal and then whatever is over capacity.
  function Used<K(==), V>(items: seq<Item<K, V>>, item: Item<K, V>, capacity: nat): seq<Item<K, V>> {
    Take([item] + Without(items, item.key), capacity)
  }

  function AfterGet<K(==), V>(items: seq<Item<K, V>>, key: K, capacity: nat): seq<Item<K, V>> {
    var found := Lookup(items, key);
    if capacity == 0 || found.None? then items else Used(items, Item(key, found.value), capacity)
  }

  ghost predicate NoTwins<K, V>(items: seq<Item<K, V>>) {
    forall i, j :: 0 <= i < j < |items| ==> items[i].key != items[j].key
  }

  ghost predicate Absent<K, V>(items: seq<Item<K, V>>, key: K) {
    forall k :: 0 <= k < |items| ==> items[k].key != key
  }

  function Drop<T>(s: seq<T>, i: nat): (r: seq<T>)
    requires i < |s|
    ensures |r| == |s| - 1 && forall k :: 0 <= k < |r| ==> r[k] == s[if k < i then k else k + 1]
  {
    s[..i] + s[i + 1..]
  }

  lemma {:induction false} WithoutNone<K, V>(items: seq<Item<K, V>>, key: K)
    requires Absent(items, key)
    ensures Without(items, key) == items && Lookup(items, key) == None
  {
    if items != [] {
      WithoutNone(items[1..], key);
    }
  }

  lemma {:induction false} WithoutAt<K, V>(items: seq<Item<K, V>>, i: nat)
    requires i < |items| && NoTwins(items)
    ensures Without(items, items[i].key) == Drop(items, i) && Lookup(items, items[i].key) == Some(items[i].value)
    decreases |items|
  {
    if i == 0 {
      WithoutNone(items[1..], items[0].key);
    } else {
      WithoutAt(items[1..], i - 1);
      assert Drop(items, i) == [items[0]] + Drop(items[1..], i - 1);
    }
  }

  lemma {:induction false} WithoutHolds<K, V>(items: seq<Item<K, V>>, key: K)
    ensures forall x :: x in Without(items, key) ==> x in items && x.key != key
  {
    if items != [] {
      WithoutHolds(items[1..], key);
    }
  }

  lemma {:induction false} WithoutKeepsApart<K, V>(items: seq<Item<K, V>>, key: K)
    requires NoTwins(items)
    ensures NoTwins(Without(items, key)) && Absent(Without(items, key), key)
  {
    WithoutHolds(items, key);
    forall k | 0 <= k < |Without(items, key)| ensures Without(items, key)[k].key != key {
      assert Without(items, key)[k] in Without(items, key);
    }
    if items != [] {
      var rest := Without(items[1..], key);
      WithoutKeepsApart(items[1..], key);
      WithoutHolds(items[1..], key);
      forall k | 0 <= k < |rest| ensures rest[k].key != items[0].key {
        assert rest[k] in items[1..];
      }
    }
  }

  // Using the item at position i again, perhaps with another value, moves it to the
  // front and evicts nothing.
  lemma UsedAgain<K, V>(items: seq<Item<K, V>>, i: nat, value: V, capacity: nat)
    requires i < |items| <= capacity && NoTwins(items)
    ensures Used(items, Item(items[i].key, value), capacity) == [Item(items[i].key, value)] + Drop(items, i)
    ensures NoTwins([Item(items[i].key, value)] + Drop(items, i))
    ensures Lookup(items, items[i].key) == Some(items[i].value)
  {
    WithoutAt(items, i);
    ToFrontApart(items, i, value);
  }

  lemma ToFrontApart<K, V>(items: seq<Item<K, V>>, i: nat, value: V)
    requires i < |items| && NoTwins(items)
    ensures NoTwins([Item(items[i].key, value)] + Drop(items, i))
  {
    var rest := Drop(items, i);
    forall j, k | 0 <= j < k < |rest| ensures rest[j].key != rest[k].key {}
    forall k | 0 <= k < |rest| ensures rest[k].key != items[i].key {}
  }

  lemma TakenApart<K, V>(items: seq<Item<K, V>>, n: nat)
    requires NoTwins(items) && n <= |items|
    ensures NoTwins(items[..n])
  {}

  lemma TakeFront<T>(x: T, s: seq<T>, capacity: nat)
    requires |s| <= capacity && capacity > 0
    ensures Take([x] + s, capacity) == [x] + if |s| == capacity then s[..|s| - 1] else s
  {}

  lemma FrontApart<K, V>(items: seq<Item<K, V>>, item: Item<K, V>, n: nat)
    requires NoTwins(items) && Absent(items, item.key) && n <= |items|
    ensures NoTwins([item] + items[..n])
  {}

  // Using an item not held puts it in front, dropping the last item of a full list.
  lemma UsedAnew<K, V>(items: seq<Item<K, V>>, item: Item<K, V>, capacity: nat)
    requires 0 < capacity && |items| <= capacity && NoTwins(items) && Absent(items, item.key)
    ensures Used(items, item, capacity) == [item] + (if |items| == capacity then items[..|items| - 1] else items)
    ensures NoTwins(Used(items, item, capacity)) && Lookup(items, item.key) == None
  {
    hide Take, Without, NoTwins, Absent, Lookup;
    WithoutNone(items, item.key);
    TakeFront(item, items, capacity);
    var n := if |items| == capacity then |items| - 1 else |items|;
    FrontApart(items, item, n);
    assert items[..|items|] == items;
  }
}

module QueryCaches {
  import opened Options
  import Lists
  import opened Rows
  import opened Recency

  // ---- the cache key ----

  // The box fields count only when the box is used.
  predicate SpecEqual(a: Spec, b: Spec) {
    && a.borough == b.borough && a.complaint == b.complaint
    && a.dateFrom == b.dateFrom && a.dateTo == b.dateTo
    && a.useGeoBox == b.useGeoBox && a.maxRows == b.maxRows
    && (a.useGeoBox ==> a.minLat == b.minLat && a.maxLat == b.maxLat && a.minLon == b.minLon && a.maxLon == b.maxLon)
  }

  // The library's hash of each field type and the way two hashes are combined, taken as
  // given: any functions at all, so any collisions.
  datatype Hashers = Hashers(
    ofInt: int -> uint64, ofString: string -> uint64, ofBool: bool -> uint64, ofDouble: real -> uint64,
    mix: (uint64, uint64) -> uint64)

  function MixBox(h: Hashers, seed: uint64, s: Spec): uint64 {
    if !s.useGeoBox then seed
    else
      var lats := h.mix(h.mix(seed, h.ofDouble(s.minLat)), h.ofDouble(s.maxLat));
      h.mix(h.mix(lats, h.ofDouble(s.minLon)), h.ofDouble(s.maxLon))
  }

  function HashSpec(h: Hashers, s: Spec): uint64 {
    var plain := h.mix(h.mix(h.mix(h.mix(h.mix(0, h.ofInt(s.borough)), h.ofString(s.complaint)), h.ofInt(s.dateFrom)),
                         h.ofInt(s.dateTo)), h.ofBool(s.useGeoBox));
    h.mix(MixBox(h, plain, s), h.ofInt(s.maxRows))
  }

  // The hash a cache is built with; equal specs must hash alike.
  type SpecHash = Spec -> uint64

  ghost predicate Respects(hash: SpecHash) {
    forall a, b {:trigger SpecEqual(a, b)} :: SpecEqual(a, b) ==> hash(a) == hash(b)
  }

  lemma HashSpecRespects(h: Hashers)
    ensures Respects(s => HashSpec(h, s))
  {
    forall a, b | SpecEqual(a, b) ensures HashSpec(h, a) == HashSpec(h, b) {
      EqualSpecsHashAlike(h, a, b);
    }
  }

  lemma EqualSpecsHashAlike(h: Hashers, a: Spec, b: Spec)
    requires SpecEqual(a, b)
    ensures HashSpec(h, a) == HashSpec(h, b)
  {
    assert MixBox(h, 0, a) == MixBox(h, 0, b);
  }

  // The part of a spec that two equal specs share.
  function Key(s: Spec): Spec {
    if s.useGeoBox then s else s.(minLat := 0.0, maxLat := 0.0, minLon := 0.0, maxLon := 0.0)
  }

  lemma SpecEqualIsKey(a: Spec, b: Spec)
    ensures SpecEqual(a, b) <==> Key(a) == Key(b)
  {}

  // ---- the recency list and its hash index, as values ----

  // A list node. Its iterator, an id that never changes while the node lives, is what
  // the multimap stores.
  datatype ListNode = ListNode(hash: uint64, spec: Spec, rows: seq<Row>)

  type Iter = nat

  function Position(s: seq<Iter>, x: Iter): (i: nat)
    requires x in s
    ensures i < |s| && s[i] == x
  {
    if s[0] == x then 0 else 1 + Position(s[1..], x)
  }

  function Bucket(index: map<uint64, seq<Iter>>, h: uint64): seq<Iter> {
    if h in index then index[h] else []
  }

  // The list holds every node once.
  ghost predicate Listed(nodes: map<Iter, ListNode>, lru: seq<Iter>) {
    && Lists.Distinct(lru)
    && (forall k :: 0 <= k < |lru| ==> lru[k] in nodes)
    && (forall it :: it in nodes ==> it in lru)
  }

  // So does the multimap, under the node's own hash, and it refers to nothing else:
  // list and multimap are in bijection.
  ghost predicate Indexed(nodes: map<Iter, ListNode>, index: map<uint64, seq<Iter>>) {
    && (forall h, it :: it in Bucket(index, h) <==> it in nodes && nodes[it].hash == h)
    && (forall h :: Lists.Distinct(Bucket(index, h)))
  }

  type Entry = Item<Spec, seq<Row>>

  function EntryOf(node: ListNode): Entry { Item(Key(node.spec), node.rows) }

  // The cached results, most recently used first.
  ghost function ItemsOf(nodes: map<Iter, ListNode>, lru: seq<Iter>): (items: seq<Entry>)
    requires forall k :: 0 <= k < |lru| ==> lru[k] in nodes
    ensures |items| == |lru|
    ensures forall k :: 0 <= k < |lru| ==> items[k] == EntryOf(nodes[lru[k]])
  {
    seq(|lru|, i requires 0 <= i < |lru| => EntryOf(nodes[lru[i]]))
  }

  lemma DropOthers(s: seq<Iter>, i: nat)
    requires i < |s| && Lists.Distinct(s)
    ensures Lists.Distinct(Drop(s, i)) && forall x :: x in Drop(s, i) <==> x in s && x != s[i]
  {
    assert s == s[..i] + [s[i]] + s[i + 1..];
  }

  // Moving a node to the front keeps the list and moves its item.
  lemma FrontListed(nodes: map<Iter, ListNode>, lru: seq<Iter>, i: nat)
    requires Listed(nodes, lru) && i < |lru|
    ensures Listed(nodes, [lru[i]] + Drop(lru, i))
  {
    DropOthers(lru, i);
    var moved := [lru[i]] + Drop(lru, i);
    forall it | it in nodes ensures it in moved {
      if it != lru[i] { assert it in Drop(lru, i); }
    }
  }

  lemma FrontItems(nodes: map<Iter, ListNode>, lru: seq<Iter>, i: nat)
    requires forall k :: 0 <= k < |lru| ==> lru[k] in nodes
    requires i < |lru|
    ensures ItemsOf(nodes, [lru[i]] + Drop(lru, i)) == [ItemsOf(nodes, lru)[i]] + Drop(ItemsOf(nodes, lru), i)
  {
    var moved, items := [lru[i]] + Drop(lru, i), ItemsOf(nodes, lru);
    forall k | 0 <= k < |moved| ensures ItemsOf(nodes, moved)[k] == ([items[i]] + Drop(items, i))[k] {}
  }

  // Storing other rows under a node changes that item only.
  lemma ReplaceKeeps(nodes: map<Iter, ListNode>, lru: seq<Iter>, index: map<uint64, seq<Iter>>, i: nat, rows: seq<Row>)
    requires Listed(nodes, lru) && Indexed(nodes, index) && i < |lru|
    ensures var nodes' := nodes[lru[i] := nodes[lru[i]].(rows := rows)];
      && Listed(nodes', lru) && Indexed(nodes', index)
      && ItemsOf(nodes', lru) == ItemsOf(nodes, lru)[i := EntryOf(nodes'[lru[i]])]
  {}

  // Dropping the last node of the list.
  lemma LastKeeps(nodes: map<Iter, ListNode>, lru: seq<Iter>)
    requires Listed(nodes, lru) && lru != []
    ensures var nodes', init := nodes - {lru[|lru| - 1]}, lru[..|lru| - 1];
      Listed(nodes', init) && ItemsOf(nodes', init) == ItemsOf(nodes, lru)[..|lru| - 1]
  {
    assert lru == lru[..|lru| - 1] + [lru[|lru| - 1]];
  }

  // Erasing a node from the multimap, found by its iterator in the bucket of its hash.
  lemma EraseKeeps(nodes: map<Iter, ListNode>, index: map<uint64, seq<Iter>>, it: Iter, j: nat)
    requires Indexed(nodes, index) && it in nodes
    requires var bucket := Bucket(index, nodes[it].hash); j < |bucket| && bucket[j] == it
    ensures var h := nodes[it].hash; Indexed(nodes - {it}, index[h := Drop(Bucket(index, h), j)])
  {
    var h := nodes[it].hash;
    DropOthers(Bucket(index, h), j);
    var index' := index[h := Drop(Bucket(index, h), j)];
    assert forall k :: k != h ==> Bucket(index', k) == Bucket(index, k);
  }

  lemma PushListKeeps(nodes: map<Iter, ListNode>, lru: seq<Iter>, it: Iter, node: ListNode)
    requires Listed(nodes, lru) && it !in nodes
    ensures Listed(nodes[it := node], [it] + lru)
    ensures ItemsOf(nodes[it := node], [it] + lru) == [EntryOf(node)] + ItemsOf(nodes, lru)
  {
    assert forall k :: 0 <= k < |lru| ==> lru[k] != it;
  }

  lemma PushIndexKeeps(nodes: map<Iter, ListNode>, index: map<uint64, seq<Iter>>, it: Iter, node: ListNode)
    requires Indexed(nodes, index) && it !in nodes
    ensures Indexed(nodes[it := node], index[node.hash := Bucket(index, node.hash) + [it]])
  {
    var bucket := Bucket(index, node.hash);
    var index' := index[node.hash := bucket + [it]];
    assert it !in bucket;
    assert forall k :: k != node.hash ==> Bucket(index', k) == Bucket(index, k);
    assert Lists.Distinct(bucket + [it]);
  }

  ghost predicate Hashed(hash: SpecHash, nodes: map<Iter, ListNode>) {
    forall it :: it in nodes ==> nodes[it].hash == hash(nodes[it].spec)
  }

  // The cache's state as one value.
  datatype Shelf = Shelf(nodes: map<Iter, ListNode>, lru: seq<Iter>, index: map<uint64, seq<Iter>>, nextIter: Iter)
  {
    ghost predicate Sound(hash: SpecHash, capacity: nat) {
      && Listed(nodes, lru) && Indexed(nodes, index) && Hashed(hash, nodes)
      && (forall it :: it in nodes ==> it < nextIter)
      && NoTwins(Items())
      && |lru| <= capacity
    }

    ghost function Items(): seq<Entry>
      requires Listed(nodes, lru)
    {
      ItemsOf(nodes, lru)
    }

    // splice to the front
    function ToFront(i: nat): Shelf
      requires i < |lru|
    {
      this.(lru := [lru[i]] + Drop(lru, i))
    }

    // another shared vector under a node
    function WithRows(i: nat, rows: seq<Row>): Shelf
      requires i < |lru| && lru[i] in nodes
    {
      this.(nodes := nodes[lru[i] := nodes[lru[i]].(rows := rows)])
    }

    // erase from the multimap by iterator, then pop_back
    function WithoutLast(): Shelf
      requires lru != [] && lru[|lru| - 1] in nodes
      requires lru[|lru| - 1] in Bucket(index, nodes[lru[|lru| - 1]].hash)
    {
      var back := lru[|lru| - 1];
      var h := nodes[back].hash;
      var bucket := Bucket(index, h);
      Shelf(nodes - {back}, lru[..|lru| - 1], index[h := Drop(bucket, Position(bucket, back))], nextIter)
    }

    // push_front and emplace
    function Pushed(node: ListNode): Shelf {
      var index' := index[node.hash := Bucket(index, node.hash) + [nextIter]];
      Shelf(nodes[nextIter := node], [nextIter] + lru, index', nextIter + 1)
    }
  }

  lemma ToFrontSound(s: Shelf, i: nat, hash: SpecHash, capacity: nat)
    requires s.Sound(hash, capacity) && i < |s.lru|
    ensures s.ToFront(i).Sound(hash, capacity)
    ensures s.ToFront(i).Items() == [s.Items()[i]] + Drop(s.Items(), i)
  {
    FrontListed(s.nodes, s.lru, i);
    FrontItems(s.nodes, s.lru, i);
    ToFrontApart(s.Items(), i, s.Items()[i].value);
  }

  lemma WithRowsSound(s: Shelf, i: nat, rows: seq<Row>, hash: SpecHash, capacity: nat)
    requires s.Sound(hash, capacity) && i < |s.lru|
    ensures s.WithRows(i, rows).Sound(hash, capacity)
    ensures s.WithRows(i, rows).Items() == s.Items()[i := Item(s.Items()[i].key, rows)]
  {
    ReplaceKeeps(s.nodes, s.lru, s.index, i, rows);
    ReplacedApart(s.Items(), i, rows);
  }

  lemma ReplacedApart(items: seq<Entry>, i: nat, rows: seq<Row>)
    requires i < |items| && NoTwins(items)
    ensures NoTwins(items[i := Item(items[i].key, rows)])
  {}

  lemma LastIndexed(s: Shelf, hash: SpecHash, capacity: nat)
    requires s.Sound(hash, capacity) && s.lru != []
    ensures s.lru[|s.lru| - 1] in s.nodes
    ensures s.lru[|s.lru| - 1] in Bucket(s.index, s.nodes[s.lru[|s.lru| - 1]].hash)
  {}

  lemma WithoutLastSound(s: Shelf, hash: SpecHash, capacity: nat)
    requires s.Sound(hash, capacity) && s.lru != []
    ensures s.lru[|s.lru| - 1] in s.nodes
    ensures s.lru[|s.lru| - 1] in Bucket(s.index, s.nodes[s.lru[|s.lru| - 1]].hash)
    ensures s.WithoutLast().Sound(hash, capacity)
    ensures s.WithoutLast().Items() == s.Items()[..|s.lru| - 1]
  {
    hide NoTwins, Listed, Indexed;
    LastIndexed(s, hash, capacity);
    var back := s.lru[|s.lru| - 1];
    LastKeeps(s.nodes, s.lru);
    EraseKeeps(s.nodes, s.index, back, Position(Bucket(s.index, s.nodes[back].hash), back));
    TakenApart(s.Items(), |s.lru| - 1);
  }

  lemma PushedSound(s: Shelf, node: ListNode, hash: SpecHash, capacity: nat)
    requires s.Sound(hash, capacity) && |s.lru| < capacity
    requires node.hash == hash(node.spec) && Absent(s.Items(), Key(node.spec))
    ensures s.Pushed(node).Sound(hash, capacity)
    ensures s.Pushed(node).Items() == [EntryOf(node)] + s.Items()
  {
    hide Listed, Indexed, NoTwins, Bucket;
    PushListKeeps(s.nodes, s.lru, s.nextIter, node);
    PushIndexKeeps(s.nodes, s.index, s.nextIter, node);
    PushedApart(s.Items(), EntryOf(node));
  }

  lemma PushedApart(items: seq<Entry>, entry: Entry)
    requires NoTwins(items) && Absent(items, entry.key)
    ensures NoTwins([entry] + items)
  {}

  // ---- the cache ----

  class QueryCache {
    const capacity: nat
    const maxRows: nat
    const hash: SpecHash
    var nodes: map<Iter, ListNode>
    var lru: seq<Iter>
    var index: map<uint64, seq<Iter>>
    var nextIter: Iter
    var hits: nat
    var misses: nat

    constructor (capacity: nat, maxRows: nat, hash: SpecHash)
      requires Respects(hash)
      ensures Valid() && Contents() == []
      ensures this.capacity == capacity && this.maxRows == maxRows && this.hash == hash
    {
      this.capacity, this.maxRows, this.hash := capacity, maxRows, hash;
      nodes, lru, index, nextIter, hits, misses := map[], [], map[], 0, 0, 0;
    }

    ghost function State(): Shelf
      reads this
    {
      Shelf(nodes, lru, index, nextIter)
    }

    ghost predicate Valid()
      reads this
    {
      Respects(hash) && State().Sound(hash, capacity)
    }

    ghost function Contents(): seq<Entry>
      reads this
      requires Valid()
    {
      State().Items()
    }

    // The node holding an equal spec, searched among the nodes of its hash only.
    method Find(spec: Spec) returns (found: Option<Iter>)
      requires Valid()
      ensures found.Some? ==> found.value in lru && found.value in nodes && Key(nodes[found.value].spec) == Key(spec)
      ensures found.None? ==> Absent(Contents(), Key(spec))
    {
      var bucket := Bucket(index, hash(spec));
      assert forall k :: 0 <= k < |bucket| ==> bucket[k] in bucket;
      var i := 0;
      while i < |bucket|
        invariant 0 <= i <= |bucket|
        invariant forall k :: 0 <= k < i ==> bucket[k] in nodes && Key(nodes[bucket[k]].spec) != Key(spec)
      {
        assert bucket[i] in bucket;
        SpecEqualIsKey(nodes[bucket[i]].spec, spec);
        if SpecEqual(nodes[bucket[i]].spec, spec) {
          return Some(bucket[i]);
        }
        i := i + 1;
      }
      forall k | 0 <= k < |lru| ensures Key(nodes[lru[k]].spec) != Key(spec) {
        assert lru[k] in Bucket(index, nodes[lru[k]].hash);
        SpecEqualIsKey(nodes[lru[k]].spec, spec);
      }
      return None;
    }

    method MoveToFront(it: Iter)
      requires Valid() && it in lru
      modifies this`lru
      ensures Valid()
      ensures var i := Position(old(lru), it);
        Contents() == [old(Contents())[i]] + Drop(old(Contents()), i)
    {
      var i := Position(lru, it);
      ToFrontSound(State(), i, hash, capacity);
      lru := [it] + Drop(lru, i);
    }

    // Stores other rows under a node and moves it to the front.
    method Refresh(it: Iter, rows: seq<Row>)
      requires Valid() && it in lru && it in nodes
      modifies this`nodes, this`lru
      ensures Valid()
      ensures var i := Position(old(lru), it);
        Contents() == [Item(old(Contents())[i].key, rows)] + Drop(old(Contents()), i)
    {
      ghost var i := Position(lru, it);
      WithRowsSound(State(), i, rows, hash, capacity);
      nodes := nodes[it := nodes[it].(rows := rows)];
      assert Drop(Contents(), i) == Drop(old(Contents()), i);
      MoveToFront(it);
    }

    method Get(spec: Spec) returns (rows: Option<seq<Row>>)
      requires Valid()
      modifies this
      ensures Valid()
      ensures Contents() == AfterGet(old(Contents()), Key(spec), capacity)
      ensures rows == Lookup(old(Contents()), Key(spec))
      ensures hits == old(hits) + (if rows.Some? then 1 else 0) && misses == old(misses) + (if rows.None? then 1 else 0)
    {
      hide Used, Without, Key, NoTwins;
      if capacity == 0 {
        misses := misses + 1;
        return None;
      }
      var found := Find(spec);
      if found.None? {
        misses := misses + 1;
        WithoutNone(Contents(), Key(spec));
        return None;
      }
      ghost var i := Position(lru, found.value);
      ghost var items := Contents();
      UsedAgain(items, i, items[i].value, capacity);
      rows := Some(nodes[found.value].rows);
      assert items[i] == Item(Key(spec), rows.value);
      MoveToFront(found.value);
      hits := hits + 1;
    }

    // Replaces the rows of an equal spec; otherwise evicts the last node of a full
    // list and puts a new node in front.
    method Put(spec: Spec, rows: seq<Row>)
      requires Valid()
      modifies this
      ensures Valid()
      ensures Contents() == if capacity == 0 || |rows| > maxRows then old(Contents())
        else Used(old(Contents()), Item(Key(spec), rows), capacity)
      ensures hits == old(hits) && misses == old(misses)
    {
      hide Used, Without, Key, NoTwins, Drop;
      if capacity == 0 || |rows| > maxRows {
        return;
      }
      var found := Find(spec);
      if found.Some? {
        UsedAgain(Contents(), Position(lru, found.value), rows, capacity);
        Refresh(found.value, rows);
        return;
      }
      UsedAnew(Contents(), Item(Key(spec), rows), capacity);
      if |lru| >= capacity {
        EvictLast();
      }
      PushFront(spec, rows);
    }

    method EvictLast()
      requires Valid() && lru != []
      modifies this`nodes, this`lru, this`index
      ensures Valid()
      ensures |lru| == |old(lru)| - 1 && Contents() == old(Contents())[..|old(lru)| - 1]
    {
      WithoutLastSound(State(), hash, capacity);
      hide Listed, Indexed, Hashed, NoTwins, Drop, Position, Bucket;
      var back := lru[|lru| - 1];
      var h := nodes[back].hash;
      var bucket := Bucket(index, h);
      index := index[h := Drop(bucket, Position(bucket, back))];
      lru := lru[..|lru| - 1];
      nodes := nodes - {back};
      assert State() == old(State()).WithoutLast();
    }

    method PushFront(spec: Spec, rows: seq<Row>)
      requires Valid() && |lru| < capacity && Absent(Contents(), Key(spec))
      modifies this`nodes, this`lru, this`index, this`nextIter
      ensures Valid()
      ensures Contents() == [Item(Key(spec), rows)] + old(Contents())
    {
      var node := ListNode(hash(spec), spec, rows);
      PushedSound(State(), node, hash, capacity);
      nodes := nodes[nextIter := node];
      lru := [nextIter] + lru;
      index := index[node.hash := Bucket(index, node.hash) + [nextIter]];
      nextIter := nextIter + 1;
    }
  }
}
