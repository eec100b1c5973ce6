// What every sequence of gets and puts leaves in the cache: the capacity most recently
// used keys, each with the value of its latest put.

module RecencyTheorems {
  import opened Options
  import opened Recency

  // A put of more than the allowed rows is ignored.
  datatype CacheOp<K, R> = GetOp(key: K) | PutOp(key: K, rows: seq<R>)

  function Effect<K(==), R>(items: seq<Item<K, seq<R>>>, op: CacheOp<K, R>, capacity: nat, maxRows: nat)
    : seq<Item<K, seq<R>>>
  {
    match op
    case GetOp(key) => AfterGet(items, key, capacity)
    case PutOp(key, rows) =>
      if capacity == 0 || |rows| > maxRows then items else Used(items, Item(key, rows), capacity)
  }

  function RunCache<K(==), R>(ops: seq<CacheOp<K, R>>, capacity: nat, maxRows: nat): seq<Item<K, seq<R>>> {
    if ops == [] then []
    else Effect(RunCache(ops[..|ops| - 1], capacity, maxRows), ops[|ops| - 1], capacity, maxRows)
  }

  // ---- the history of uses ----

  // One item per key, the first of each.
  function Recent<K(==), V>(log: seq<Item<K, V>>): seq<Item<K, V>> {
    if log == [] then [] else [log[0]] + Without(Recent(log[1..]), log[0].key)
  }

  // Every accepted put and every get that finds its key among the capacity most
  // recently used ones, latest first. Nothing here mentions the cache.
  function UseLog<K(==), R>(ops: seq<CacheOp<K, R>>, capacity: nat, maxRows: nat): seq<Item<K, seq<R>>> {
    if ops == [] then []
    else
      var log := UseLog(ops[..|ops| - 1], capacity, maxRows);
      match ops[|ops| - 1]
      case GetOp(key) =>
        var found := Lookup(Take(Recent(log), capacity), key);
        if found.Some? then [Item(key, found.value)] + log else log
      case PutOp(key, rows) =>
        if capacity == 0 || |rows| > maxRows then log else [Item(key, rows)] + log
  }

  lemma {:induction false} WithoutConcat<K, V>(a: seq<Item<K, V>>, b: seq<Item<K, V>>, key: K)
    ensures Without(a + b, key) == Without(a, key) + Without(b, key)
  {
    if a == [] {
      assert a + b == b;
    } else {
      assert (a + b)[1..] == a[1..] + b;
      WithoutConcat(a[1..], b, key);
    }
  }

  lemma {:induction false} WithoutLosesOne<K, V>(a: seq<Item<K, V>>, key: K)
    requires NoTwins(a)
    ensures |Without(a, key)| >= |a| - 1
  {
    if a != [] {
      if a[0].key == key {
        WithoutNone(a[1..], key);
      } else {
        WithoutLosesOne(a[1..], key);
      }
    }
  }

  lemma {:induction false} RecentApart<K, V>(log: seq<Item<K, V>>)
    ensures NoTwins(Recent(log))
  {
    if log != [] {
      RecentApart(log[1..]);
      WithoutKeepsApart(Recent(log[1..]), log[0].key);
    }
  }

  // Whatever lies beyond the capacity never comes back by itself.
  lemma UsedOfTaken<K, V>(items: seq<Item<K, V>>, item: Item<K, V>, capacity: nat)
    requires NoTwins(items)
    ensures Used(Take(items, capacity), item, capacity) == Take([item] + Without(items, item.key), capacity)
  {
    hide Without, NoTwins;
    if |items| > capacity {
      var a, b := items[..capacity], items[capacity..];
      assert items == a + b;
      WithoutConcat(a, b, item.key);
      assert NoTwins(a) by { TakenApart(items, capacity); }
      WithoutLosesOne(a, item.key);
      TakeShort([item] + Without(a, item.key), Without(b, item.key), capacity);
      assert [item] + Without(items, item.key) == ([item] + Without(a, item.key)) + Without(b, item.key);
    }
  }

  lemma TakeShort<T>(front: seq<T>, back: seq<T>, capacity: nat)
    requires |front| >= capacity
    ensures Take(front + back, capacity) == Take(front, capacity)
  {}

  // The cache holds exactly the capacity most recently used keys, latest first.
  lemma {:induction false} CacheIsMostRecent<K, R>(ops: seq<CacheOp<K, R>>, capacity: nat, maxRows: nat)
    ensures RunCache(ops, capacity, maxRows) == Take(Recent(UseLog(ops, capacity, maxRows)), capacity)
  {
    if ops != [] {
      var init := ops[..|ops| - 1];
      CacheIsMostRecent(init, capacity, maxRows);
      var log := UseLog(init, capacity, maxRows);
      RecentApart(log);
      match ops[|ops| - 1]
      case GetOp(key) =>
        var found := Lookup(Take(Recent(log), capacity), key);
        if found.Some? {
          UsedOfTaken(Recent(log), Item(key, found.value), capacity);
          assert Recent([Item(key, found.value)] + log) == [Item(key, found.value)] + Without(Recent(log), key);
        }
      case PutOp(key, rows) =>
        UsedOfTaken(Recent(log), Item(key, rows), capacity);
        assert Recent([Item(key, rows)] + log) == [Item(key, rows)] + Without(Recent(log), key);
    }
  }

  // ---- a hit returns the latest put ----

  function LatestPut<K(==), R>(ops: seq<CacheOp<K, R>>, key: K, capacity: nat, maxRows: nat): Option<seq<R>> {
    if ops == [] then None
    else
      var op := ops[|ops| - 1];
      if op.PutOp? && op.key == key && capacity > 0 && |op.rows| <= maxRows then Some(op.rows)
      else LatestPut(ops[..|ops| - 1], key, capacity, maxRows)
  }

  lemma {:induction false} LookupWithout<K, V>(items: seq<Item<K, V>>, key: K, other: K)
    requires key != other
    ensures Lookup(Without(items, other), key) == Lookup(items, key)
  {
    if items != [] {
      LookupWithout(items[1..], key, other);
      if items[0].key != other {
        assert Without(items, other)[1..] == Without(items[1..], other);
      } else {
        assert Without(items, other) == Without(items[1..], other);
      }
    }
  }

  lemma {:induction false} LookupRecent<K, V>(log: seq<Item<K, V>>, key: K)
    ensures Lookup(Recent(log), key) == Lookup(log, key)
  {
    if log != [] && log[0].key != key {
      LookupRecent(log[1..], key);
      LookupWithout(Recent(log[1..]), key, log[0].key);
      assert Recent(log)[1..] == Without(Recent(log[1..]), log[0].key);
    }
  }

  lemma {:induction false} LookupTaken<K, V>(items: seq<Item<K, V>>, key: K, n: nat)
    ensures Lookup(Take(items, n), key).Some? ==> Lookup(Take(items, n), key) == Lookup(items, key)
    decreases n
  {
    if items != [] && n > 0 && items[0].key != key {
      assert Take(items, n)[1..] == Take(items[1..], n - 1);
      LookupTaken(items[1..], key, n - 1);
    }
  }

  lemma {:induction false} LogHoldsLatest<K, R>(ops: seq<CacheOp<K, R>>, key: K, capacity: nat, maxRows: nat)
    ensures Lookup(UseLog(ops, capacity, maxRows), key) == LatestPut(ops, key, capacity, maxRows)
  {
    if ops != [] {
      var init := ops[..|ops| - 1];
      var log := UseLog(init, capacity, maxRows);
      LogHoldsLatest(init, key, capacity, maxRows);
      LookupRecent(log, key);
      LookupTaken(Recent(log), key, capacity);
      var log' := UseLog(ops, capacity, maxRows);
      assert log' == log || log'[1..] == log;
    }
  }

  // A get that hits returns the rows of the latest accepted put of its key.
  lemma HitIsLatestPut<K, R>(ops: seq<CacheOp<K, R>>, key: K, capacity: nat, maxRows: nat)
    ensures var hit := Lookup(RunCache(ops, capacity, maxRows), key);
      hit.Some? ==> hit == LatestPut(ops, key, capacity, maxRows)
  {
    CacheIsMostRecent(ops, capacity, maxRows);
    var log := UseLog(ops, capacity, maxRows);
    LookupTaken(Recent(log), key, capacity);
    LookupRecent(log, key);
    LogHoldsLatest(ops, key, capacity, maxRows);
  }

  // ---- exactly when a get hits ----

  // The keys used since the last use of this one.
  function Newer<K(==), V>(log: seq<Item<K, V>>, key: K): set<K> {
    if log == [] || log[0].key == key then {} else {log[0].key} + Newer(log[1..], key)
  }

  ghost function Keys<K, V>(items: seq<Item<K, V>>): set<K> { set k | 0 <= k < |items| :: items[k].key }

  lemma {:induction false} WithoutKeys<K, V>(items: seq<Item<K, V>>, other: K)
    requires NoTwins(items)
    ensures Keys(Without(items, other)) == Keys(items) - {other}
    ensures |Without(items, other)| == if other in Keys(items) then |items| - 1 else |items|
  {
    if items != [] {
      WithoutKeys(items[1..], other);
      KeysTail(items);
      assert items[0].key !in Keys(items[1..]);
      if items[0].key == other {
        WithoutNone(items[1..], other);
        assert Without(items, other) == items[1..];
      } else {
        KeysTail(Without(items, other));
        assert Without(items, other)[1..] == Without(items[1..], other);
      }
    }
  }

  lemma WithoutPosition<K, V>(items: seq<Item<K, V>>, p: nat, other: K)
    requires NoTwins(items) && p < |items| && items[p].key != other
    ensures var rest := Without(items, other);
      var q := if other in Keys(items[..p]) then p - 1 else p;
      0 <= q < |rest| && rest[q] == items[p] && Keys(rest[..q]) == Keys(items[..p]) - {other}
  {
    var ahead, behind := items[..p], items[p..];
    assert items == ahead + behind && behind[0] == items[p];
    WithoutConcat(ahead, behind, other);
    WithoutKeys(ahead, other);
    var rest, q := Without(items, other), |Without(ahead, other)|;
    assert rest[..q] == Without(ahead, other);
    assert rest[q] == Without(behind, other)[0];
  }

  lemma KeysTail<K, V>(items: seq<Item<K, V>>)
    requires items != []
    ensures Keys(items) == {items[0].key} + Keys(items[1..])
  {
    forall key ensures key in Keys(items) <==> key == items[0].key || key in Keys(items[1..]) {
      if key in Keys(items) {
        var k :| 0 <= k < |items| && items[k].key == key;
        if k > 0 { assert items[1..][k - 1].key == key; }
      }
      if key in Keys(items[1..]) {
        var k :| 0 <= k < |items[1..]| && items[1..][k].key == key;
        assert items[k + 1].key == key;
      }
    }
  }

  ghost predicate StandsAt<K, V>(items: seq<Item<K, V>>, key: K, p: nat, ahead: set<K>) {
    p < |items| && items[p].key == key && Keys(items[..p]) == ahead && |ahead| == p
  }

  // Using another key pushes a key back by one, unless that key already stood ahead.
  lemma PushedBack<K, V>(items: seq<Item<K, V>>, key: K, p: nat, ahead: set<K>, item: Item<K, V>) returns (p': nat)
    requires NoTwins(items) && StandsAt(items, key, p, ahead) && item.key != key
    ensures StandsAt([item] + Without(items, item.key), key, p', {item.key} + ahead)
  {
    hide Without, Keys, NoTwins;
    WithoutPosition(items, p, item.key);
    var rest := Without(items, item.key);
    if item.key in ahead {
      p' := p;
      FrontKeys(item, rest, p - 1);
      assert {item.key} + (ahead - {item.key}) == ahead == {item.key} + ahead;
    } else {
      p' := p + 1;
      FrontKeys(item, rest, p);
      assert ahead - {item.key} == ahead;
    }
  }

  lemma FrontKeys<K, V>(item: Item<K, V>, rest: seq<Item<K, V>>, q: nat)
    requires q <= |rest|
    ensures Keys(([item] + rest)[..q + 1]) == {item.key} + Keys(rest[..q])
  {
    var front := ([item] + rest)[..q + 1];
    assert front == [item] + rest[..q];
    KeysTail(front);
    assert front[1..] == rest[..q];
  }

  // A logged key stands behind exactly the keys used since.
  lemma {:induction false} RecentPosition<K, V>(log: seq<Item<K, V>>, key: K) returns (p: nat)
    requires Lookup(log, key).Some?
    ensures StandsAt(Recent(log), key, p, Newer(log, key))
  {
    if log[0].key == key {
      p := 0;
      assert Recent(log)[..0] == [];
    } else {
      var q := RecentPosition(log[1..], key);
      RecentApart(log[1..]);
      p := PushedBack(Recent(log[1..]), key, q, Newer(log[1..], key), log[0]);
    }
  }

  lemma {:induction false} LookupAt<K, V>(items: seq<Item<K, V>>, p: nat)
    requires NoTwins(items) && p < |items|
    ensures Lookup(items, items[p].key) == Some(items[p].value)
  {
    WithoutAt(items, p);
  }

  // A get hits exactly when its key was used before and fewer than `capacity` other
  // keys have been used since its last use.
  lemma HitsExactlyWhenRecent<K, R>(ops: seq<CacheOp<K, R>>, key: K, capacity: nat, maxRows: nat)
    ensures var log := UseLog(ops, capacity, maxRows);
      Lookup(RunCache(ops, capacity, maxRows), key).Some?
      <==> Lookup(log, key).Some? && |Newer(log, key)| < capacity
  {
    CacheIsMostRecent(ops, capacity, maxRows);
    var log := UseLog(ops, capacity, maxRows);
    var taken := Take(Recent(log), capacity);
    LookupTaken(Recent(log), key, capacity);
    LookupRecent(log, key);
    if Lookup(log, key).Some? {
      var p := RecentPosition(log, key);
      RecentApart(log);
      if p < capacity {
        assert taken[p] == Recent(log)[p];
        LookupAt(taken, p);
      } else {
        WithoutNone(taken, key);
      }
    }
  }
}
