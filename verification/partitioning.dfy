// How the data set is split over the nodes, by unique key modulo the number of nodes,
// and what putting the nodes' answers back together gives.

module Partitioning {
  import Lists
  import opened Rows

  // Rows without a unique key are dropped, by the split and by every loader.
  function Keyed(raw: seq<Row>): seq<Row> {
    if raw == [] then [] else Keyed(raw[..|raw| - 1]) + if raw[|raw| - 1].key == 0 then [] else [raw[|raw| - 1]]
  }

  // The k-th of n partitions.
  function Part(raw: seq<Row>, n: nat, k: nat): seq<Row>
    requires n > 0
  {
    if raw == [] then []
    else
      var r := raw[|raw| - 1];
      Part(raw[..|raw| - 1], n, k) + if r.key != 0 && r.key % n == k then [r] else []
  }

  // Each keyed row is in the one partition of its key's residue, as often as in the input, and
  // rows without a key are in none.
  lemma {:induction false} PartHolds(raw: seq<Row>, n: nat, k: nat, r: Row)
    requires n > 0
    ensures multiset(Part(raw, n, k))[r] == if r.key != 0 && r.key % n == k then multiset(raw)[r] else 0
    ensures multiset(Keyed(raw))[r] == if r.key != 0 then multiset(raw)[r] else 0
  {
    if raw != [] {
      var init, last := raw[..|raw| - 1], raw[|raw| - 1];
      assert raw == init + [last];
      PartHolds(init, n, k, r);
    }
  }

  // A partition keeps the input's order.
  lemma {:induction false} PartConcat(a: seq<Row>, b: seq<Row>, n: nat, k: nat)
    requires n > 0
    ensures Part(a + b, n, k) == Part(a, n, k) + Part(b, n, k)
    decreases |b|
  {
    if b == [] {
      assert a + b == a;
    } else {
      assert (a + b)[..|a + b| - 1] == a + b[..|b| - 1];
      PartConcat(a, b[..|b| - 1], n, k);
    }
  }

  // One pass over the input, each row written to its bucket's node.
  method Split(raw: seq<Row>, nodes: seq<string>) returns (parts: map<string, seq<Row>>)
    requires nodes != [] && Lists.Distinct(nodes)
    ensures forall id :: id in parts <==> id in nodes
    ensures forall k :: 0 <= k < |nodes| ==> parts[nodes[k]] == Part(raw, |nodes|, k)
  {
    parts := map id | id in nodes :: [];
    var i := 0;
    while i < |raw|
      invariant 0 <= i <= |raw|
      invariant forall id :: id in parts <==> id in nodes
      invariant forall k :: 0 <= k < |nodes| ==> parts[nodes[k]] == Part(raw[..i], |nodes|, k)
    {
      var r := raw[i];
      assert raw[..i + 1][..i] == raw[..i];
      if r.key != 0 {
        var bucket := r.key % |nodes|;
        var id := nodes[bucket];
        parts := parts[id := parts[id] + [r]];
      }
      i := i + 1;
    }
    assert raw[..|raw|] == raw;
  }

  // ---- putting shares together ----

  ghost function Gather<T>(shares: seq<seq<T>>): multiset<T> {
    if shares == [] then multiset{} else Gather(shares[..|shares| - 1]) + multiset(shares[|shares| - 1])
  }

  lemma {:induction false} GatherOneMore<T>(shares: seq<seq<T>>, k: nat, x: T)
    requires k < |shares|
    ensures Gather(shares[k := shares[k] + [x]]) == Gather(shares) + multiset{x}
    decreases |shares|
  {
    var n := |shares| - 1;
    var more := shares[k := shares[k] + [x]];
    if k < n {
      GatherOneMore(shares[..n], k, x);
      assert more[..n] == shares[..n][k := shares[k] + [x]];
    } else {
      assert more[..n] == shares[..n];
    }
  }

  lemma {:induction false} GatherNothing<T>(shares: seq<seq<T>>)
    requires forall k :: 0 <= k < |shares| ==> shares[k] == []
    ensures Gather(shares) == multiset{}
  {
    if shares != [] {
      GatherNothing(shares[..|shares| - 1]);
    }
  }

  // Shares that are all no longer gather no more; one share shorter leaves fewer.
  lemma {:induction false} GatherSmaller<T>(a: seq<seq<T>>, b: seq<seq<T>>)
    requires |a| == |b| && forall k :: 0 <= k < |a| ==> |a[k]| <= |b[k]|
    ensures |Gather(a)| <= |Gather(b)|
    ensures (exists k :: 0 <= k < |a| && |a[k]| < |b[k]|) ==> |Gather(a)| < |Gather(b)|
    ensures (forall k :: 0 <= k < |a| ==> |a[k]| == |b[k]|) ==> |Gather(a)| == |Gather(b)|
  {
    if a != [] {
      var n := |a| - 1;
      GatherSmaller(a[..n], b[..n]);
      assert |a[n]| <= |b[n]|;
      if k :| 0 <= k < |a| && |a[k]| < |b[k]| {
        if k < n { assert a[..n][k] == a[k] && b[..n][k] == b[k]; }
      }
    }
  }

  function Answers(raw: seq<Row>, spec: Spec, borough: int, n: nat): (shares: seq<seq<Row>>)
    requires n > 0
    ensures |shares| == n && forall k :: 0 <= k < n ==> shares[k] == Reference(Part(raw, n, k), spec, borough)
  {
    seq(n, k requires 0 <= k < n => Reference(Part(raw, n, k), spec, borough))
  }

  lemma ReferenceAppend(rows: seq<Row>, r: Row, spec: Spec, borough: int)
    ensures Reference(rows + [r], spec, borough)
      == Reference(rows, spec, borough) + if Wanted(spec, borough, r) then [r] else []
  {
    assert (rows + [r])[..|rows|] == rows;
  }

  lemma ShareStep(init: seq<Row>, r: Row, spec: Spec, borough: int, n: nat, k: nat)
    requires k < n
    ensures var before := Reference(Part(init, n, k), spec, borough);
      Reference(Part(init + [r], n, k), spec, borough)
      == if Taken(r, spec, borough) && r.key % n == k then before + [r] else before
  {
    hide Reference, Wanted;
    assert (init + [r])[..|init|] == init;
    assert Part(init, n, k) + [] == Part(init, n, k);
    ReferenceAppend(Part(init, n, k), r, spec, borough);
  }

  predicate Taken(r: Row, spec: Spec, borough: int) { r.key != 0 && Wanted(spec, borough, r) }

  lemma AnswersStep(init: seq<Row>, r: Row, spec: Spec, borough: int, n: nat)
    requires n > 0
    ensures var shares := Answers(init, spec, borough, n);
      Answers(init + [r], spec, borough, n) ==
        if Taken(r, spec, borough) then shares[r.key % n := shares[r.key % n] + [r]] else shares
  {
    hide Part, Reference, Taken;
    var shares, more := Answers(init, spec, borough, n), Answers(init + [r], spec, borough, n);
    forall k | 0 <= k < n
      ensures more[k] == if Taken(r, spec, borough) && r.key % n == k then shares[k] + [r] else shares[k]
    {
      ShareStep(init, r, spec, borough, n, k);
    }
    assert Taken(r, spec, borough) ==> more == shares[r.key % n := shares[r.key % n] + [r]];
    assert !Taken(r, spec, borough) ==> more == shares;
  }

  // The partitions' answers hold, all together, the rows of the same query run on the
  // whole data set at once.
  lemma {:induction false} PartsAnswerWhole(raw: seq<Row>, spec: Spec, borough: int, n: nat)
    requires n > 0
    ensures Gather(Answers(raw, spec, borough, n)) == multiset(Reference(Keyed(raw), spec, borough))
  {
    hide Part, Gather, Reference;
    if raw == [] {
      NothingKept(spec, borough, n);
    } else {
      var init, r := raw[..|raw| - 1], raw[|raw| - 1];
      PartsAnswerWhole(init, spec, borough, n);
      assert raw == init + [r];
      AnswersStep(init, r, spec, borough, n);
      KeyedStep(init, r, spec, borough);
      if Taken(r, spec, borough) {
        GatherOneMore(Answers(init, spec, borough, n), r.key % n, r);
      }
    }
  }

  lemma KeyedStep(init: seq<Row>, r: Row, spec: Spec, borough: int)
    ensures multiset(Reference(Keyed(init + [r]), spec, borough))
      == multiset(Reference(Keyed(init), spec, borough)) + if Taken(r, spec, borough) then multiset{r} else multiset{}
  {
    hide Reference, Wanted;
    assert (init + [r])[..|init|] == init;
    assert Keyed(init) + [] == Keyed(init);
    ReferenceAppend(Keyed(init), r, spec, borough);
  }

  lemma NothingKept(spec: Spec, borough: int, n: nat)
    requires n > 0
    ensures Gather(Answers([], spec, borough, n)) == multiset{} == multiset(Reference(Keyed([]), spec, borough))
  {
    GatherNothing(Answers([], spec, borough, n));
  }
}
