// Row-id lists: the strictly ascending posting lists every index returns, the
// linear merge that intersects two of them, and the library sort.

module Lists {

  ghost predicate Ascending(s: seq<nat>) {
    forall i, j :: 0 <= i < j < |s| ==> s[i] < s[j]
  }

  lemma HasMember(s: seq<nat>)
    ensures s == [] || exists x :: x in s
  {
    if s != [] { assert s[0] in s; }
  }

  // Two strictly ascending lists with the same members are the same list, so an
  // index answer is fixed by saying which row ids it holds.
  lemma {:induction false} AscendingUnique(a: seq<nat>, b: seq<nat>)
    requires Ascending(a) && Ascending(b)
    requires forall x :: x in a <==> x in b
    ensures a == b
    decreases |a|
  {
    if a == [] || b == [] {
      HasMember(a);
      HasMember(b);
    } else {
      var la, lb := a[|a| - 1], b[|b| - 1];
      assert la in b && lb in a;
      assert la == lb;
      var a', b' := a[..|a| - 1], b[..|b| - 1];
      forall x ensures x in a' <==> x in b' {
        if x in a' { assert x in a && x < la; assert x in b; }
        if x in b' { assert x in b && x < lb; assert x in a; }
      }
      AscendingUnique(a', b');
      assert a == a' + [la] && b == b' + [lb];
    }
  }

  // ---- the library sort (std::sort, list.sort) ----

  ghost predicate TotalOrder<T(!new)>(le: (T, T) -> bool) {
    && (forall x, y :: le(x, y) || le(y, x))
    && (forall x, y, z :: le(x, y) && le(y, z) ==> le(x, z))
  }

  ghost predicate SortedBy<T>(s: seq<T>, le: (T, T) -> bool) {
    forall i, j :: 0 <= i < j < |s| ==> le(s[i], s[j])
  }

  function Insert<T>(x: T, s: seq<T>, le: (T, T) -> bool): (r: seq<T>)
    ensures multiset(r) == multiset(s) + multiset{x}
  {
    if s == [] then [x]
    else if le(x, s[0]) then [x] + s
    else
      assert s == [s[0]] + s[1..];
      [s[0]] + Insert(x, s[1..], le)
  }

  function Sort<T>(s: seq<T>, le: (T, T) -> bool): (r: seq<T>)
    ensures multiset(r) == multiset(s)
  {
    if s == [] then []
    else
      assert s == [s[0]] + s[1..];
      Insert(s[0], Sort(s[1..], le), le)
  }

  lemma {:induction false} InsertSorts<T(!new)>(x: T, s: seq<T>, le: (T, T) -> bool)
    requires TotalOrder(le) && SortedBy(s, le)
    ensures SortedBy(Insert(x, s, le), le)
  {
    if s != [] && !le(x, s[0]) {
      var rest := Insert(x, s[1..], le);
      InsertSorts(x, s[1..], le);
      forall j | 0 <= j < |rest| ensures le(s[0], rest[j]) {
        assert rest[j] in multiset(rest);
        assert rest[j] in multiset(s[1..]) + multiset{x};
        if rest[j] != x { assert rest[j] in s[1..]; }
      }
    }
  }

  lemma {:induction false} SortSorts<T(!new)>(s: seq<T>, le: (T, T) -> bool)
    requires TotalOrder(le)
    ensures SortedBy(Sort(s, le), le)
  {
    if s != [] {
      SortSorts(s[1..], le);
      InsertSorts(s[0], Sort(s[1..], le), le);
    }
  }

  lemma SameMembers<T>(a: seq<T>, b: seq<T>)
    requires multiset(a) == multiset(b)
    ensures |a| == |b| && forall x :: x in a <==> x in b
  {
    assert |multiset(a)| == |multiset(b)|;
    forall x ensures x in a <==> x in b {
      assert x in a <==> x in multiset(a);
      assert x in b <==> x in multiset(b);
    }
  }

  ghost predicate Distinct<T>(s: seq<T>) {
    forall i, j :: 0 <= i < j < |s| ==> s[i] != s[j]
  }

  lemma {:induction false} DistinctIffOnce<T>(s: seq<T>)
    ensures Distinct(s) <==> forall x :: multiset(s)[x] <= 1
  {
    if s == [] {
    } else {
      var rest := s[1..];
      assert s == [s[0]] + rest;
      DistinctIffOnce(rest);
      if Distinct(s) {
        assert s[0] !in rest;
        forall x ensures multiset(s)[x] <= 1 {}
      }
      if forall x :: multiset(s)[x] <= 1 {
        forall x ensures multiset(rest)[x] <= 1 { assert multiset(s)[x] <= 1; }
        assert multiset(s)[s[0]] <= 1;
        assert s[0] !in rest;
      }
    }
  }

  lemma PrefixStep<T>(s: seq<T>, i: nat)
    requires i < |s|
    ensures s[..i + 1] == s[..i] + [s[i]]
  {}

  predicate IdLe(a: nat, b: nat) { a <= b }

  // Sorting a list of distinct row ids gives the strictly ascending list of the
  // same ids.
  lemma SortedIds(s: seq<nat>)
    requires Distinct(s)
    ensures Ascending(Sort(s, IdLe)) && forall x :: x in Sort(s, IdLe) <==> x in s
  {
    var r := Sort(s, IdLe);
    SortSorts(s, IdLe);
    SameMembers(r, s);
    DistinctIffOnce(s);
    DistinctIffOnce(r);
    forall i, j | 0 <= i < j < |r| ensures r[i] < r[j] {
      assert IdLe(r[i], r[j]);
    }
  }

  // ---- AND of postings ----

  // Both cursors are at the first element not yet passed, and `out` is what the passed
  // elements share.
  ghost predicate Merging(a: seq<nat>, b: seq<nat>, i: nat, j: nat, out: seq<nat>)
    requires i <= |a| && j <= |b|
  {
    && Ascending(out)
    && (forall x :: x in out <==> x in a[..i] && x in b[..j])
    && (i < |a| ==> forall x :: x in b[..j] ==> x < a[i])
    && (j < |b| ==> forall x :: x in a[..i] ==> x < b[j])
  }

  lemma AppendAscends(s: seq<nat>, x: nat)
    requires Ascending(s) && forall y :: y in s ==> y < x
    ensures Ascending(s + [x])
  {
    forall k | 0 <= k < |s| ensures s[k] < x {
      assert s[k] in s;
    }
  }

  lemma TakeOne(a: seq<nat>, i: nat)
    requires i < |a| && Ascending(a)
    ensures forall x :: x in a[..i + 1] <==> x in a[..i] || x == a[i]
    ensures forall x :: x in a[..i] ==> x < a[i]
    ensures i + 1 < |a| ==> a[i] < a[i + 1]
  {
    PrefixStep(a, i);
  }

  lemma MergeBoth(a: seq<nat>, b: seq<nat>, i: nat, j: nat, out: seq<nat>)
    requires Ascending(a) && Ascending(b) && i < |a| && j < |b| && a[i] == b[j] && Merging(a, b, i, j, out)
    ensures Merging(a, b, i + 1, j + 1, out + [a[i]])
  {
    TakeOne(a, i);
    TakeOne(b, j);
    AppendAscends(out, a[i]);
  }

  lemma MergeSkip(a: seq<nat>, b: seq<nat>, i: nat, j: nat, out: seq<nat>)
    requires Ascending(a) && i < |a| && j < |b| && a[i] < b[j] && Merging(a, b, i, j, out)
    ensures Merging(a, b, i + 1, j, out)
  {
    TakeOne(a, i);
  }

  lemma MergeTurns(a: seq<nat>, b: seq<nat>, i: nat, j: nat, out: seq<nat>)
    requires i <= |a| && j <= |b|
    ensures Merging(a, b, i, j, out) <==> Merging(b, a, j, i, out)
  {}

  lemma MergeEnds(a: seq<nat>, b: seq<nat>, i: nat, j: nat, out: seq<nat>)
    requires Ascending(a) && Ascending(b) && i <= |a| && j <= |b| && (i == |a| || j == |b|) && Merging(a, b, i, j, out)
    ensures forall x :: x in out <==> x in a && x in b
  {
    forall x ensures x in out <==> x in a && x in b {
      assert a == a[..i] + a[i..] && b == b[..j] + b[j..];
      assert x in a[i..] ==> i < |a| && a[i] <= x;
      assert x in b[j..] ==> j < |b| && b[j] <= x;
    }
  }

  // The two-cursor merge of two ascending row-id lists.
  method Intersect(a: seq<nat>, b: seq<nat>) returns (out: seq<nat>)
    requires Ascending(a) && Ascending(b)
    ensures Ascending(out)
    ensures forall x :: x in out <==> x in a && x in b
  {
    out := [];
    var i, j := 0, 0;
    while i < |a| && j < |b|
      invariant 0 <= i <= |a| && 0 <= j <= |b| && Merging(a, b, i, j, out)
      decreases |a| - i + |b| - j
    {
      if a[i] == b[j] {
        MergeBoth(a, b, i, j, out);
        out := out + [a[i]];
        i, j := i + 1, j + 1;
      } else if a[i] < b[j] {
        MergeSkip(a, b, i, j, out);
        i := i + 1;
      } else {
        MergeTurns(a, b, i, j, out);
        MergeSkip(b, a, j, i, out);
        j := j + 1;
        MergeTurns(b, a, j, i, out);
      }
    }
    MergeEnds(a, b, i, j, out);
  }

  predicate ShorterOrEqual(a: seq<nat>, b: seq<nat>) { |a| <= |b| }

  ghost predicate InAll(x: int, lists: seq<seq<nat>>) {
    forall k :: 0 <= k < |lists| ==> x in lists[k]
  }

  // Smallest-first fold of the candidate lists, stopping early once nothing is left.
  method IntersectAll(cands: seq<seq<nat>>) returns (work: seq<nat>)
    requires cands != []
    requires forall k :: 0 <= k < |cands| ==> Ascending(cands[k])
    ensures Ascending(work)
    ensures forall x :: x in work <==> InAll(x, cands)
  {
    hide InAll, Ascending;
    var lists := Sort(cands, ShorterOrEqual);
    SortedBySize(cands, lists);
    InAllOne(lists);
    work := lists[0];
    var k := 1;
    while k < |lists|
      invariant 1 <= k <= |lists|
      invariant Ascending(work)
      invariant forall x :: x in work <==> InAll(x, lists[..k])
    {
      InAllPrefix(lists, k);
      if work == [] {
        EmptyStays(lists, k);
        break;
      }
      work := Intersect(work, lists[k]);
      k := k + 1;
    }
    assert lists[..|lists|] == lists;
  }

  // Sorting the lists by size changes neither their properties nor their intersection.
  lemma SortedBySize(cands: seq<seq<nat>>, lists: seq<seq<nat>>)
    requires multiset(lists) == multiset(cands)
    requires forall k :: 0 <= k < |cands| ==> Ascending(cands[k])
    ensures |lists| == |cands| && forall k :: 0 <= k < |lists| ==> Ascending(lists[k])
    ensures forall x :: InAll(x, lists) <==> InAll(x, cands)
  {
    SameMembers(lists, cands);
    forall k | 0 <= k < |lists| ensures Ascending(lists[k]) {
      assert lists[k] in cands;
    }
    forall x ensures InAll(x, lists) <==> InAll(x, cands) {
      InAllSame(x, lists, cands);
      InAllSame(x, cands, lists);
    }
  }

  lemma InAllOne(lists: seq<seq<nat>>)
    requires lists != []
    ensures forall x :: InAll(x, lists[..1]) <==> x in lists[0]
  {}

  lemma InAllPrefix(lists: seq<seq<nat>>, k: nat)
    requires k < |lists|
    ensures forall x :: InAll(x, lists[..k + 1]) <==> InAll(x, lists[..k]) && x in lists[k]
  {}

  lemma EmptyStays(lists: seq<seq<nat>>, k: nat)
    requires k <= |lists| && forall x :: !InAll(x, lists[..k])
    ensures forall x :: !InAll(x, lists)
  {
    forall x ensures !InAll(x, lists) {
      assert !InAll(x, lists[..k]);
    }
  }

  lemma InAllSame(x: int, a: seq<seq<nat>>, b: seq<seq<nat>>)
    requires forall l :: l in b ==> l in a
    ensures InAll(x, a) ==> InAll(x, b)
  {
    if InAll(x, a) {
      forall k | 0 <= k < |b| ensures x in b[k] {
        assert b[k] in a;
      }
    }
  }
}
