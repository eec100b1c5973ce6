// The cache key means what it should: specs it cannot tell apart ask the same question.

module CacheKey {
  import opened Rows
  import opened QueryPlan
  import PartitionScan
  import QueryEngine
  import Partitioning
  import opened QueryCaches

  lemma EqualWantAlike(a: Spec, b: Spec, borough: int, r: Row)
    requires SpecEqual(a, b)
    ensures Wanted(a, borough, r) <==> Wanted(b, borough, r)
    ensures Found(a, borough, r) <==> Found(b, borough, r)
    ensures PassesBox(a, r) <==> PassesBox(b, r)
  {
    if a.useGeoBox { assert a == b; }
  }

  lemma {:induction false} EqualReference(rows: seq<Row>, a: Spec, b: Spec, borough: int)
    requires SpecEqual(a, b)
    ensures Reference(rows, a, borough) == Reference(rows, b, borough)
    ensures AllFound(rows, a, borough) == AllFound(rows, b, borough)
    ensures BoxOnly(a, rows) == BoxOnly(b, rows)
  {
    if rows != [] {
      EqualReference(rows[..|rows| - 1], a, b, borough);
      EqualWantAlike(a, b, borough, rows[|rows| - 1]);
    }
  }

  lemma {:induction false} EqualBeforeMiss(rows: seq<Row>, a: Spec, b: Spec)
    requires SpecEqual(a, b)
    ensures QueryEngine.BeforeMiss(a, rows) == QueryEngine.BeforeMiss(b, rows)
  {
    if rows != [] {
      EqualWantAlike(a, b, 0, rows[0]);
      EqualBeforeMiss(rows[1..], a, b);
    }
  }

  // Equal specs make every engine send the same rows from every store, under the same
  // cancels, and the Python scan on either path.
  lemma EqualSpecsRunAlike(rows: seq<Row>, a: Spec, b: Spec, polls: nat -> bool, linear: bool)
    requires SpecEqual(a, b)
    ensures QueryEngine.RunRows(rows, a, polls) == QueryEngine.RunRows(rows, b, polls)
    ensures PartitionScan.ScanRows(rows, a, linear, polls) == PartitionScan.ScanRows(rows, b, linear, polls)
  {
    EqualReference(rows, a, b, QueryEngine.BoroughByte(a));
    var found := AllFound(rows, a, QueryEngine.BoroughByte(a));
    EqualBeforeMiss(found[..Stop(polls, 0, |found|)], a, b);
    EqualReference(rows[..Stop(polls, 0, |rows|)], a, b, a.borough);
    EqualReference(rows, a, b, a.borough);
    var seen := AllFound(rows, a, a.borough);
    EqualReference(seen[..Stop(polls, 0, |seen|)], a, b, a.borough);
  }

  // So a result that was the whole data set's answer to one is the answer to the other.
  lemma EqualSpecsAnswerAlike(raw: seq<Row>, a: Spec, b: Spec, answer: multiset<Row>)
    requires SpecEqual(a, b) && answer == multiset(Reference(Partitioning.Keyed(raw), a, a.borough))
    ensures answer == multiset(Reference(Partitioning.Keyed(raw), b, b.borough))
  {
    EqualReference(Partitioning.Keyed(raw), a, b, a.borough);
  }

  lemma SpecEqualIsEquivalence(a: Spec, b: Spec, c: Spec)
    ensures SpecEqual(a, a) && (SpecEqual(a, b) <==> SpecEqual(b, a))
    ensures SpecEqual(a, b) && SpecEqual(b, c) ==> SpecEqual(a, c)
  {}

  // A box that is not used plays no part in the key, and one that is used plays all of it.
  lemma BoxCountsWhenUsed(a: Spec, b: Spec)
    requires a.(minLat := 0.0, maxLat := 0.0, minLon := 0.0, maxLon := 0.0)
      == b.(minLat := 0.0, maxLat := 0.0, minLon := 0.0, maxLon := 0.0)
    ensures SpecEqual(a, b) <==> !a.useGeoBox || a == b
  {}
}
