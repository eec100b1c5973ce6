// One node's scan of its partition, in whichever of the two languages it runs: exactly
// when it hands over the plain filter's answer.

module NodeScans {
  import opened Rows
  import QueryPlan
  import PartitionScan
  import opened ScanTheorems
  import opened QueryEngine

  datatype Engine = Python(chunkRows: int, linear: bool) | Cpp(size: uint32)

  // The chunks a node's scan yields.
  ghost function NodeChunks(e: Engine, rows: seq<Row>, spec: Spec, polls: nat -> bool): seq<Chunk<Row>> {
    match e
    case Python(chunkRows, linear) => PartitionScan.ScanChunks(rows, spec, chunkRows, linear, polls)
    case Cpp(size) => RunChunks(rows, spec, size, polls)
  }

  ghost predicate OriginHarmless(rows: seq<Row>, spec: Spec) {
    spec.useGeoBox ==> NoneAtOrigin(Capped(Reference(rows, spec, spec.borough), spec.maxRows))
  }

  // Whether a query suits a node's engine and partition. A borough outside the byte range
  // is cast to another one: then the plain filter keeps nothing, and the engine must not
  // either.
  ghost predicate Suits(e: Engine, rows: seq<Row>, spec: Spec) {
    match e
    case Python(_, linear) => linear || OriginHarmless(rows, spec)
    case Cpp(_) =>
      var found := QueryPlan.AllFound(rows, spec, BoroughByte(spec));
      if 0 <= spec.borough < 0x100 then !LosesRows(spec, found) && OriginHarmless(rows, spec)
      else found == [] || !QueryPlan.PassesBox(spec, found[0])
  }

  lemma PythonExactIff(chunkRows: int, linear: bool, rows: seq<Row>, spec: Spec, polls: nat -> bool)
    requires Uncanceled(polls)
    ensures Flat(PartitionScan.ScanChunks(rows, spec, chunkRows, linear, polls))
        == Capped(Reference(rows, spec, spec.borough), spec.maxRows)
      <==> Suits(Python(chunkRows, linear), rows, spec)
  {
    ScansAreReference(rows, spec, polls);
    ScanFrameCarries(PartitionScan.ScanRows(rows, spec, linear, polls), chunkRows, spec.maxRows);
    OffOriginCapped(Reference(rows, spec, spec.borough), spec.maxRows);
  }

  lemma CppExactIff(rows: seq<Row>, spec: Spec, polls: nat -> bool)
    requires Uncanceled(polls)
    ensures RunRows(rows, spec, polls) == Capped(Reference(rows, spec, spec.borough), spec.maxRows)
      <==> Suits(Cpp(0), rows, spec)
  {
    if 0 <= spec.borough < 0x100 {
      RunIsReferenceIff(rows, spec, polls);
    } else {
      NoneWanted(rows, spec, spec.borough);
      var found := QueryPlan.AllFound(rows, spec, BoroughByte(spec));
      QueryPlan.NeverStops(polls, 0, |found|);
      assert found[..|found|] == found;
    }
  }

  // A node's chunks carry the plain filter's answer, capped, exactly when the query suits
  // it; and they are always framed with one done chunk, the last.
  lemma NodeExactIff(e: Engine, rows: seq<Row>, spec: Spec, polls: nat -> bool)
    requires Uncanceled(polls)
    ensures var cs := NodeChunks(e, rows, spec, polls);
      && cs != [] && (forall k :: 0 <= k < |cs| ==> (cs[k].done <==> k == |cs| - 1))
      && (Flat(cs) == Capped(Reference(rows, spec, spec.borough), spec.maxRows) <==> Suits(e, rows, spec))
  {
    match e
    case Python(chunkRows, linear) =>
      PythonExactIff(chunkRows, linear, rows, spec, polls);
      ScanFrameCarries(PartitionScan.ScanRows(rows, spec, linear, polls), chunkRows, spec.maxRows);
    case Cpp(size) =>
      CppExactIff(rows, spec, polls);
      RunChunksCarry(rows, spec, size, polls);
  }

  // What a scan sends of an answer it may not see all of.
  lemma SentLength(sent: seq<Row>, seen: seq<Row>, all: seq<Row>, cap: nat)
    requires sent <= seen && (seen == all || seen == QueryPlan.OffOrigin(all)) && (cap == 0 || |sent| <= cap)
    ensures |sent| <= |all|
    ensures |sent| == |all| <==> sent == Capped(all, cap) && |Capped(all, cap)| == |all|
  {
    OffOriginDrops(all);
  }

  // With a borough in the byte range a node never sends more rows than its partition has
  // matches, and as many exactly when the query suits it and the cap lets all through.
  lemma NodeLengthIff(e: Engine, rows: seq<Row>, spec: Spec, polls: nat -> bool)
    requires Uncanceled(polls) && 0 <= spec.borough < 0x100
    ensures var sent, all := Flat(NodeChunks(e, rows, spec, polls)), Reference(rows, spec, spec.borough);
      && |sent| <= |all|
      && (|sent| == |all| <==> Suits(e, rows, spec) && (spec.maxRows == 0 || |all| <= spec.maxRows))
  {
    hide Reference, QueryPlan.OffOrigin, Suits, RunRows, PartitionScan.ScanRows;
    NodeExactIff(e, rows, spec, polls);
    var all, seen := Reference(rows, spec, spec.borough), QueryPlan.Answer(rows, spec, spec.borough);
    match e
    case Python(chunkRows, linear) =>
      ScansAreReference(rows, spec, polls);
      ScanFrameCarries(PartitionScan.ScanRows(rows, spec, linear, polls), chunkRows, spec.maxRows);
      SentLength(Flat(NodeChunks(e, rows, spec, polls)), if linear then all else seen, all, spec.maxRows);
    case Cpp(size) =>
      CppLength(rows, spec, polls);
      RunChunksCarry(rows, spec, size, polls);
      SentLength(RunRows(rows, spec, polls), seen, all, spec.maxRows);
  }

  lemma CppLength(rows: seq<Row>, spec: Spec, polls: nat -> bool)
    requires 0 <= spec.borough < 0x100
    ensures RunRows(rows, spec, polls) <= QueryPlan.Answer(rows, spec, spec.borough)
    ensures spec.maxRows == 0 || |RunRows(rows, spec, polls)| <= spec.maxRows
  {
    RunIsPrefix(rows, spec, polls);
  }
}
