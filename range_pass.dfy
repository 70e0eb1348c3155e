/** The second filtering pass (interactions/bars-full/chart.js, lines 23-27),
    which keeps the records whose difference metric lies in [-50, 50], and the
    two passes run one after the other to give the analysis set. */
module RangePass {
  import opened TaskRecords
  import FirstPass

  /** Bounds of the kept difference metric, both included. */
  const Lowest: real := -50.0
  const Highest: real := 50.0

  /** The range test of lines 25-26: estimate and actual hours at most 50
      apart, either way. */
  predicate WithinRange(d: TaskRecord)
    ensures WithinRange(d) <==> d.hoursActual - 50.0 <= d.hoursEstimate <= d.hoursActual + 50.0
  {
    Lowest <= Difference(d) && Difference(d) <= Highest
  }

  /** `dataset.filter(...)` with the range test: a record is kept if and only
      if its difference lies in the range, and the order is preserved. */
  function RangeFilter(records: seq<TaskRecord>): (kept: seq<TaskRecord>)
    ensures IsSubsequence(kept, records)
    ensures forall d :: d in kept <==> d in records && WithinRange(d)
    ensures forall d :: multiset(kept)[d] == if WithinRange(d) then multiset(records)[d] else 0
    decreases |records|
  {
    if records == [] then []
    else
      var init := records[..|records| - 1];
      var last := records[|records| - 1];
      assert records == init + [last];
      if WithinRange(last) then
        SubsequenceExtend(RangeFilter(init), init, last);
        RangeFilter(init) + [last]
      else
        SubsequenceOfLonger(RangeFilter(init), init, last);
        RangeFilter(init)
  }

  /** One step of the filter: the last record is appended exactly when it is
      in range. */
  lemma RangeFilterStep(records: seq<TaskRecord>)
    requires records != []
    ensures RangeFilter(records)
         == RangeFilter(records[..|records| - 1]) + (if WithinRange(records[|records| - 1]) then [records[|records| - 1]] else [])
  {
  }

  /** Filtering twice by the range is filtering once. */
  lemma {:induction false} RangeFilterIdempotent(records: seq<TaskRecord>)
    ensures RangeFilter(RangeFilter(records)) == RangeFilter(records)
    decreases |records|
  {
    if records != [] {
      var init := records[..|records| - 1];
      RangeFilterIdempotent(init);
      var once := RangeFilter(records);
      if WithinRange(records[|records| - 1]) {
        assert once[..|once| - 1] == RangeFilter(init);
      } else {
        assert once == RangeFilter(init);
      }
    }
  }

  /** A record is kept exactly when it already satisfied the range, so the
      filter drops nothing from input whose records all lie in the range. */
  lemma {:induction false} RangeFilterKeepsAllInRange(records: seq<TaskRecord>)
    requires forall k :: 0 <= k < |records| ==> WithinRange(records[k])
    ensures RangeFilter(records) == records
    decreases |records|
  {
    if records != [] {
      var init := records[..|records| - 1];
      var last := records[|records| - 1];
      RangeFilterKeepsAllInRange(init);
      RangeFilterStep(records);
      assert records == init + [last];
    }
  }

  /** Differences of exactly -50 and 50 are kept; anything beyond is dropped. */
  lemma RangeBoundaryExample()
    ensures var atLow := TaskRecord("A", 10.0, 60.0, 0.0);
            var atHigh := TaskRecord("B", 70.0, 20.0, 0.0);
            var beyond := TaskRecord("C", 70.0001, 20.0, 0.0);
            var below := TaskRecord("D", 10.0, 60.0001, 0.0);
            RangeFilter([atLow, atHigh, beyond, below]) == [atLow, atHigh]
  {
    var atLow := TaskRecord("A", 10.0, 60.0, 0.0);
    var atHigh := TaskRecord("B", 70.0, 20.0, 0.0);
    var beyond := TaskRecord("C", 70.0001, 20.0, 0.0);
    var below := TaskRecord("D", 10.0, 60.0001, 0.0);
    var two := [atLow, atHigh];
    var records := two + [beyond, below];
    assert [atLow][..0] == [];
    assert RangeFilter([atLow]) == [atLow];
    assert two[..1] == [atLow];
    assert RangeFilter(two) == two;
    assert records[..3][..2] == two;
    assert !WithinRange(beyond) && !WithinRange(below);
    assert RangeFilter(records[..3]) == two;
    assert records == [atLow, atHigh, beyond, below];
  }

  /** The analysis set: the first pass followed by the range pass. Every
      record in it clears the hours threshold and lies within the range. */
  function AnalysisSet(dataset: seq<TaskRecord>): (analysis: seq<TaskRecord>)
    ensures forall d :: d in analysis ==> d.hoursActual > FirstPass.Threshold && WithinRange(d)
  {
    FirstPass.SurvivorsAboveThreshold(dataset);
    RangeFilter(FirstPass.Survivors(dataset))
  }

  /** The data-access step of the chart: both passes over the loaded rows, the
      first one by its in-place scan. The analysis set is an order-preserving
      subsequence of the rows, and every record in it lies above the hours
      threshold and within the difference range. */
  method PrepareDataset(dataset: seq<TaskRecord>) returns (analysis: seq<TaskRecord>)
    ensures analysis == AnalysisSet(dataset)
    ensures IsSubsequence(analysis, dataset)
    ensures forall d :: d in analysis ==> d.hoursActual > FirstPass.Threshold && WithinRange(d)
    ensures |analysis| <= |dataset| && forall d :: d in analysis ==> d in dataset
  {
    var firstEstimates, _ := FirstPass.FilterFirstEstimates(dataset);
    analysis := RangeFilter(firstEstimates);
    SubsequenceTransitive(analysis, firstEstimates, dataset);
    SubsequenceElements(analysis, dataset);
  }
}
