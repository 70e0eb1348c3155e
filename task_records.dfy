/** Task records as the chart reads them from its data file, and the
    order-preserving subsequence relation that both filtering passes keep. */
module TaskRecords {

  /** One row of the data file. The three hour columns are parsed with
      unary `+`; they are modelled as well-formed (never NaN) real numbers. */
  datatype TaskRecord = TaskRecord(
    summary: string,
    hoursEstimate: real,
    hoursActual: real,
    developerHoursActual: real)

  /** The difference metric: positive when a task was over-estimated,
      negative when it was under-estimated. */
  function Difference(d: TaskRecord): (diff: real)
    ensures diff > 0.0 <==> d.hoursEstimate > d.hoursActual
    ensures diff < 0.0 <==> d.hoursEstimate < d.hoursActual
  {
    d.hoursEstimate - d.hoursActual
  }

  /** `a` can be obtained from `b` by deleting elements, without reordering. */
  ghost predicate IsSubsequence<T>(a: seq<T>, b: seq<T>)
    decreases |b|
  {
    if b == [] then a == []
    else
      || IsSubsequence(a, b[..|b| - 1])
      || (a != [] && a[|a| - 1] == b[|b| - 1] && IsSubsequence(a[..|a| - 1], b[..|b| - 1]))
  }

  /** A subsequence is no longer than the sequence and draws its elements from it. */
  lemma {:induction false} SubsequenceElements<T>(a: seq<T>, b: seq<T>)
    requires IsSubsequence(a, b)
    ensures |a| <= |b|
    ensures forall x :: x in a ==> x in b
    decreases |b|
  {
    if b != [] {
      if IsSubsequence(a, b[..|b| - 1]) {
        SubsequenceElements(a, b[..|b| - 1]);
      } else {
        SubsequenceElements(a[..|a| - 1], b[..|b| - 1]);
        assert a == a[..|a| - 1] + [a[|a| - 1]];
        assert b == b[..|b| - 1] + [b[|b| - 1]];
      }
    }
  }

  /** Keeping a subsequence of a subsequence is keeping a subsequence. */
  lemma {:induction false} SubsequenceTransitive<T>(a: seq<T>, b: seq<T>, c: seq<T>)
    requires IsSubsequence(a, b) && IsSubsequence(b, c)
    ensures IsSubsequence(a, c)
    decreases |c|
  {
    if c == [] {
    } else if IsSubsequence(b, c[..|c| - 1]) {
      SubsequenceTransitive(a, b, c[..|c| - 1]);
    } else if IsSubsequence(a, b[..|b| - 1]) {
      SubsequenceTransitive(a, b[..|b| - 1], c[..|c| - 1]);
    } else {
      SubsequenceTransitive(a[..|a| - 1], b[..|b| - 1], c[..|c| - 1]);
    }
  }

  /** Appending an element that is dropped keeps the relation. */
  lemma SubsequenceOfLonger<T>(a: seq<T>, b: seq<T>, x: T)
    requires IsSubsequence(a, b)
    ensures IsSubsequence(a, b + [x])
  {
    assert (b + [x])[..|b|] == b;
  }

  /** Appending the same element to both sides keeps the relation. */
  lemma SubsequenceExtend<T>(a: seq<T>, b: seq<T>, x: T)
    requires IsSubsequence(a, b)
    ensures IsSubsequence(a + [x], b + [x])
  {
    assert (b + [x])[..|b|] == b;
    assert (a + [x])[..|a|] == a;
  }
}
