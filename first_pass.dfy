/** The first filtering pass over the data set (interactions/bars-full/chart.js,
    lines 11-21): a left-to-right scan that keeps a dictionary `usedTasks` from
    each task summary to the last hours value that passed the duplicate check,
    drops a record whose summary already holds a truthy value that its hours do
    not exceed, and otherwise records its hours and keeps it only above the
    10-hour threshold.

    The specification functions fold over the records from the left, so that
    the state after a prefix of the data set is a function of that prefix. */
module FirstPass {
  import opened TaskRecords

  /** Records with at most this many actual hours are dropped. */
  const Threshold: real := 10.0

  /** `usedTasks` is a plain object literal, so it inherits the members of
      `Object.prototype`: reading one of these names finds a function or, for
      `__proto__`, the prototype object, even when nothing was stored. */
  const InheritedNames: set<string> := {
    "constructor", "hasOwnProperty", "isPrototypeOf", "propertyIsEnumerable",
    "toLocaleString", "toString", "valueOf", "__proto__",
    "__defineGetter__", "__defineSetter__", "__lookupGetter__", "__lookupSetter__" }

  /** What `usedTasks[summary]` reads: `undefined`, a stored number, or an
      inherited function or object. */
  datatype Lookup = Undefined | Stored(hours: real) | Inherited

  function Read(usedTasks: map<string, real>, summary: string): (v: Lookup)
    ensures v.Stored? <==> summary in usedTasks
    ensures v.Stored? ==> v.hours == usedTasks[summary]
    ensures v == Inherited <==> summary !in usedTasks && summary in InheritedNames
  {
    if summary in usedTasks then Stored(usedTasks[summary])
    else if summary in InheritedNames then Inherited
    else Undefined
  }

  /** JavaScript truthiness: `undefined` and 0 are falsy, every other number
      and every function or object is truthy. */
  predicate Truthy(v: Lookup)
    ensures Truthy(v) <==> v != Undefined && v != Stored(0.0)
  {
    match v
    case Undefined => false
    case Stored(h) => h != 0.0
    case Inherited => true
  }

  /** `hours > usedTasks[summary]`: a function or object converts to NaN, and
      every comparison with NaN is false. */
  predicate Exceeds(hours: real, v: Lookup)
    ensures Exceeds(hours, v) ==> v.Stored?
  {
    v.Stored? && hours > v.hours
  }

  /** The duplicate check: a record passes unless its summary reads as a truthy
      value that its hours do not exceed. A summary never seen passes, a stored 0
      counts as never seen, and an inherited name always fails. */
  predicate PassesDuplicateCheck(usedTasks: map<string, real>, d: TaskRecord)
    ensures d.summary !in usedTasks && d.summary !in InheritedNames ==> PassesDuplicateCheck(usedTasks, d)
    ensures d.summary !in usedTasks && d.summary in InheritedNames ==> !PassesDuplicateCheck(usedTasks, d)
    ensures d.summary in usedTasks && usedTasks[d.summary] != 0.0 ==>
              (PassesDuplicateCheck(usedTasks, d) <==> d.hoursActual > usedTasks[d.summary])
    ensures d.summary in usedTasks && usedTasks[d.summary] == 0.0 ==> PassesDuplicateCheck(usedTasks, d)
  {
    var stored := Read(usedTasks, d.summary);
    !Truthy(stored) || Exceeds(d.hoursActual, stored)
  }

  /** The dictionary after scanning `records` from an empty one. An inherited
      name never becomes a key: a record carrying one fails the check before
      anything is stored. */
  function UsedAfter(records: seq<TaskRecord>): (usedTasks: map<string, real>)
    ensures forall s :: s in usedTasks ==> s !in InheritedNames
    decreases |records|
  {
    if records == [] then map[]
    else
      var prior := UsedAfter(records[..|records| - 1]);
      var d := records[|records| - 1];
      if PassesDuplicateCheck(prior, d) then prior[d.summary := d.hoursActual] else prior
  }

  /** Every key of the dictionary is the summary of a scanned record, and its
      value is that record's actual hours. */
  lemma {:induction false} UsedAfterKeysFromRecords(records: seq<TaskRecord>, s: string)
    requires s in UsedAfter(records)
    ensures exists k :: 0 <= k < |records| && records[k].summary == s && records[k].hoursActual == UsedAfter(records)[s]
    decreases |records|
  {
    var n := |records| - 1;
    var prior := UsedAfter(records[..n]);
    var d := records[n];
    if PassesDuplicateCheck(prior, d) && d.summary == s {
      assert records[n].summary == s && records[n].hoursActual == UsedAfter(records)[s];
    } else {
      assert UsedAfter(records)[s] == prior[s];
      UsedAfterKeysFromRecords(records[..n], s);
      var k :| 0 <= k < n && records[..n][k].summary == s && records[..n][k].hoursActual == prior[s];
      assert records[k] == records[..n][k];
    }
  }

  /** Whether the record at position `i` survives the pass: it must pass the
      duplicate check against the dictionary built from the records before it,
      and then exceed the threshold. A record whose summary is an inherited
      name never survives. */
  predicate KeptAt(records: seq<TaskRecord>, i: nat)
    requires i < |records|
    ensures KeptAt(records, i) ==> records[i].hoursActual > Threshold
    ensures KeptAt(records, i) ==> records[i].summary !in InheritedNames
  {
    PassesDuplicateCheck(UsedAfter(records[..i]), records[i]) && records[i].hoursActual > Threshold
  }

  /** The records that survive the pass, in input order. */
  function Survivors(records: seq<TaskRecord>): (kept: seq<TaskRecord>)
    ensures |kept| <= |records|
    decreases |records|
  {
    if records == [] then []
    else
      Survivors(records[..|records| - 1])
      + (if KeptAt(records, |records| - 1) then [records[|records| - 1]] else [])
  }

  /** The scan itself: one pass over the data set that updates `usedTasks` in
      place, as the filter callback does. Both results are those of the
      specification functions; the survivors are an order-preserving
      subsequence of the input and all lie above the threshold. */
  method FilterFirstEstimates(dataset: seq<TaskRecord>)
    returns (kept: seq<TaskRecord>, usedTasks: map<string, real>)
    ensures kept == Survivors(dataset)
    ensures usedTasks == UsedAfter(dataset)
    ensures IsSubsequence(kept, dataset)
    ensures forall k :: 0 <= k < |kept| ==> kept[k].hoursActual > Threshold
  {
    kept, usedTasks := [], map[];
    for i := 0 to |dataset|
      invariant kept == Survivors(dataset[..i])
      invariant usedTasks == UsedAfter(dataset[..i])
    {
      var d := dataset[i];
      assert dataset[..i + 1][..i] == dataset[..i];
      var hours := d.hoursActual;
      var stored := Read(usedTasks, d.summary);
      if Truthy(stored) {
        var hasHigherValue := Exceeds(hours, stored);
        if !hasHigherValue {
          continue;
        }
      }
      usedTasks := usedTasks[d.summary := hours];
      if hours > Threshold {
        kept := kept + [d];
      }
    }
    assert dataset[..|dataset|] == dataset;
    SurvivorsIsSubsequence(dataset);
    SurvivorsAboveThreshold(dataset);
  }

  /** The pass only drops records; it never reorders or invents them. */
  lemma {:induction false} SurvivorsIsSubsequence(records: seq<TaskRecord>)
    ensures IsSubsequence(Survivors(records), records)
    decreases |records|
  {
    if records != [] {
      var init := records[..|records| - 1];
      var last := records[|records| - 1];
      SurvivorsIsSubsequence(init);
      assert records == init + [last];
      if KeptAt(records, |records| - 1) {
        SubsequenceExtend(Survivors(init), init, last);
      } else {
        assert Survivors(records) == Survivors(init);
        SubsequenceOfLonger(Survivors(init), init, last);
      }
    }
  }

  /** Every survivor has more actual hours than the threshold. */
  lemma {:induction false} SurvivorsAboveThreshold(records: seq<TaskRecord>)
    ensures forall k :: 0 <= k < |Survivors(records)| ==> Survivors(records)[k].hoursActual > Threshold
    decreases |records|
  {
    if records != [] {
      SurvivorsAboveThreshold(records[..|records| - 1]);
    }
  }

  /** The dictionary after a prefix that ends in a record which passed the
      duplicate check maps that record's summary to its hours, whether or not
      the record then cleared the threshold. */
  lemma StoredAfterPassing(records: seq<TaskRecord>, i: nat)
    requires i < |records|
    requires PassesDuplicateCheck(UsedAfter(records[..i]), records[i])
    ensures records[i].summary in UsedAfter(records[..i + 1])
    ensures UsedAfter(records[..i + 1]) == UsedAfter(records[..i])[records[i].summary := records[i].hoursActual]
  {
    assert records[..i + 1][..i] == records[..i];
  }

  /** A record that fails the duplicate check leaves the dictionary unchanged. */
  lemma UnchangedAfterFailing(records: seq<TaskRecord>, i: nat)
    requires i < |records|
    requires !PassesDuplicateCheck(UsedAfter(records[..i]), records[i])
    ensures !KeptAt(records, i)
    ensures UsedAfter(records[..i + 1]) == UsedAfter(records[..i])
  {
    assert records[..i + 1][..i] == records[..i];
  }

  /** One record never lowers a positive stored value: replacing it needs
      strictly more hours than the stored truthy value. */
  lemma StoredValueStep(records: seq<TaskRecord>, s: string, v: real, m: nat)
    requires 0 < m <= |records|
    requires v > 0.0
    requires s in UsedAfter(records[..m - 1]) && UsedAfter(records[..m - 1])[s] >= v
    ensures s in UsedAfter(records[..m]) && UsedAfter(records[..m])[s] >= v
  {
    var prior := UsedAfter(records[..m - 1]);
    var d := records[m - 1];
    assert records[..m][..m - 1] == records[..m - 1];
    assert records[..m][m - 1] == d;
    if PassesDuplicateCheck(prior, d) {
      assert UsedAfter(records[..m]) == prior[d.summary := d.hoursActual];
      if d.summary == s {
        assert Read(prior, s) == Stored(prior[s]);
        assert Truthy(Read(prior, s));
        assert d.hoursActual > prior[s];
      }
    } else {
      assert UsedAfter(records[..m]) == prior;
    }
  }

  /** Once a summary holds a positive value, later scanning never lowers it. */
  lemma {:induction false} StoredValueNeverDrops(records: seq<TaskRecord>, s: string, v: real, k: nat, m: nat)
    requires k <= m <= |records|
    requires v > 0.0
    requires s in UsedAfter(records[..k]) && UsedAfter(records[..k])[s] >= v
    ensures s in UsedAfter(records[..m]) && UsedAfter(records[..m])[s] >= v
    decreases m
  {
    if m > k {
      StoredValueNeverDrops(records, s, v, k, m - 1);
      StoredValueStep(records, s, v, m);
    }
  }

  /** A record with positive hours that passes the duplicate check blocks
      every later record with the same summary and no more hours, even one
      above the threshold, and even when it itself fell below the threshold. */
  lemma BlocksLaterLowerDuplicates(records: seq<TaskRecord>, i: nat, j: nat)
    requires i < j < |records|
    requires records[i].summary == records[j].summary
    requires PassesDuplicateCheck(UsedAfter(records[..i]), records[i])
    requires records[i].hoursActual > 0.0
    requires records[j].hoursActual <= records[i].hoursActual
    ensures !PassesDuplicateCheck(UsedAfter(records[..j]), records[j])
    ensures !KeptAt(records, j)
  {
    var s := records[i].summary;
    StoredAfterPassing(records, i);
    StoredValueNeverDrops(records, s, records[i].hoursActual, i + 1, j);
  }

  /** Survivors that share a summary have strictly increasing actual hours in
      input order. More than one survivor per summary is possible. */
  lemma KeptDuplicatesIncrease(records: seq<TaskRecord>, i: nat, j: nat)
    requires i < j < |records|
    requires KeptAt(records, i) && KeptAt(records, j)
    requires records[i].summary == records[j].summary
    ensures records[i].hoursActual < records[j].hoursActual
  {
    if records[j].hoursActual <= records[i].hoursActual {
      BlocksLaterLowerDuplicates(records, i, j);
    }
  }

  /** Whether a position is kept depends only on the records up to it. */
  lemma KeptAtPrefix(records: seq<TaskRecord>, n: nat, i: nat)
    requires i < n <= |records|
    ensures KeptAt(records[..n], i) == KeptAt(records, i)
  {
    assert records[..n][..i] == records[..i];
  }

  /** Every survivor stands at a position that `KeptAt` selects. */
  lemma {:induction false} SurvivorKeptSomewhere(records: seq<TaskRecord>, x: TaskRecord)
    requires x in Survivors(records)
    ensures exists i :: 0 <= i < |records| && records[i] == x && KeptAt(records, i)
    decreases |records|
  {
    var n := |records| - 1;
    var init := records[..n];
    var tail := if KeptAt(records, n) then [records[n]] else [];
    assert Survivors(records) == Survivors(init) + tail;
    if x in Survivors(init) {
      SurvivorKeptSomewhere(init, x);
      var i :| 0 <= i < n && init[i] == x && KeptAt(init, i);
      KeptAtPrefix(records, n, i);
      assert records[i] == x && KeptAt(records, i);
    } else {
      assert x in tail;
      assert records[n] == x && KeptAt(records, n);
    }
  }

  /** Every record at a position that `KeptAt` selects is a survivor. */
  lemma {:induction false} KeptIsSurvivor(records: seq<TaskRecord>, i: nat)
    requires i < |records| && KeptAt(records, i)
    ensures records[i] in Survivors(records)
    decreases |records|
  {
    var n := |records| - 1;
    var init := records[..n];
    var tail := if KeptAt(records, n) then [records[n]] else [];
    assert Survivors(records) == Survivors(init) + tail;
    if i < n {
      KeptAtPrefix(records, n, i);
      KeptIsSurvivor(init, i);
      assert init[i] == records[i];
    }
  }

  /** The position view and the sequence view agree: the survivors are exactly
      the records at the positions `KeptAt` selects. */
  lemma SurvivorsAreKeptPositions(records: seq<TaskRecord>, x: TaskRecord)
    ensures x in Survivors(records) <==> exists i :: 0 <= i < |records| && records[i] == x && KeptAt(records, i)
  {
    if x in Survivors(records) {
      SurvivorKeptSomewhere(records, x);
    }
    if exists i :: 0 <= i < |records| && records[i] == x && KeptAt(records, i) {
      var i :| 0 <= i < |records| && records[i] == x && KeptAt(records, i);
      KeptIsSurvivor(records, i);
    }
  }

  /** A record with the given summary and actual hours (estimate and
      developer hours play no part in this pass). */
  function Task(summary: string, hours: real): TaskRecord {
    TaskRecord(summary, hours, hours, 0.0)
  }

  /** Records S/5, S/3, S/8: S/3 is dropped by the duplicate check against 5,
      not by the threshold; S/8 passes it and is stored; none clears 10 hours. */
  lemma DuplicatePrecedenceExample()
    ensures var records := [Task("S", 5.0), Task("S", 3.0), Task("S", 8.0)];
      && !PassesDuplicateCheck(UsedAfter(records[..1]), records[1])
      && PassesDuplicateCheck(UsedAfter(records[..2]), records[2])
      && UsedAfter(records) == map["S" := 8.0]
      && Survivors(records) == []
  {
    var records := [Task("S", 5.0), Task("S", 3.0), Task("S", 8.0)];
    assert records[..1] == [Task("S", 5.0)];
    assert records[..2][..1] == records[..1];
    assert records[..3][..2] == records[..2];
    assert records[..3] == records;
    assert UsedAfter(records[..1]) == map["S" := 5.0] by {
      assert records[..1][..0] == [];
    }
  }

  /** Two increasing estimates of one task above the threshold both survive:
      the pass does not leave one record per task. */
  lemma TwoSurvivorsPerTaskExample()
    ensures Survivors([Task("S", 15.0), Task("S", 12.0), Task("S", 18.0)])
         == [Task("S", 15.0), Task("S", 18.0)]
  {
    var records := [Task("S", 15.0), Task("S", 12.0), Task("S", 18.0)];
    assert records[..1] == [Task("S", 15.0)];
    assert records[..1][..0] == [];
    assert records[..2][..1] == records[..1];
    assert records[..3][..2] == records[..2];
    assert records[..3] == records;
    assert UsedAfter(records[..1]) == map["S" := 15.0];
    assert UsedAfter(records[..2]) == map["S" := 15.0];
  }

  /** A task named after an inherited member of the dictionary object is
      dropped even above the threshold, and nothing is stored for it. */
  lemma InheritedNameDroppedExample()
    ensures var records := [Task("constructor", 20.0)];
      && Survivors(records) == []
      && UsedAfter(records) == map[]
  {
    var records := [Task("constructor", 20.0)];
    assert records[..0] == [];
  }

  /** A stored 0 is falsy, so it reads as "no prior entry": after S/0, a record
      S/-8 with fewer hours still passes the check and overwrites the entry. */
  lemma ZeroStoredIsNoPriorEntryExample()
    ensures UsedAfter([Task("S", 0.0), Task("S", -8.0)]) == map["S" := -8.0]
  {
    var records := [Task("S", 0.0), Task("S", -8.0)];
    assert records[..1] == [Task("S", 0.0)];
    assert records[..1][..0] == [];
    assert UsedAfter(records[..1]) == map["S" := 0.0];
  }
}
