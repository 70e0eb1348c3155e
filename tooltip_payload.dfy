/** What the tooltip shows for one histogram bin when the mouse enters it
    (interactions/bars-full/chart.js, lines 186-225): the range description,
    up to three example tasks, the displayed count and the anchor position. */
module TooltipPayload {
  import opened TaskRecords

  /** A histogram bin: the records whose difference falls in it, in bin
      order, with its lower and upper bounds. */
  datatype Bin = Bin(x0: real, x1: real, records: seq<TaskRecord>)

  /** One element of the array that is joined with spaces into the range
      text: a fixed phrase or a number. */
  datatype Word = Phrase(text: string) | Number(value: real)

  datatype Option<T> = None | Some(value: T)

  const UnderEstimated: string := "Under-estimated by"
  const OverEstimated: string := "Over-estimated by"

  function Abs(x: real): (r: real)
    ensures r >= 0.0 && (r == x || r == -x)
  {
    if x < 0.0 then -x else x
  }

  /** The words of the range text: the direction, |x0|, "to", |x1|, "hours". */
  function RangeLabel(b: Bin): (words: seq<Word>)
    ensures |words| == 5
    ensures words[0] == Phrase(UnderEstimated) <==> b.x0 < 0.0
    ensures words[0] == Phrase(OverEstimated) <==> b.x0 >= 0.0
    ensures words[1] == Number(Abs(b.x0)) && words[3] == Number(Abs(b.x1))
    ensures words[2] == Phrase("to") && words[4] == Phrase("hours")
  {
    [ Phrase(if b.x0 < 0.0 then UnderEstimated else OverEstimated),
      Number(Abs(b.x0)),
      Phrase("to"),
      Number(Abs(b.x1)),
      Phrase("hours") ]
  }

  /** Reads the lower bound back from a range text: the direction gives the
      sign that the absolute value dropped. */
  function LowerBoundOf(words: seq<Word>): Option<real> {
    if |words| != 5 || !words[1].Number? then None
    else if words[0] == Phrase(UnderEstimated) then Some(-words[1].value)
    else if words[0] == Phrase(OverEstimated) then Some(words[1].value)
    else None
  }

  /** The range text determines the bin's lower bound. */
  lemma RangeLabelRecoversLowerBound(b: Bin)
    ensures LowerBoundOf(RangeLabel(b)) == Some(b.x0)
  {
    assert UnderEstimated != OverEstimated by {
      assert UnderEstimated[0] != OverEstimated[0];
    }
  }

  /** It does not determine the upper bound: a bin that crosses zero reads the
      same as one that ends below zero at the mirrored value. */
  lemma RangeLabelLosesUpperBoundSign(rs: seq<TaskRecord>)
    ensures RangeLabel(Bin(-4.0, 2.0, rs)) == RangeLabel(Bin(-4.0, -2.0, rs))
    ensures Bin(-4.0, 2.0, rs) != Bin(-4.0, -2.0, rs)
  {
  }

  /** The summaries of the given records, in order. */
  function Summaries(records: seq<TaskRecord>): (names: seq<string>)
    ensures |names| == |records|
    ensures forall k :: 0 <= k < |records| ==> names[k] == records[k].summary
    decreases |records|
  {
    if records == [] then [] else [records[0].summary] + Summaries(records[1..])
  }

  function Min(a: int, b: int): int {
    if a <= b then a else b
  }

  /** The number of example tasks the tooltip lists at most. */
  const ExampleLimit: nat := 3

  /** `datum.slice(0, 3).map(summaryAccessor)`: the summaries of the first
      records of the bin, in bin order. */
  function Examples(b: Bin): (names: seq<string>)
    ensures |names| == Min(ExampleLimit, |b.records|)
    ensures forall k :: 0 <= k < |names| ==> names[k] == b.records[k].summary
  {
    Summaries(b.records[..Min(ExampleLimit, |b.records|)])
  }

  /** The examples are the head of the bin's summaries, and records after the
      third never change them. */
  lemma ExamplesArePrefix(b: Bin, more: seq<TaskRecord>)
    ensures Examples(b) == Summaries(b.records)[..|Examples(b)|]
    ensures |b.records| >= ExampleLimit ==> Examples(Bin(b.x0, b.x1, b.records + more)) == Examples(b)
  {
  }

  /** The displayed count: the bin's size less two, never below zero. */
  function DisplayedCount(b: Bin): (count: int)
    ensures count >= 0
    ensures count == 0 <==> |b.records| <= 2
    ensures count < |b.records| || |b.records| == 0
  {
    if |b.records| - 2 > 0 then |b.records| - 2 else 0
  }

  /** The count is two less than the size, not three: once a bin has three
      or more records, the listed examples and the count add up to one more
      than the bin holds; for smaller bins they add up to its size. */
  lemma CountOvershootsOmitted(b: Bin)
    ensures |b.records| >= 3 ==> |Examples(b)| + DisplayedCount(b) == |b.records| + 1
    ensures |b.records| <= 2 ==> |Examples(b)| + DisplayedCount(b) == |b.records|
  {
  }

  /** The payload written into the tooltip's text elements. */
  datatype Content = Content(range: seq<Word>, examples: seq<string>, count: int)

  /** Margins of the chart's bounds inside the drawing. */
  const MarginLeft: real := 50.0
  const MarginTop: real := 35.0

  datatype Point = Point(x: real, y: real)

  /** The tooltip's anchor: horizontally the middle of the bar between the
      scaled bounds, vertically the top of the bar, both shifted by the margins.
      The scales are those the chart built with its plotting library. */
  function Anchor(xScale: real -> real, yScale: real -> real, b: Bin): (p: Point)
    ensures p.x - MarginLeft == (xScale(b.x0) + xScale(b.x1)) / 2.0
    ensures p.y - MarginTop == yScale(|b.records| as real)
  {
    Point(xScale(b.x0) + (xScale(b.x1) - xScale(b.x0)) / 2.0 + MarginLeft,
          yScale(|b.records| as real) + MarginTop)
  }

  /** When the x scale keeps the bin's bounds in order, the anchor lies
      between the bar's two edges, at the same distance from each. */
  lemma AnchorCentredOverBar(xScale: real -> real, yScale: real -> real, b: Bin)
    requires xScale(b.x0) <= xScale(b.x1)
    ensures var p := Anchor(xScale, yScale, b);
            var left := xScale(b.x0) + MarginLeft;
            var right := xScale(b.x1) + MarginLeft;
            left <= p.x <= right && p.x - left == right - p.x
  {
  }
}
