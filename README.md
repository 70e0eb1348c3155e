# Estimated vs. actual hours histogram: filtering and hover logic

This project models the logic inside the bar-chart script
`interactions/bars-full/chart.js`, which draws a histogram of how far task
hours were over- or under-estimated and shows a tooltip when the mouse is over
a bar. Three pieces are modelled:

- **The first filtering pass** (lines 11-21). It scans the loaded rows left to
  right with a dictionary `usedTasks` from task summary to hours. A row is
  dropped when its summary already holds a truthy value and its actual hours are
  not strictly greater. Otherwise its hours overwrite the entry, and it is kept
  only when it has more than 10 actual hours. The scan is the method
  `FirstPass.FilterFirstEstimates`, a loop that updates a `map<string, real>`.
  It is proved equal to a left fold (`UsedAfter`, `KeptAt`, `Survivors`), and
  the properties are proved about that fold. `usedTasks[summary]` reads as
  `undefined`, a stored number, or, for a name that a plain object inherits from
  `Object.prototype` (`constructor`, `toString`, `__proto__`, ...), an inherited
  function or object. JavaScript truthiness makes `undefined` and 0 falsy and
  the rest truthy. `hours > usedTasks[summary]` is false against an inherited
  value, because that compares with NaN. So a record whose summary is an
  inherited name is always dropped, and nothing is ever stored for it.
- **The second filtering pass** (lines 23-27). It keeps the rows whose difference
  `HoursEstimate - HoursActual` lies in [-50, 50], both ends included
  (`RangePass.RangeFilter`). `RangePass.PrepareDataset` runs both passes.
- **The tooltip** (lines 185-236). The range words, the first three example
  summaries, the displayed count and the anchor position are pure functions of a
  bin (`TooltipPayload`). The hover state is the class `Hover.HoverState`: the
  tooltip text, its position, its opacity and the set of bar keys that carry the
  `hovered` class. `MouseEnter` and `MouseLeave` update it.

Three consequences of the code are worth stating:

- The pass does not keep one record per task, although the comment at line 11
  says "Only use the first estimate per task (with highest actual hours)". It keeps every record whose
  hours beat the stored value, so two increasing estimates of one task above
  10 hours both survive (`FirstPass.TwoSurvivorsPerTaskExample`). What the code
  does guarantee is that survivors sharing a summary have strictly increasing
  hours in input order (`FirstPass.KeptDuplicatesIncrease`). This holds for all
  inputs, with no premise that hours are positive, because a kept record stores
  more than 10.
- The duplicate check comes before the threshold. For S/5, S/3, S/8, the record
  S/3 is dropped by the check against 5, and S/8 passes it and is stored, yet
  nothing survives, because no record exceeds 10 hours
  (`FirstPass.DuplicatePrecedenceExample`).
- The tooltip's count is `Math.max(0, length - 2)` (line 204), while the examples
  list up to 3 records. So a bin of 3 records shows a count of 1 and a bin of 7
  shows 5: from 3 records on, the listed examples plus the count come to one
  more than the bin's size (`TooltipPayload.CountOvershootsOmitted`).

Hours are `real` numbers. The plotting library's scales are passed as function
parameters `xScale` and `yScale`. Histogram bins are values `Bin(x0, x1,
records)`.

## Model

| member | source | states |
|---|---|---|
| `FirstPass.Read` | interactions/bars-full/chart.js:15-16 | `usedTasks[summary]` yields the stored number when the summary is an own key, an inherited value exactly when it is not a key but names an `Object.prototype` member, and `undefined` otherwise |
| `FirstPass.Truthy` | interactions/bars-full/chart.js:15 | a value read from `usedTasks` is truthy exactly when it is neither `undefined` nor 0 |
| `FirstPass.Exceeds` | interactions/bars-full/chart.js:16 | `hours > usedTasks[summary]` can hold only against a stored number: against an inherited value it compares with NaN and is false |
| `FirstPass.PassesDuplicateCheck` | interactions/bars-full/chart.js:15-17 | a summary never seen passes; a stored 0 counts as never seen; against a stored non-zero value the record passes exactly when its hours are strictly greater; an inherited name that was never stored always fails |
| `FirstPass.UsedAfter` | interactions/bars-full/chart.js:12-19 | the dictionary after scanning a prefix of the rows never holds an inherited name as a key |
| `FirstPass.UsedAfterKeysFromRecords` | interactions/bars-full/chart.js:19 | every key of the dictionary is the summary of a scanned record, and its value is that record's actual hours |
| `FirstPass.KeptAt` | interactions/bars-full/chart.js:13-20 | a record kept at its position has more than 10 actual hours and a summary that is not an inherited name |
| `FirstPass.FilterFirstEstimates` | interactions/bars-full/chart.js:11-21 | the in-place scan returns exactly the fold's survivors and final dictionary; the survivors are an order-preserving subsequence of the input, and each has more than 10 actual hours |
| `FirstPass.Survivors` | interactions/bars-full/chart.js:13-21 | the survivors of the pass, in input order, are never more than the input |
| `FirstPass.SurvivorsIsSubsequence` | interactions/bars-full/chart.js:13-21 | the pass only drops records: its output is an order-preserving subsequence of its input |
| `FirstPass.SurvivorsAboveThreshold` | interactions/bars-full/chart.js:20 | every survivor has strictly more than 10 actual hours |
| `FirstPass.SurvivorsAreKeptPositions` | interactions/bars-full/chart.js:13-21 | a record is among the survivors if and only if it sits at a position that passes the duplicate check against the dictionary of the records before it and then the threshold |
| `FirstPass.StoredAfterPassing` | interactions/bars-full/chart.js:19 | a record that passes the duplicate check overwrites its summary's entry with its hours, whether or not it then clears the threshold |
| `FirstPass.UnchangedAfterFailing` | interactions/bars-full/chart.js:15-17 | a record that fails the duplicate check is dropped and leaves the dictionary unchanged |
| `FirstPass.StoredValueNeverDrops` | interactions/bars-full/chart.js:15-19 | once a summary holds a positive value, no later record lowers it |
| `FirstPass.BlocksLaterLowerDuplicates` | interactions/bars-full/chart.js:15-20 | a record with positive hours that passed the duplicate check, even one below the threshold, makes every later record with the same summary and no more hours fail the check and be dropped, even above 10 hours |
| `FirstPass.KeptDuplicatesIncrease` | interactions/bars-full/chart.js:11-21 | two survivors with the same summary have strictly increasing actual hours in input order |
| `FirstPass.DuplicatePrecedenceExample` | interactions/bars-full/chart.js:14-20 | for S/5, S/3, S/8 the duplicate check drops S/3 against 5, S/8 passes it and is stored, and the threshold leaves no survivor |
| `FirstPass.TwoSurvivorsPerTaskExample` | interactions/bars-full/chart.js:11-21 | for S/15, S/12, S/18 both S/15 and S/18 survive: the pass does not keep one record per task |
| `FirstPass.ZeroStoredIsNoPriorEntryExample` | interactions/bars-full/chart.js:15 | a stored 0 is falsy, so a following record of the same task with fewer hours still passes the check and overwrites the entry |
| `FirstPass.InheritedNameDroppedExample` | interactions/bars-full/chart.js:12-17 | a single record with summary "constructor" and 20 hours is dropped, and the dictionary stays empty |
| `TaskRecords.Difference` | interactions/bars-full/chart.js:23 | the difference is positive exactly when the estimate exceeds the actual hours, and negative exactly when it falls short |
| `RangePass.WithinRange` | interactions/bars-full/chart.js:25-26 | a record is in range exactly when its estimate lies within 50 hours of its actual hours on either side, both ends included |
| `RangePass.RangeFilter` | interactions/bars-full/chart.js:23-27 | a record is kept if and only if its estimate minus its actual hours lies in [-50, 50], every occurrence of an in-range record is kept (its count in the output equals its count in the input, and an out-of-range record's count is 0), and the kept records are an order-preserving subsequence of the input |
| `RangePass.RangeFilterIdempotent` | interactions/bars-full/chart.js:24-27 | filtering the range filter's output again changes nothing |
| `RangePass.RangeFilterKeepsAllInRange` | interactions/bars-full/chart.js:24-27 | when every record lies in the range, the filter returns its input unchanged |
| `RangePass.RangeBoundaryExample` | interactions/bars-full/chart.js:25-26 | differences of exactly -50 and 50 are kept; 50.0001 and -50.0001 are dropped |
| `RangePass.PrepareDataset` | interactions/bars-full/chart.js:11-27 | the analysis set after both passes is an order-preserving subsequence of the loaded rows, and each of its records has more than 10 actual hours and a difference in [-50, 50]; it is no longer than the rows and draws only from them |
| `RangePass.AnalysisSet` | interactions/bars-full/chart.js:11-27 | every record of the analysis set has more than 10 actual hours and a difference in [-50, 50] |
| `TooltipPayload.Abs` | interactions/bars-full/chart.js:190 | `Math.abs` is non-negative and equals its argument or its negation |
| `TooltipPayload.RangeLabel` | interactions/bars-full/chart.js:188-194 | the range words are the direction, \|x0\|, "to", \|x1\|, "hours"; the direction is "Under-estimated by" exactly when x0 < 0 and "Over-estimated by" otherwise |
| `TooltipPayload.RangeLabelRecoversLowerBound` | interactions/bars-full/chart.js:189-190 | the direction and \|x0\| together give back x0 |
| `TooltipPayload.RangeLabelLosesUpperBoundSign` | interactions/bars-full/chart.js:190-192 | a bin from -4 to 2 and a bin from -4 to -2 get the same range words |
| `TooltipPayload.Summaries` | interactions/bars-full/chart.js:199 | mapping the summary accessor gives one summary per record, in order |
| `TooltipPayload.Examples` | interactions/bars-full/chart.js:197-199 | the examples are the summaries of the first min(3, n) records of the bin, in bin order |
| `TooltipPayload.ExamplesArePrefix` | interactions/bars-full/chart.js:198 | the examples are a prefix of the bin's summaries, and records after the third never change them |
| `TooltipPayload.DisplayedCount` | interactions/bars-full/chart.js:204 | the displayed count is never negative, is 0 exactly when the bin has at most 2 records, and is below the bin's size whenever the bin is not empty (an empty bin shows 0) |
| `TooltipPayload.CountOvershootsOmitted` | interactions/bars-full/chart.js:197-204 | from 3 records on, the examples plus the count are one more than the bin's size; below that they equal it |
| `TooltipPayload.Anchor` | interactions/bars-full/chart.js:216-220 | the anchor's x, less the left margin of 50, is the mean of the scaled bin bounds; its y, less the top margin of 35, is the scaled bin size |
| `TooltipPayload.AnchorCentredOverBar` | interactions/bars-full/chart.js:216-220 | when the x scale keeps the bin's bounds in order, the anchor's x lies between the scaled bar edges shifted by the left margin, at equal distance from both |
| `Hover.HoverState.constructor` | interactions/bars-full/chart.js:185 | before any mouse event the tooltip is hidden and no bar is marked |
| `Hover.HoverState.MouseEnter` | interactions/bars-full/chart.js:186-231 | after entering, the tooltip shows the entered bin's payload and anchor only, has opacity 1, and bar `index` is marked hovered while other marks are kept; no bar is marked while the tooltip is hidden |
| `Hover.HoverState.MouseLeave` | interactions/bars-full/chart.js:233-236 | after leaving, the tooltip has opacity 0 and no bar is marked, whatever was marked before; its text and position stay |
| `Hover.EnterLeaveEnter` | interactions/bars-full/chart.js:182-236 | entering bin i, leaving and entering bin j leaves the tooltip showing j's payload with only bar j marked: nothing of i remains |

## Left out

- Loading the data file with `d3.csv` and parsing its columns (lines 5-9) are I/O. Hours are assumed to be well-formed numbers, so `NaN` rows are not modelled.
- Hours are unbounded reals, so double-precision rounding is not modelled.
- The chart dimensions and all SVG and DOM construction are rendering: the canvas, bars, mean line, axes, background rectangles and labels, and the listener rectangles' geometry (lines 30-183). Only the left and top margins (lines 37 and 40) are kept, as `TooltipPayload.MarginLeft` and `MarginTop`, because the tooltip's anchor uses them.
- The scales and the histogram are left out because their code is in the d3 library: `d3.scaleLinear().nice()`, `d3.extent`, `d3.histogram().thresholds(30)` and `d3.max` (lines 71-86). Bins are inputs. `xScale` and `yScale` are function parameters of `TooltipPayload.Anchor`.
- The developer-hours ratio and its mean are left out (lines 206-214). They depend on floating-point `NaN` and `Infinity` truthiness, on `d3.mean` of an empty array and on `d3.format`.
- Joining the range words with spaces, number-to-text conversion, the HTML join of the examples and the CSS transform string are presentation (lines 188-201, 222-225). The range text is modelled as the word array before the join.
- Hover.HoverState.constructor: the tooltip's opacity before the first event comes from the page's stylesheet, which is not part of this model; the constructor assumes it hidden, with no bar marked.
- Hover.HoverState.MouseEnter does not order events: like the code, it adds its bar to the marked set without clearing others. The "at most one marked bar" state holds only when every enter is preceded by a leave (`Hover.EnterLeaveEnter`).

