/** The hover interaction (interactions/bars-full/chart.js, lines 185-236):
    entering a bin's listener region fills the tooltip, shows it and marks the
    bin's bar as hovered; leaving hides the tooltip and clears the mark from
    every bar. */
module Hover {
  import opened TooltipPayload

  /** The tooltip element and the `hovered` class of the bar rectangles. */
  class HoverState {
    /** The text of the tooltip's range, examples and count elements. */
    var content: Content
    /** Where the tooltip is translated to. */
    var anchor: Point
    /** The tooltip's opacity style: 1 shown, 0 hidden. */
    var opacity: int
    /** The keys of the bar rectangles that carry the `hovered` class. */
    var hovered: set<int>
    /** The bars carry the keys 0 .. barCount - 1, one per bin. */
    const barCount: nat

    /** Opacity is 0 or 1, only existing bars are marked, and no bar is marked
        while the tooltip is hidden. */
    ghost predicate Valid()
      reads this
    {
      && (opacity == 0 || opacity == 1)
      && (forall key :: key in hovered ==> 0 <= key < barCount)
      && (opacity == 0 ==> hovered == {})
    }

    /** The chart before any mouse event: tooltip hidden, no bar marked. */
    constructor (barCount: nat)
      ensures Valid()
      ensures this.barCount == barCount
      ensures opacity == 0 && hovered == {}
      ensures content == Content([], [], 0) && anchor == Point(0.0, 0.0)
    {
      this.barCount := barCount;
      content := Content([], [], 0);
      anchor := Point(0.0, 0.0);
      opacity := 0;
      hovered := {};
    }

    /** `onMouseEnter(datum, index)`: the tooltip shows the payload of `datum`
        alone, whatever it showed before, becomes visible, and the bar whose key
        is `index` gains the mark; a key that no bar carries selects nothing. */
    method MouseEnter(datum: Bin, index: int, xScale: real -> real, yScale: real -> real)
      requires Valid()
      modifies this
      ensures Valid()
      ensures content == Content(RangeLabel(datum), Examples(datum), DisplayedCount(datum))
      ensures anchor == Anchor(xScale, yScale, datum)
      ensures opacity == 1
      ensures hovered == old(hovered) + (if 0 <= index < barCount then {index} else {})
      ensures 0 <= index < barCount ==> index in hovered
    {
      content := Content(RangeLabel(datum), Examples(datum), DisplayedCount(datum));
      anchor := Anchor(xScale, yScale, datum);
      opacity := 1;
      if 0 <= index < barCount {
        hovered := hovered + {index};
      }
    }

    /** `onMouseLeave()`: the tooltip is hidden and no bar is marked, whatever
        was marked before; the tooltip's text and position stay as they were. */
    method MouseLeave()
      requires Valid()
      modifies this
      ensures Valid()
      ensures opacity == 0 && hovered == {}
      ensures content == old(content) && anchor == old(anchor)
    {
      opacity := 0;
      hovered := {};
    }
  }

  /** Entering one bin, leaving it and entering another leaves nothing of the
      first bin behind: the tooltip shows the second bin's payload and only the
      second bin's bar is marked. */
  method EnterLeaveEnter(
    state: HoverState,
    first: Bin, i: int,
    second: Bin, j: int,
    xScale: real -> real, yScale: real -> real)
    requires state.Valid()
    modifies state
    ensures state.Valid()
    ensures state.content == Content(RangeLabel(second), Examples(second), DisplayedCount(second))
    ensures state.anchor == Anchor(xScale, yScale, second)
    ensures state.opacity == 1
    ensures state.hovered == if 0 <= j < state.barCount then {j} else {}
  {
    state.MouseEnter(first, i, xScale, yScale);
    state.MouseLeave();
    state.MouseEnter(second, j, xScale, yScale);
  }
}
