/**
 * The completion popup (`AutocompleteBox`): the list of candidate completions, which
 * of them is selected, whether the popup is showing, and the word it was opened for.
 * Only its selection bookkeeping is modelled; drawing and scrolling are host calls.
 */
module CompletionBox {
  import opened Wrappers
  import opened GuiEvents

  /** The index a key press moves the selection to, before it is wrapped into range. */
  function Moved(key: KeyCode, selected: int): int
  {
    match key
    case UpArrow => selected - 1
    case DownArrow => selected + 1
    case _ => selected
  }

  /**
   * The selection after a key press on a popup of `count` results: Up and Down move it
   * by one and wrap around at either end; every other key keeps a selection that is in
   * range and pulls one that is not (such as the initial -1) back into range.
   */
  function SelectionAfterKey(key: KeyCode, selected: int, count: int): (r: int)
    requires count > 0
    ensures 0 <= r < count
    ensures key == DownArrow && 0 <= selected < count ==> r == if selected == count - 1 then 0 else selected + 1
    ensures key == UpArrow && 0 <= selected < count ==> r == if selected == 0 then count - 1 else selected - 1
    ensures key != UpArrow && key != DownArrow && 0 <= selected < count ==> r == selected
  {
    var moved := Moved(key, selected);
    if moved >= count then 0
    else if moved < 0 then count - 1
    else moved
  }

  /** The selection after pressing `key` `times` times in a row. */
  function Repeat(key: KeyCode, selected: int, count: int, times: nat): (r: int)
    requires count > 0
    decreases times
  {
    if times == 0 then selected else SelectionAfterKey(key, Repeat(key, selected, count, times - 1), count)
  }

  /** Pressing a key `a + b` times is pressing it `a` times and then `b` times more. */
  lemma {:induction false} RepeatSplit(key: KeyCode, selected: int, count: int, a: nat, b: nat)
    requires count > 0
    ensures Repeat(key, selected, count, a + b) == Repeat(key, Repeat(key, selected, count, a), count, b)
    decreases b
  {
    if b > 0 {
      RepeatSplit(key, selected, count, a, b - 1);
    }
  }

  /** Pressing Down `k` times without passing the last result moves the selection down by `k`. */
  lemma {:induction false} RepeatDown(selected: int, count: int, k: nat)
    requires 0 <= selected && selected + k < count
    ensures Repeat(DownArrow, selected, count, k) == selected + k
    decreases k
  {
    if k > 0 {
      RepeatDown(selected, count, k - 1);
    }
  }

  /** Pressing Up `k` times without passing the first result moves the selection up by `k`. */
  lemma {:induction false} RepeatUp(selected: int, count: int, k: nat)
    requires k <= selected < count
    ensures Repeat(UpArrow, selected, count, k) == selected - k
    decreases k
  {
    if k > 0 {
      RepeatUp(selected, count, k - 1);
    }
  }

  /** Cycling through the whole list with Down, or with Up, comes back to where it started. */
  lemma FullCycleReturns(selected: int, count: int)
    requires 0 <= selected < count
    ensures Repeat(DownArrow, selected, count, count) == selected
    ensures Repeat(UpArrow, selected, count, count) == selected
  {
    var toEnd := count - 1 - selected;
    RepeatSplit(DownArrow, selected, count, toEnd + 1, selected);
    RepeatDown(selected, count, toEnd);
    RepeatDown(0, count, selected);

    RepeatSplit(UpArrow, selected, count, selected + 1, toEnd);
    RepeatUp(selected, count, selected);
    RepeatUp(count - 1, count, toEnd);
  }

  /** Down undoes Up and Up undoes Down, for every selection in range. */
  lemma UpDownInverse(selected: int, count: int)
    requires 0 <= selected < count
    ensures SelectionAfterKey(UpArrow, SelectionAfterKey(DownArrow, selected, count), count) == selected
    ensures SelectionAfterKey(DownArrow, SelectionAfterKey(UpArrow, selected, count), count) == selected
  {
  }

  class AutocompleteBox {
    /** The candidate completions; None stands for a null array handed over by the window. */
    var results: Option<seq<string>>
    var selectedIndex: int
    var visualIndex: int
    var showResults: bool
    /** The word the popup was last shown for; None until the first Clear or OnGUI. */
    var searchString: Option<string>

    constructor ()
      ensures results == Some([]) && selectedIndex == -1 && visualIndex == -1
      ensures !showResults && searchString == None
    {
      results := Some([]);
      selectedIndex := -1;
      visualIndex := -1;
      showResults := false;
      searchString := None;
    }

    /** Forget the word the popup was shown for and hide it. */
    method Clear()
      modifies this
      ensures searchString == Some("") && !showResults
      ensures results == old(results) && selectedIndex == old(selectedIndex) && visualIndex == old(visualIndex)
    {
      searchString := Some("");
      showResults := false;
    }

    /**
     * The bookkeeping `OnGUI` does before drawing: a null result list becomes empty, and
     * a word different from the last one resets the selection to the top and shows the popup.
     */
    method OnGUI(result: string)
      modifies this
      ensures results == if old(results).None? then Some([]) else old(results)
      ensures searchString == Some(result)
      ensures old(searchString) != Some(result) ==> selectedIndex == 0 && visualIndex == 0 && showResults
      ensures old(searchString) == Some(result) ==>
        selectedIndex == old(selectedIndex) && visualIndex == old(visualIndex) && showResults == old(showResults)
    {
      if results.None? {
        results := Some([]);
      }
      if Some(result) != searchString {
        selectedIndex := 0;
        visualIndex := 0;
        showResults := true;
      }
      searchString := Some(result);
    }

    /**
     * Accept `result`: the popup hides and remembers the accepted word. The returned
     * value is what is passed to the window's confirm handler.
     */
    method OnConfirm(result: string) returns (confirmed: string)
      modifies this
      ensures confirmed == result
      ensures !showResults && searchString == Some(result)
      ensures results == old(results) && selectedIndex == old(selectedIndex) && visualIndex == old(visualIndex)
    {
      confirmed := result;
      showResults := false;
      searchString := Some(result);
    }

    /**
     * Key handling while the popup has results: Escape hides it, Up and Down move the
     * selection (and consume the key), Return accepts the selected result when there is
     * one. After every key press the selection is wrapped back into range.
     * `confirmed` is the result handed to the window's confirm handler, if any.
     */
    method HandleEvents(ev: Event) returns (ev': Event, confirmed: Option<string>)
      requires results.Some?
      requires |results.value| > 0 && ev.eventType == KeyDown && ev.keyCode == Return && 0 <= selectedIndex ==>
        selectedIndex < |results.value|
      modifies this
      ensures results == old(results) && visualIndex == old(visualIndex)
      ensures |results.value| == 0 || ev.eventType != KeyDown ==>
        && ev' == ev && confirmed == None
        && selectedIndex == old(selectedIndex) && showResults == old(showResults) && searchString == old(searchString)
      ensures |results.value| > 0 && ev.eventType == KeyDown ==>
        && selectedIndex == SelectionAfterKey(ev.keyCode, old(selectedIndex), |results.value|)
        && 0 <= selectedIndex < |results.value|
        && confirmed == (if ev.keyCode == Return && old(selectedIndex) >= 0 then Some(results.value[old(selectedIndex)]) else None)
        && showResults == (if ev.keyCode == Escape || confirmed.Some? then false else old(showResults))
        && searchString == (if confirmed.Some? then confirmed else old(searchString))
        && ev' == (if ev.keyCode == UpArrow || ev.keyCode == DownArrow || confirmed.Some? then ev.Use() else ev)
    {
      ev', confirmed := ev, None;
      var list := results.value;
      if |list| == 0 {
        return;
      }
      if ev.eventType == KeyDown {
        match ev.keyCode {
          case Escape =>
            showResults := false;
          case UpArrow =>
            ev' := ev.Use();
            selectedIndex := selectedIndex - 1;
          case DownArrow =>
            ev' := ev.Use();
            selectedIndex := selectedIndex + 1;
          case Return =>
            if selectedIndex >= 0 {
              ev' := ev.Use();
              var accepted := OnConfirm(list[selectedIndex]);
              confirmed := Some(accepted);
            }
          case _ =>
        }
        if selectedIndex >= |list| {
          selectedIndex := 0;
        } else if selectedIndex < 0 {
          selectedIndex := |list| - 1;
        }
      }
    }
  }
}
