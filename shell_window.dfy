/**
 * The console window (`UnityShellEditorWindow`). Its text is a transcript ending in the
 * current command: everything after the last "command > " prompt. The window keeps the
 * command as last read (`input`), the word being completed (`lastWord`), the list of
 * commands run so far and where history browsing stands, and it answers keys: Return runs
 * the command, Up and Down browse history, and keys aimed before the prompt are refused.
 */
module ShellWindow {
  import opened Wrappers
  import opened Strings
  import opened GuiEvents
  import CompletionProvider
  import CompletionBox

  /** The prompt that opens every command. */
  const CommandName: string := "command > "

  /** No occurrence of the prompt starts anywhere in `s`. */
  predicate NoPrompt(s: string)
  {
    forall i :: 0 <= i < |s| ==> !OccursAt(s, CommandName, i)
  }

  /**
   * The current command: the text after the last prompt, or None when the text holds
   * no prompt at all.
   */
  function GetInput(text: string): (r: Option<string>)
    ensures r.None? <==> NoPrompt(text)
    ensures r.Some? ==>
      var start := |text| - |r.value|;
      && |CommandName| <= start
      && r.value == text[start..]
      && OccursAt(text, CommandName, start - |CommandName|)
      && forall i :: start - |CommandName| < i ==> !OccursAt(text, CommandName, i)
  {
    var commandStartIndex := LastIndexOf(text, CommandName);
    if commandStartIndex != -1 then Some(text[commandStartIndex + |CommandName|..]) else None
  }

  /** The prompt cannot overlap itself: no proper suffix of it is a prefix of it. */
  lemma PromptHasNoSelfOverlap(k: int)
    requires 0 < k < |CommandName|
    ensures CommandName[k] != CommandName[0]
  {
  }

  /**
   * Text ending in a prompt followed by a prompt-free command reads back that command,
   * whatever came before.
   */
  lemma GetInputAfterPrompt(before: string, command: string)
    requires NoPrompt(command)
    ensures GetInput(before + CommandName + command) == Some(command)
  {
    var text := before + CommandName + command;
    var p := |before|;
    assert text[p..p + |CommandName|] == CommandName;
    assert OccursAt(text, CommandName, p);
    var k := LastIndexOf(text, CommandName);
    assert p <= k;
    if p < k < p + |CommandName| {
      assert text[k..k + |CommandName|][0] == text[k] == CommandName[k - p];
      PromptHasNoSelfOverlap(k - p);
      assert false;
    }
    if p + |CommandName| <= k {
      var j := k - p - |CommandName|;
      assert text[k..k + |CommandName|] == command[j..j + |CommandName|];
      assert OccursAt(command, CommandName, j);
      assert false;
    }
    assert k == p;
    assert text[p + |CommandName|..] == command;
  }

  /** Right after a prompt is appended the current command is empty. */
  lemma GetInputAfterFreshPrompt(before: string)
    ensures GetInput(before + CommandName) == Some("")
  {
    assert NoPrompt("");
    GetInputAfterPrompt(before, "");
    assert before + CommandName + "" == before + CommandName;
  }

  /**
   * The word being completed: what follows the last '(' or space of the command, or the
   * whole command when it has neither. It is the longest suffix free of both.
   */
  function LastWord(input: string): (r: string)
    ensures |r| <= |input| && r == input[|input| - |r|..]
    ensures forall i :: 0 <= i < |r| ==> r[i] != '(' && r[i] != ' '
    ensures |r| < |input| ==> input[|input| - |r| - 1] == '(' || input[|input| - |r| - 1] == ' '
  {
    var lastWordIndex := LastIndexOfAny(input, {'(', ' '});
    if lastWordIndex != -1 then input[lastWordIndex + 1..] else input
  }

  /**
   * `text` with its last `n` characters replaced: everything before them is kept and
   * the replacement becomes the new end.
   */
  function ReplaceTail(text: string, n: nat, replacement: string): (r: string)
    requires n <= |text|
    ensures |r| == |text| - n + |replacement|
    ensures r[..|text| - n] == text[..|text| - n] && r[|text| - n..] == replacement
  {
    text[..|text| - n] + replacement
  }

  /**
   * Replacing the current command with a prompt-free string makes that string the
   * current command.
   */
  lemma ReplaceCurrentCommandReadsBack(text: string, replacement: string)
    requires GetInput(text).Some? && NoPrompt(replacement)
    ensures |GetInput(text).value| <= |text|
    ensures GetInput(ReplaceTail(text, |GetInput(text).value|, replacement)) == Some(replacement)
  {
    var input := GetInput(text).value;
    var start := |text| - |input|;
    var before := text[..start - |CommandName|];
    assert text[..start] == before + CommandName;
    assert ReplaceTail(text, |input|, replacement) == before + CommandName + replacement;
    GetInputAfterPrompt(before, replacement);
  }

  /**
   * Where the editable region starts: just after the last prompt, and at
   * `|CommandName| - 1` when there is no prompt (the last-index search gives -1).
   */
  function CommandStart(text: string): (start: int)
    ensures GetInput(text).Some? ==> start == |text| - |GetInput(text).value|
    ensures GetInput(text).None? ==> start == |CommandName| - 1
  {
    LastIndexOf(text, CommandName) + |CommandName|
  }

  /** The position a key acts on: Backspace deletes the character before the cursor. */
  function EditPosition(key: KeyCode, cursorIndex: int): int
  {
    if key == Backspace then cursorIndex - 1 else cursorIndex
  }

  /**
   * A key without the command or control modifier is refused when it would act before
   * the start of the current command.
   */
  predicate SwallowsKey(text: string, cursorIndex: int, ev: Event)
  {
    ev.IsKey() && !ev.command && !ev.control && EditPosition(ev.keyCode, cursorIndex) < CommandStart(text)
  }

  /** Where history browsing stands: the text, the history position and the saved draft. */
  datatype HistoryCursor = HistoryCursor(text: string, position: int, savedInput: Option<string>)

  /**
   * One Up or Down press while browsing `history`, with `input` the current command.
   * The first press saves the command being typed as the draft; Up stops at the oldest
   * entry; Down past the newest entry brings the draft back and ends browsing.
   */
  function NavigateHistory(key: KeyCode, history: seq<string>, input: string, c: HistoryCursor): (r: HistoryCursor)
    requires key == UpArrow || key == DownArrow
    requires (if key == DownArrow then c.position + 1 else c.position - 1) >= 0 ==> |input| <= |c.text|
    ensures 0 <= r.position <= |history|
    ensures |input| <= |c.text| ==> var keep := |c.text| - |input|;
      |r.text| >= keep && r.text[..keep] == c.text[..keep]
    ensures var moved := if key == DownArrow then c.position + 1 else c.position - 1;
      var draft := if c.savedInput.Some? then c.savedInput.value else input;
      && (r.savedInput.None? <==> moved >= |history|)
      && (r.savedInput.Some? ==> r.savedInput == Some(draft))
      && (moved < 0 ==> r.position == 0 && r.text == c.text)
      && (0 <= moved < |history| ==> r.position == moved && r.text == ReplaceTail(c.text, |input|, history[moved]))
      && (moved >= |history| ==> r.position == |history| && r.text == ReplaceTail(c.text, |input|, draft))
  {
    var moved := if key == DownArrow then c.position + 1 else c.position - 1;
    var draft := if c.savedInput.None? then input else c.savedInput.value;
    if moved < 0 then
      HistoryCursor(c.text, 0, Some(draft))
    else if moved >= |history| then
      HistoryCursor(ReplaceTail(c.text, |input|, draft), |history|, None)
    else
      HistoryCursor(ReplaceTail(c.text, |input|, history[moved]), moved, Some(draft))
  }

  /**
   * Up right after a command was run recalls that command; Down then ends browsing and
   * puts back the draft saved before the run, or the empty command when none was saved.
   * Running a command does not clear the saved draft, so a draft saved while browsing
   * before the run comes back here in place of the empty command.
   */
  lemma UpRecallsLastCommand(before: string, history: seq<string>, command: string, saved: Option<string>)
    requires NoPrompt(command)
    ensures var text := before + CommandName;
      var draft := if saved.Some? then saved.value else "";
      var up := NavigateHistory(UpArrow, history + [command], "", HistoryCursor(text, |history| + 1, saved));
      && up == HistoryCursor(text + command, |history|, Some(draft))
      && GetInput(up.text) == Some(command)
      && NavigateHistory(DownArrow, history + [command], command, up) == HistoryCursor(text + draft, |history| + 1, None)
  {
    var text := before + CommandName;
    var draft := if saved.Some? then saved.value else "";
    assert ReplaceTail(text, 0, command) == text + command;
    GetInputAfterPrompt(before, command);
    assert ReplaceTail(text + command, |command|, draft) == text + draft;
  }

  /**
   * Up from the end of the history and then Down, with the current command re-read in
   * between, puts the draft back exactly as it was and ends browsing.
   */
  lemma UpThenDownRestoresDraft(before: string, history: seq<string>, draft: string)
    requires |history| > 0
    ensures var text := before + draft;
      var up := NavigateHistory(UpArrow, history, draft, HistoryCursor(text, |history|, None));
      var newest := history[|history| - 1];
      && up == HistoryCursor(before + newest, |history| - 1, Some(draft))
      && NavigateHistory(DownArrow, history, newest, up) == HistoryCursor(text, |history|, None)
  {
    var newest := history[|history| - 1];
    assert (before + draft)[..|before|] == before;
    assert (before + newest)[..|before|] == before;
  }

  /** How running a command ended: the value it printed, or the message of the exception it raised. */
  datatype Evaluation = Value(shown: string) | Failed(message: string)

  class UnityShellEditorWindow {
    /** The console transcript (the text editor's contents). */
    var text: string
    /** The current command as last read from the text. */
    var input: string
    /** The word of `input` being completed. */
    var lastWord: string
    /** The command being typed when history browsing began; None when not browsing. */
    var savedInput: Option<string>
    var positionInHistory: int
    var inputHistory: seq<string>
    var requestMoveCursorToEnd: bool
    var requestFocusOnTextArea: bool
    /** Set when a completion was accepted: the line break typed with Return is still to be undone. */
    var requestRevertNewLine: bool
    var provider: CompletionProvider.AutocompleteProvider
    var box: CompletionBox.AutocompleteBox

    /** A new window (`Awake`): empty transcript, fresh completion source and popup. */
    constructor ()
      ensures text == "" && input == "" && lastWord == "" && savedInput == None
      ensures positionInHistory == 0 && inputHistory == []
      ensures requestFocusOnTextArea && !requestMoveCursorToEnd && !requestRevertNewLine
      ensures fresh(provider) && provider.completions == None && provider.handleCount == 0
      ensures fresh(box) && box.results == Some([]) && box.searchString == None && !box.showResults
    {
      text := "";
      input := "";
      lastWord := "";
      savedInput := None;
      positionInHistory := 0;
      inputHistory := [];
      requestMoveCursorToEnd := false;
      requestRevertNewLine := false;
      requestFocusOnTextArea := true;
      provider := new CompletionProvider.AutocompleteProvider();
      box := new CompletionBox.AutocompleteBox();
    }

    method ClearText()
      modifies this
      ensures text == ""
      ensures input == old(input) && lastWord == old(lastWord) && inputHistory == old(inputHistory)
      ensures positionInHistory == old(positionInHistory) && savedInput == old(savedInput)
      ensures requestMoveCursorToEnd == old(requestMoveCursorToEnd) && requestRevertNewLine == old(requestRevertNewLine)
      ensures requestFocusOnTextArea == old(requestFocusOnTextArea)
      ensures provider == old(provider) && box == old(box)
    {
      text := "";
    }

    method ScheduleMoveCursorToEnd()
      modifies this
      ensures requestMoveCursorToEnd
      ensures text == old(text) && input == old(input) && lastWord == old(lastWord) && inputHistory == old(inputHistory)
      ensures positionInHistory == old(positionInHistory) && savedInput == old(savedInput)
      ensures requestRevertNewLine == old(requestRevertNewLine)
      ensures requestFocusOnTextArea == old(requestFocusOnTextArea)
      ensures provider == old(provider) && box == old(box)
    {
      requestMoveCursorToEnd := true;
    }

    /** Open a new command: a prompt is appended and the current command is then empty. */
    method AppendStartCommand()
      modifies this
      ensures text == old(text) + CommandName && GetInput(text) == Some("")
      ensures requestMoveCursorToEnd
      ensures input == old(input) && lastWord == old(lastWord) && inputHistory == old(inputHistory)
      ensures positionInHistory == old(positionInHistory) && savedInput == old(savedInput)
      ensures requestRevertNewLine == old(requestRevertNewLine)
      ensures requestFocusOnTextArea == old(requestFocusOnTextArea)
      ensures provider == old(provider) && box == old(box)
    {
      text := text + CommandName;
      ScheduleMoveCursorToEnd();
      GetInputAfterFreshPrompt(old(text));
    }

    /** Print `result` on a line of its own. */
    method Append(result: string)
      modifies this
      ensures text == old(text) + "\n" + result + "\n"
      ensures input == old(input) && lastWord == old(lastWord) && inputHistory == old(inputHistory)
      ensures positionInHistory == old(positionInHistory) && savedInput == old(savedInput)
      ensures requestMoveCursorToEnd == old(requestMoveCursorToEnd) && requestRevertNewLine == old(requestRevertNewLine)
      ensures requestFocusOnTextArea == old(requestFocusOnTextArea)
      ensures provider == old(provider) && box == old(box)
    {
      text := text + "\n" + result + "\n";
    }

    /** The start of each GUI pass: an empty console gets its first prompt. */
    method PromptIfEmpty()
      modifies this
      ensures old(text) == "" ==> text == CommandName && GetInput(text) == Some("") && requestMoveCursorToEnd
      ensures old(text) != "" ==> text == old(text) && requestMoveCursorToEnd == old(requestMoveCursorToEnd)
      ensures input == old(input) && lastWord == old(lastWord) && inputHistory == old(inputHistory)
      ensures positionInHistory == old(positionInHistory) && savedInput == old(savedInput)
      ensures requestRevertNewLine == old(requestRevertNewLine)
      ensures requestFocusOnTextArea == old(requestFocusOnTextArea)
      ensures provider == old(provider) && box == old(box)
    {
      if text == "" {
        AppendStartCommand();
        ScheduleMoveCursorToEnd();
      }
    }

    /**
     * Replace the last `|input|` characters of the text (the current command, when
     * `input` is up to date) with `replacement`.
     */
    method ReplaceCurrentCommand(replacement: string)
      requires |input| <= |text|
      modifies this
      ensures input == old(input) && lastWord == old(lastWord) && inputHistory == old(inputHistory)
      ensures text == ReplaceTail(old(text), |input|, replacement)
      ensures positionInHistory == old(positionInHistory) && savedInput == old(savedInput)
      ensures requestMoveCursorToEnd == old(requestMoveCursorToEnd) && requestRevertNewLine == old(requestRevertNewLine)
      ensures requestFocusOnTextArea == old(requestFocusOnTextArea)
      ensures provider == old(provider) && box == old(box)
    {
      text := text[..|text| - |input|];
      text := text + replacement;
    }

    /** Up and Down browse the history (consuming the key); every other event passes through. */
    method HandleHistory(ev: Event) returns (ev': Event)
      requires (&& ev.eventType == KeyDown && (ev.keyCode == UpArrow || ev.keyCode == DownArrow)
                && (if ev.keyCode == DownArrow then positionInHistory + 1 else positionInHistory - 1) >= 0)
               ==> |input| <= |text|
      modifies this
      ensures input == old(input) && lastWord == old(lastWord) && inputHistory == old(inputHistory)
      ensures ev.eventType == KeyDown && (ev.keyCode == UpArrow || ev.keyCode == DownArrow) ==>
        && HistoryCursor(text, positionInHistory, savedInput)
           == NavigateHistory(ev.keyCode, inputHistory, input, HistoryCursor(old(text), old(positionInHistory), old(savedInput)))
        && ev' == ev.Use()
      ensures !(ev.eventType == KeyDown && (ev.keyCode == UpArrow || ev.keyCode == DownArrow)) ==>
        text == old(text) && positionInHistory == old(positionInHistory) && savedInput == old(savedInput) && ev' == ev
      ensures 0 <= old(positionInHistory) <= |inputHistory| ==> 0 <= positionInHistory <= |inputHistory|
      ensures requestMoveCursorToEnd == old(requestMoveCursorToEnd) && requestRevertNewLine == old(requestRevertNewLine)
      ensures requestFocusOnTextArea == old(requestFocusOnTextArea)
      ensures provider == old(provider) && box == old(box)
    {
      ev' := ev;
      ghost var before := HistoryCursor(text, positionInHistory, savedInput);
      if ev.eventType == KeyDown {
        var changed := false;
        if ev.keyCode == DownArrow {
          positionInHistory := positionInHistory + 1;
          changed := true;
          ev' := ev.Use();
        }
        if ev.keyCode == UpArrow {
          positionInHistory := positionInHistory - 1;
          changed := true;
          ev' := ev.Use();
        }
        if changed {
          if savedInput.None? {
            savedInput := Some(input);
          }
          if positionInHistory < 0 {
            positionInHistory := 0;
          } else if positionInHistory >= |inputHistory| {
            ReplaceCurrentCommand(savedInput.value);
            positionInHistory := |inputHistory|;
            savedInput := None;
          } else {
            ReplaceCurrentCommand(inputHistory[positionInHistory]);
          }
          assert HistoryCursor(text, positionInHistory, savedInput) == NavigateHistory(ev.keyCode, inputHistory, input, before);
        }
      }
    }

    /**
     * Re-read the current command. When it changed (and no line break is waiting to be
     * undone) the command and its last word are updated and a completion request for the
     * word is made; `handle` is the tag of that request's query.
     */
    method DoAutoComplete() returns (handle: Option<int>)
      modifies this, provider
      ensures var newInput := GetInput(old(text));
        if newInput.Some? && newInput.value != old(input) && !old(requestRevertNewLine) then
          && input == newInput.value && lastWord == LastWord(newInput.value)
          && provider.handleCount == old(provider.handleCount) + 1
          && handle == Some(provider.handleCount)
        else
          && input == old(input) && lastWord == old(lastWord)
          && provider.handleCount == old(provider.handleCount) && handle == None
      ensures provider.completions == old(provider.completions)
      ensures text == old(text) && inputHistory == old(inputHistory)
      ensures positionInHistory == old(positionInHistory) && savedInput == old(savedInput)
      ensures requestMoveCursorToEnd == old(requestMoveCursorToEnd) && requestRevertNewLine == old(requestRevertNewLine)
      ensures requestFocusOnTextArea == old(requestFocusOnTextArea)
      ensures provider == old(provider) && box == old(box)
    {
      handle := None;
      var newInput := GetInput(text);
      if newInput.Some? && input != newInput.value && !requestRevertNewLine {
        input := newInput.value;
        lastWord := LastWord(input);
        var h := provider.SetInput(Some(lastWord));
        handle := Some(h);
      }
    }

    /**
     * The popup accepted `confirmedInput`: the word being completed, which ends the text,
     * is replaced by it, and the line break typed with Return is marked for undoing.
     */
    method OnAutocompleteConfirm(confirmedInput: string)
      requires |lastWord| <= |text|
      modifies this
      ensures text == ReplaceTail(old(text), |old(lastWord)|, confirmedInput)
      ensures lastWord == confirmedInput && requestRevertNewLine
      ensures input == old(input) && inputHistory == old(inputHistory)
      ensures positionInHistory == old(positionInHistory) && savedInput == old(savedInput)
      ensures requestMoveCursorToEnd == old(requestMoveCursorToEnd)
      ensures requestFocusOnTextArea == old(requestFocusOnTextArea)
      ensures provider == old(provider) && box == old(box)
    {
      text := text[..|text| - |lastWord|];
      text := text + confirmedInput;
      lastWord := confirmedInput;
      requestRevertNewLine := true;
    }

    /**
     * Refuse a key that would act before the current command: the cursor is sent back
     * to the end and the key is consumed. `cursorIndex` is the text editor's cursor.
     */
    method EnsureNotAboutToTypeAtInvalidPosition(ev: Event, cursorIndex: int) returns (ev': Event)
      modifies this
      ensures requestMoveCursorToEnd == (old(requestMoveCursorToEnd) || SwallowsKey(text, cursorIndex, ev))
      ensures ev' == if SwallowsKey(text, cursorIndex, ev) then ev.Use() else ev
      ensures GetInput(text).Some? && ev.IsKey() && !ev.command && !ev.control ==>
        (ev' != ev <==> EditPosition(ev.keyCode, cursorIndex) < |text| - |GetInput(text).value|)
      ensures text == old(text) && input == old(input) && lastWord == old(lastWord) && inputHistory == old(inputHistory)
      ensures positionInHistory == old(positionInHistory) && savedInput == old(savedInput)
      ensures requestRevertNewLine == old(requestRevertNewLine)
      ensures requestFocusOnTextArea == old(requestFocusOnTextArea)
      ensures provider == old(provider) && box == old(box)
    {
      ev' := ev;
      if ev.IsKey() && !ev.command && !ev.control {
        var lastIndexCommand := LastIndexOf(text, CommandName) + |CommandName|;
        var cursor := cursorIndex;
        if ev.keyCode == Backspace {
          cursor := cursor - 1;
        }
        if cursor < lastIndexCommand {
          ScheduleMoveCursorToEnd();
          ev' := ev.Use();
        }
      }
    }

    /**
     * Return (without shift) runs the current command: its printed value is appended
     * and the command joins the history, or, when it raised an exception, the message is
     * appended and the history is left alone. Either way a fresh prompt follows and the
     * key is consumed. `evaluation` is what the embedded compiler made of `input`.
     */
    method DrawConsole(ev: Event, evaluation: Evaluation) returns (ev': Event)
      modifies this
      ensures ev.eventType == KeyDown && ev.keyCode == Return && !ev.shift ==>
        && text == old(text) + "\n" + (if evaluation.Value? then evaluation.shown else evaluation.message) + "\n" + CommandName
        && GetInput(text) == Some("")
        && inputHistory == (if evaluation.Value? then old(inputHistory) + [input] else old(inputHistory))
        && positionInHistory == (if evaluation.Value? then |inputHistory| else old(positionInHistory))
        && requestMoveCursorToEnd
        && ev' == ev.Use()
      ensures !(ev.eventType == KeyDown && ev.keyCode == Return && !ev.shift) ==>
        && text == old(text) && inputHistory == old(inputHistory) && positionInHistory == old(positionInHistory)
        && requestMoveCursorToEnd == old(requestMoveCursorToEnd) && ev' == ev
      ensures input == old(input) && lastWord == old(lastWord) && savedInput == old(savedInput)
      ensures requestRevertNewLine == old(requestRevertNewLine)
      ensures requestFocusOnTextArea == old(requestFocusOnTextArea)
      ensures provider == old(provider) && box == old(box)
    {
      ev' := ev;
      if ev.eventType == KeyDown && ev.keyCode == Return && !ev.shift {
        match evaluation {
          case Value(result) =>
            Append(result);
            inputHistory := inputHistory + [input];
            positionInHistory := |inputHistory|;
          case Failed(message) =>
            Append(message);
        }
        AppendStartCommand();
        ev' := ev.Use();
      }
    }

    /**
     * The popup part of drawing: the popup is handed the current completions and shown
     * for the word being completed.
     */
    method ShowCompletions()
      modifies box
      ensures box.results == if provider.completions.None? then Some([]) else provider.completions
      ensures box.searchString == Some(lastWord)
      ensures old(box.searchString) != Some(lastWord) ==> box.selectedIndex == 0 && box.showResults
      ensures old(box.searchString) == Some(lastWord) ==>
        box.selectedIndex == old(box.selectedIndex) && box.showResults == old(box.showResults)
    ensures old(box.searchString) != Some(lastWord) ==> box.visualIndex == 0
    ensures old(box.searchString) == Some(lastWord) ==> box.visualIndex == old(box.visualIndex)
    {
      box.results := provider.completions;
      box.OnGUI(lastWord);
    }
  }
}
