# UnityShell console model

A Dafny model of the text and state bookkeeping of UnityShell, an in-editor C# REPL window
for the Unity editor. The console is one text area holding a transcript; the current command is
whatever follows the last `command > ` prompt. The model covers three classes:

- **`UnityShellEditorWindow`** (module `ShellWindow`): reading the current command and the word
  being completed, replacing the command with a history entry or an accepted completion, running a
  command on Return (printing the result or the error, recording history, opening a new prompt),
  Up/Down history browsing with the saved draft, and refusing keys aimed before the prompt.
- **`AutocompleteBox`** (module `CompletionBox`): the completion popup's selection, which wraps
  around on Up/Down, hides on Escape or on accepting, and resets when the word changes.
- **`AutocompleteProvider`** (module `CompletionProvider`): the request counter that lets only
  the latest background query write its answer, and the post-processing of the answer (each
  completion prefixed with the word; a lone completion that adds only white space is dropped).

Supporting modules: `Strings` states the .NET string operations the code calls (ordinal
`LastIndexOf`, `LastIndexOfAny`, `Char.IsWhiteSpace`, `Trim`), `GuiEvents` the slice of the
editor's `Event.current` that the handlers read and consume, `Wrappers` an `Option` type for C#
references that may be null.

The classes keep the source's fields and update them in place. Each handler takes the current
event and returns it, consumed (`Use`) or not, so that handlers can be chained in the order the
window calls them. Where a handler's effect is worth reasoning about over several steps, a pure
function states it (`NavigateHistory`, `SelectionAfterKey`, `ResolveCompletions`), the method is
proved to equal it, and lemmas about the function give the properties: the history position stays
in range, Up then Down brings the draft back, cycling through the popup returns to the start,
a stale query on a non-empty word never writes (a query on an empty word
always empties the list, stale or not), and a lone completion is dropped exactly when it is only white space.

Inputs from outside the model are parameters: the text editor's cursor index, the outcome of
evaluating a command (`Evaluation`), the embedded compiler's completion answer (`Answer`) and the
tag (`handle`) a background completion query carries.

## Model

| member | source | states |
|---|---|---|
| `Strings.LastIndexOf` | Assets/UnityShell/Editor/Scripts/UnityShellEditorWindow.cs:224 | -1 exactly when the pattern never occurs; otherwise an occurrence with no later one |
| `Strings.LastIndexOfAny` | Assets/UnityShell/Editor/Scripts/UnityShellEditorWindow.cs:212 | -1 exactly when no character of the set occurs; otherwise the last such index |
| `Strings.Trim` | Assets/UnityShell/Editor/Scripts/AutocompleteProvider.cs:39 | `String.Trim()`: the result is the middle of the string between its leading and trailing white space, starts and ends with a visible character, and is empty exactly when the string is white space only |
| `Strings.TrimStart` | Assets/UnityShell/Editor/Scripts/AutocompleteProvider.cs:39 | first half of `Trim`: the result is the suffix left after only white space is removed, and does not start with white space |
| `Strings.TrimEnd` | Assets/UnityShell/Editor/Scripts/AutocompleteProvider.cs:39 | second half of `Trim`: the result is the prefix left after only white space is removed, and does not end with white space |
| `Strings.TrimIgnoresTrailingWhiteSpace` | Assets/UnityShell/Editor/Scripts/AutocompleteProvider.cs:39 | appending only white space leaves the trimmed string unchanged |
| `Strings.TrimGrowsWithVisibleSuffix` | Assets/UnityShell/Editor/Scripts/AutocompleteProvider.cs:39 | appending a visible character makes the trimmed string strictly longer |
| `Strings.TrimUnchangedIff` | Assets/UnityShell/Editor/Scripts/AutocompleteProvider.cs:39 | `Trim(s + w) == Trim(s)` exactly when `w` is all white space |
| `GuiEvents.Event.Use` | Assets/UnityShell/Editor/Scripts/UnityShellEditorWindow.cs:166 | `Event.Use()`: the event becomes `Used` and is no longer a key event; its key and modifiers are kept |
| `ShellWindow.GetInput` | Assets/UnityShell/Editor/Scripts/UnityShellEditorWindow.cs:222-231 | None exactly when the text has no prompt; otherwise the text after the last prompt, with no prompt starting later |
| `ShellWindow.GetInputAfterPrompt` | Assets/UnityShell/Editor/Scripts/UnityShellEditorWindow.cs:222-231 | text ending in a prompt and a prompt-free command reads back that command, whatever precedes it |
| `ShellWindow.GetInputAfterFreshPrompt` | Assets/UnityShell/Editor/Scripts/UnityShellEditorWindow.cs:348-352 | right after a prompt is appended the current command is empty |
| `ShellWindow.LastWord` | Assets/UnityShell/Editor/Scripts/UnityShellEditorWindow.cs:211-216 | the longest suffix of the command free of `(` and space: the whole command or what follows the last separator |
| `ShellWindow.ReplaceTail` | Assets/UnityShell/Editor/Scripts/UnityShellEditorWindow.cs:199-200 | the text before the replaced end is kept and the replacement becomes the new end |
| `ShellWindow.ReplaceCurrentCommandReadsBack` | Assets/UnityShell/Editor/Scripts/UnityShellEditorWindow.cs:197-202 | replacing the current command with a prompt-free string makes that string the current command |
| `ShellWindow.CommandStart` | Assets/UnityShell/Editor/Scripts/UnityShellEditorWindow.cs:268 | the editable region starts where the current command starts, or at 9 when the text has no prompt |
| `ShellWindow.NavigateHistory` | Assets/UnityShell/Editor/Scripts/UnityShellEditorWindow.cs:161-192 | Down/Up move the position by one: below 0 it stops at 0 with the text unchanged; inside the history the entry at the new position replaces the command; at or past Count the saved draft replaces the command, the position becomes Count and the draft is cleared, and only then; text before the command untouched; the draft saved at the first step is never overwritten |
| `ShellWindow.UpRecallsLastCommand` | Assets/UnityShell/Editor/Scripts/UnityShellEditorWindow.cs:168-191 | Up right after running a command brings that command back as the current command; Down then restores the draft saved before the run, which is the empty command when none was saved, and a stale draft otherwise, because running a command (lines 322-335) does not clear it |
| `ShellWindow.UpThenDownRestoresDraft` | Assets/UnityShell/Editor/Scripts/UnityShellEditorWindow.cs:175-192 | Up from the end of the history then Down puts the draft back exactly and ends browsing |
| `ShellWindow.UnityShellEditorWindow.constructor` | Assets/UnityShell/Editor/Scripts/UnityShellEditorWindow.cs:101-108 | empty transcript, empty history, focus requested, fresh completion source and popup |
| `ShellWindow.UnityShellEditorWindow.ClearText` | Assets/UnityShell/Editor/Scripts/UnityShellEditorWindow.cs:110-116 | the transcript becomes empty and nothing else changes |
| `ShellWindow.UnityShellEditorWindow.ScheduleMoveCursorToEnd` | Assets/UnityShell/Editor/Scripts/UnityShellEditorWindow.cs:354-358 | a cursor move to the end is requested |
| `ShellWindow.UnityShellEditorWindow.AppendStartCommand` | Assets/UnityShell/Editor/Scripts/UnityShellEditorWindow.cs:348-352 | a prompt is appended, the current command is then empty, a cursor move is requested |
| `ShellWindow.UnityShellEditorWindow.Append` | Assets/UnityShell/Editor/Scripts/UnityShellEditorWindow.cs:360-363 | the result is appended on a line of its own |
| `ShellWindow.UnityShellEditorWindow.PromptIfEmpty` | Assets/UnityShell/Editor/Scripts/UnityShellEditorWindow.cs:142-146 | an empty console gets exactly one prompt and an empty current command; a non-empty one is left alone |
| `ShellWindow.UnityShellEditorWindow.ReplaceCurrentCommand` | Assets/UnityShell/Editor/Scripts/UnityShellEditorWindow.cs:197-202 | the last `|input|` characters are replaced and everything before them is kept (the read-back is `ReplaceCurrentCommandReadsBack`) |
| `ShellWindow.UnityShellEditorWindow.HandleHistory` | Assets/UnityShell/Editor/Scripts/UnityShellEditorWindow.cs:156-195 | an Up/Down key press performs `NavigateHistory` and is consumed; any other event changes nothing |
| `ShellWindow.UnityShellEditorWindow.DoAutoComplete` | Assets/UnityShell/Editor/Scripts/UnityShellEditorWindow.cs:204-220 | a changed command (with no line break pending) becomes `input`, its `LastWord` becomes `lastWord` and one completion request is made; otherwise nothing changes |
| `ShellWindow.UnityShellEditorWindow.OnAutocompleteConfirm` | Assets/UnityShell/Editor/Scripts/UnityShellEditorWindow.cs:126-132 | the trailing `lastWord` is replaced by the accepted completion, which becomes `lastWord`; the line-break revert is requested |
| `ShellWindow.UnityShellEditorWindow.EnsureNotAboutToTypeAtInvalidPosition` | Assets/UnityShell/Editor/Scripts/UnityShellEditorWindow.cs:262-280 | a key without command/control is consumed, and a cursor move requested, exactly when the position it acts on (one less for Backspace) lies before the current command |
| `ShellWindow.UnityShellEditorWindow.DrawConsole` | Assets/UnityShell/Editor/Scripts/UnityShellEditorWindow.cs:313-336 | Return appends the value and records the command at the end of history (position = Count), or appends the error and keeps history; then a new prompt with an empty command; the key is consumed |
| `ShellWindow.UnityShellEditorWindow.ShowCompletions` | Assets/UnityShell/Editor/Scripts/UnityShellEditorWindow.cs:302-306 | the popup receives the current completions (null as empty) and is shown for `lastWord`; a new word resets the selection and the visual index to 0, the same word keeps both |
| `CompletionBox.SelectionAfterKey` | Assets/UnityShell/Editor/Scripts/AutocompleteBox.cs:93-125 | the selection is always in range after a key press; Down from the last goes to 0, Up from 0 to the last; other keys keep an in-range selection |
| `CompletionBox.RepeatDown` | Assets/UnityShell/Editor/Scripts/AutocompleteBox.cs:104-124 | k Down presses that do not pass the last result move the selection down by k |
| `CompletionBox.RepeatUp` | Assets/UnityShell/Editor/Scripts/AutocompleteBox.cs:100-124 | k Up presses that do not pass the first result move the selection up by k |
| `CompletionBox.FullCycleReturns` | Assets/UnityShell/Editor/Scripts/AutocompleteBox.cs:100-124 | pressing Down, or Up, once per result returns the selection to where it started |
| `CompletionBox.UpDownInverse` | Assets/UnityShell/Editor/Scripts/AutocompleteBox.cs:100-124 | Up undoes Down and Down undoes Up |
| `CompletionBox.AutocompleteBox.constructor` | Assets/UnityShell/Editor/Scripts/AutocompleteBox.cs:44-58 | empty results, selection and visual index -1, hidden, no search string |
| `CompletionBox.AutocompleteBox.Clear` | Assets/UnityShell/Editor/Scripts/AutocompleteBox.cs:60-64 | the search string becomes empty and the popup hides; the selection is kept |
| `CompletionBox.AutocompleteBox.OnGUI` | Assets/UnityShell/Editor/Scripts/AutocompleteBox.cs:66-79 | null results become empty; a new word resets selection and visual index to 0 and shows the popup; the word is stored |
| `CompletionBox.AutocompleteBox.OnConfirm` | Assets/UnityShell/Editor/Scripts/AutocompleteBox.cs:256-265 | the accepted result is passed on, the popup hides and the search string becomes the result |
| `CompletionBox.AutocompleteBox.HandleEvents` | Assets/UnityShell/Editor/Scripts/AutocompleteBox.cs:84-126 | nothing changes with no results or no key press; otherwise the selection follows `SelectionAfterKey`, Escape hides, Return with a selection accepts that result and hides; Up/Down/accept consume the key |
| `CompletionProvider.Prefixed` | Assets/UnityShell/Editor/Scripts/AutocompleteProvider.cs:33-37 | same length and order as the raw answer, each entry the word followed by the raw ending |
| `CompletionProvider.ResolveCompletions` | Assets/UnityShell/Editor/Scripts/AutocompleteProvider.cs:23-48 | empty/null word empties the list; a stale or failed query leaves it unchanged; a null answer leaves null; a fresh answer writes only completions that start with the word |
| `CompletionProvider.FreshCompletionsWritten` | Assets/UnityShell/Editor/Scripts/AutocompleteProvider.cs:33-42 | the fresh answer is written prefixed in order, and is emptied exactly when it is one ending of only white space |
| `CompletionProvider.AutocompleteProvider.constructor` | Assets/UnityShell/Editor/Scripts/AutocompleteProvider.cs:14-16 | no completions (null) and a zero counter |
| `CompletionProvider.AutocompleteProvider.SetInput` | Assets/UnityShell/Editor/Scripts/AutocompleteProvider.cs:18-20 | the request counter grows by exactly one and the new value tags the query |
| `CompletionProvider.AutocompleteProvider.Complete` | Assets/UnityShell/Editor/Scripts/AutocompleteProvider.cs:21-49 | the completions become `ResolveCompletions` of the old ones, the handle and the answer; the counter is unchanged |
| `CompletionProvider.StaleQueryDiscarded` | Assets/UnityShell/Editor/Scripts/AutocompleteProvider.cs:18-48 | after two requests, the first query on a non-empty word leaves the list as it was; on an empty word it empties the list though it is stale (lines 45-48 skip the handle check) |

## Left out

- Drawing and styling (`Styles`, `DrawAll`'s layout, the console `TextArea`, `DrawResults`, `DrawScroll`, textures): host GUI calls. `AutocompleteBox.OnGUI` is modelled up to its call to `DrawResults`.
- `UpdateVisualIndex`, `GetTotalResultsShown` and the scrollbar arithmetic: float rectangle geometry over drawing sizes. The visual index is therefore only modelled where `OnGUI` resets it.
- `HandleRequests`, `ScrollDown`, `scrollPos`, `TextEditor.MoveTextEnd` and the graphical cursor: host text-editor state and repaint timing. The line-break revert they perform (and the clearing of `requestRevertNewLine`) is not modelled; the cursor index is a parameter of the key guard.
- The window's `OnGUI` pass as a whole: its steps are modelled one by one and each hands the event on, but the pass is not composed, because `HandleRequests` sits inside it.
- Threads. The completion query is a separate step, `Complete`, taking its tag as a parameter; the real thread reads the counter when it starts, so any tag may arrive, and the model claims only the sequential check. The in-place prefixing is done on a fresh array: the real array is shared with the compiler's result and with the popup's `results` while the loop runs, and that sharing is not modelled.
- `ShellEvaluator` and the embedded compiler (`Evaluate`, `GetCompletions`, assembly referencing, the `;` appended to a command): a foreign compiler. Its outcomes are the parameters `Evaluation` and `Answer`.
- Editor lifecycle: `CreateWindow`, `OnEnable` (evaluator start-up, subscribing the confirm handler, clearing the popup), `OnInspectorUpdate`, `Debug.LogException`. `HandleEvents` returns the accepted result instead of calling the subscribed handler.
- `AutocompleteBox.maxResults` and `scrollPos`: used only for drawing.
- Text positions: the model indexes strings by character (Unicode scalar value), while `Length`, `Substring` and the text editor's `cursorIndex` count UTF-16 code units; `EnsureNotAboutToTypeAtInvalidPosition`'s `cursorIndex` parameter is therefore a character index, which differs from the editor's cursor once the transcript holds characters outside the Basic Multilingual Plane.
- `Strings.IsWhiteSpace`: follows the current .NET white-space table; runtimes built on older Unicode data also count U+180E.
- `ShellWindow.UnityShellEditorWindow.ReplaceCurrentCommand` and `ShellWindow.UnityShellEditorWindow.OnAutocompleteConfirm` require the removed length to fit in the text; the source's `Substring` throws there and that exception is not modelled.
- `ShellWindow.UnityShellEditorWindow.HandleHistory` and `ShellWindow.NavigateHistory` require `input` to fit in the text only for an Up or Down press that does not stop at position 0, the one case that reaches `Substring`; the exception it would throw there is not modelled.
- `CompletionBox.AutocompleteBox.HandleEvents` requires the selection to be inside the list when Return is pressed; the source indexes the array there and would throw, which is not modelled.
