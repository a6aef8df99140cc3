/**
 * The completion source (`AutocompleteProvider`). Every new word starts a background
 * query, tagged with the value of a counter that each request increments; the query
 * writes its answer back only when no newer request has been made since. Here the
 * background query is a separate step that receives its tag (handle) explicitly, and
 * the embedded compiler's answer is a parameter.
 */
module CompletionProvider {
  import opened Wrappers
  import opened Strings

  /** What the embedded compiler's completion query gave back. */
  datatype Answer =
    | Completions(raw: seq<string>)  // the endings that complete the word
    | NullCompletions                // a null array
    | Threw                          // the query raised an exception

  /** The completions as shown: the word followed by each raw ending, in order. */
  function Prefixed(word: string, raw: seq<string>): (r: seq<string>)
    ensures |r| == |raw|
    ensures forall i :: 0 <= i < |raw| ==> r[i] == word + raw[i]
    decreases |raw|
  {
    if raw == [] then [] else [word + raw[0]] + Prefixed(word, raw[1..])
  }

  /** A lone completion that trims to the same text as the word adds nothing and is dropped. */
  predicate AddsNothing(word: string, shown: seq<string>)
  {
    |shown| == 1 && Trim(shown[0]) == Trim(word)
  }

  /**
   * What `completions` holds once the query tagged `handle` has finished, when the
   * counter then stands at `handleCount`. An empty or null word always empties the list;
   * otherwise only the query of the latest request writes, and a query that threw
   * writes nothing.
   */
  function ResolveCompletions(current: Option<seq<string>>, handle: int, handleCount: int,
                              word: Option<string>, answer: Answer): (r: Option<seq<string>>)
    ensures word.None? || word == Some("") ==> r == Some([])
    ensures word.Some? && word.value != "" && (handle != handleCount || answer.Threw?) ==> r == current
    ensures word.Some? && word.value != "" && handle == handleCount && answer.NullCompletions? ==> r == None
    ensures word.Some? && word.value != "" && handle == handleCount && answer.Completions? ==>
      r.Some? && forall c :: c in r.value ==> |word.value| <= |c| && c[..|word.value|] == word.value
  {
    if word.None? || word.value == "" then Some([])
    else if answer.Threw? || handle != handleCount then current
    else if answer.NullCompletions? then None
    else
      var shown := Prefixed(word.value, answer.raw);
      if AddsNothing(word.value, shown) then Some([]) else Some(shown)
  }

  /**
   * For the latest request on a non-empty word, the list written is the word followed by
   * each raw ending, in order, unless there is exactly one ending and it is white space
   * only; a lone ending is dropped exactly when it is white space only.
   */
  lemma FreshCompletionsWritten(current: Option<seq<string>>, handle: int, word: string, raw: seq<string>)
    requires word != ""
    ensures var r := ResolveCompletions(current, handle, handle, Some(word), Completions(raw));
      r == if |raw| == 1 && AllWhiteSpace(raw[0]) then Some([]) else Some(Prefixed(word, raw))
  {
    if |raw| == 1 {
      assert Prefixed(word, raw)[0] == word + raw[0];
      TrimUnchangedIff(word, raw[0]);
    }
  }

  class AutocompleteProvider {
    /** The completions for the latest word; None stands for the null array. */
    var completions: Option<seq<string>>
    /** The number of requests made so far; each query is tagged with one of its values. */
    var handleCount: int

    constructor ()
      ensures completions == None && handleCount == 0
    {
      completions := None;
      handleCount := 0;
    }

    /**
     * The part of `SetInput` that runs on the caller's side: a new request is counted.
     * `handle` is the tag the query for `word` gets when it starts before any other
     * request. The word itself is only read by the query, which is `Complete`: the
     * caller passes the same word to it.
     */
    method SetInput(word: Option<string>) returns (handle: int)
      modifies this
      ensures handleCount == old(handleCount) + 1
      ensures handle == handleCount
      ensures completions == old(completions)
    {
      handleCount := handleCount + 1;
      handle := handleCount;
    }

    /**
     * The background query for `word`, tagged `handle`, run as one step. The raw endings
     * are prefixed with the word in place, one slot at a time, before the list is published.
     */
    method Complete(handle: int, word: Option<string>, answer: Answer)
      modifies this
      ensures handleCount == old(handleCount)
      ensures completions == ResolveCompletions(old(completions), handle, old(handleCount), word, answer)
    {
      if word.Some? && word.value != "" {
        if answer.Threw? {
          return;
        }
        if handle == handleCount {
          if answer.NullCompletions? {
            completions := None;
          } else {
            var raw := answer.raw;
            var slots := new string[|raw|](i requires 0 <= i < |raw| => raw[i]);
            for i := 0 to slots.Length
              modifies slots
              invariant forall j :: 0 <= j < i ==> slots[j] == word.value + raw[j]
              invariant forall j :: i <= j < slots.Length ==> slots[j] == raw[j]
            {
              slots[i] := word.value + slots[i];
            }
            assert slots[..] == Prefixed(word.value, raw);
            if slots.Length == 1 && Trim(slots[0]) == Trim(word.value) {
              completions := Some([]);
            } else {
              completions := Some(slots[..]);
            }
          }
        }
      } else {
        completions := Some([]);
      }
    }
  }

  /**
   * Two requests in a row, then the first query finishes: for a non-empty word its
   * answer is discarded and the list keeps whatever it held. An empty word is not
   * checked against the counter, so even that stale query empties the list.
   */
  method StaleQueryDiscarded(provider: AutocompleteProvider, first: string, second: string, answer: Answer)
    modifies provider
    ensures first != "" ==> provider.completions == old(provider.completions)
    ensures first == "" ==> provider.completions == Some([])
    ensures provider.handleCount == old(provider.handleCount) + 2
  {
    var h1 := provider.SetInput(Some(first));
    var h2 := provider.SetInput(Some(second));
    provider.Complete(h1, Some(first), answer);
  }
}
