# Typing speed test — a Dafny model

This project models the browser typing-speed test in `js/`:

- the metrics calculation and its saved history (`metricsService.js`);
- the choice, cleaning and word count of the lines to type, with the bounded retry loop
  over a remote and a local source (`textService.js`);
- the 60-second countdown timer (`timerService.js`);
- what the display functions compute, without the HTML (`uiService.js`);
- the shared session state with its two-line lookahead queue (`main.js`);
- the input, Backspace and live-metrics handlers (`eventHandlers.js`).

Module by file:

| file | module | source |
|---|---|---|
| `option.dfy` | `Opt` | an `Option` type, for `null` and for failed calls |
| `text.dfy` | `Text` | `js/textService.js`, plus `join(' ')` |
| `metrics.dfy` | `Scoring` | `js/metricsService.js` |
| `timer.dfy` | `Timers` | `js/timerService.js` |
| `ui.dfy` | `Ui` | `js/uiService.js` |
| `session.dfy` | `Session` | the `appState` object of `js/main.js` |
| `handlers.dfy` | `Handlers` | `js/eventHandlers.js` |

The pure helpers are functions, each with lemmas that tie it to an independent description.
Code that updates state in place is imperative Dafny:

- `Timer` and `appState` are classes whose methods modify their fields.
- The counting loop of `calculateMetrics` is a `for` loop, proved against the ghost function
  `MetricsOf`.
- The attempt loop of `fetchRandomText` is a `while` loop, proved against the function
  `Fetched`.
- The queue loops of `resetTest` and `fetchAndSetNewLine` keep their loops.

The environment is passed in as parameters:

- A source call is a `Text.Source`: either a failure, or the candidate lines together with
  the index `Math.random` would pick.
- `fetchRandomText` takes its five attempts as a sequence.
- The session methods take, in order, the texts that their successive `fetchRandomText`
  calls return.
- Local storage is a `Scoring.MetricsStore` holding an abstract stored value.
- A save date is an opaque string.

Some behaviour of the code is easy to mistake for something else, and the model keeps it as
the code has it:

- There is no overflow guard. An input that jumps past the reference length is accepted, and
  it does not complete the line (`Handlers.OnInput`).
- Cleaning strips only a run of punctuation at the very end of a fetched line. Leading
  punctuation of a line with a letter stays (`Text.CleanTextKeepsLeadingPunct`).
- When the queue is empty, `fetchAndSetNewLine` keeps the current line
  (`Session.AppState.FetchAndSetNewLine`).
- There is no line history. The completed-line arrays are never appended to, and the
  Backspace handler calls members that do not exist (see Findings).
- Correct characters typed in zero elapsed seconds give `Infinity` words per minute
  (`Scoring.Wpm`).

## Model

| member | source | states |
|---|---|---|
| Text.Trim | js/textService.js:8 | the result is a contiguous part of the text with only whitespace before and after it, and none at its own ends; it is empty exactly when the text is all whitespace; an already trimmed text is unchanged |
| Text.Split | js/uiService.js:21 | `split(/\s+/)` gives at least one field, and no field contains whitespace |
| Text.SplitCountsRuns | js/textService.js:8 | splitting gives exactly one field more than there are maximal whitespace runs |
| Text.CountWords | js/textService.js:8 | every text counts at least one word, the empty and the blank text included |
| Text.CountWordsIsRunsPlusOne | js/textService.js:8 | the word count is one plus the number of whitespace runs inside the trimmed text; a blank text counts one |
| Text.Join | js/main.js:75-76 | no words join to the empty text, and a single word joins to itself |
| Text.JoinLength | js/main.js:75-76 | the joined text is as long as the words together plus one space per gap |
| Text.SplitJoin | js/uiService.js:21 | non-empty words without whitespace, joined with single spaces and split again, come back unchanged |
| Text.DefaultTextWords | js/textService.js:45 | the fallback sentence has twelve words |
| Text.StripTrailingPunct | js/textService.js:6 | the result is a prefix of the text that does not end in punctuation, and only punctuation was removed from the end |
| Text.RemoveInvisible | js/textService.js:6 | no U+200B, U+200C, U+200D, U+FEFF or U+00A0 remains; every other character is kept exactly as often as it occurs; a text without them is unchanged |
| Text.RemoveInvisibleAppend | js/textService.js:6 | deletion keeps the order of the rest: cleaning a concatenation cleans each part |
| Text.CleanText | js/textService.js:6 | the cleaned text has no invisible character and no leading or trailing whitespace, and is no longer than the input |
| Text.CleanTextKeeps | js/textService.js:6 | a text with no invisible character, no outer whitespace and no final punctuation is unchanged |
| Text.CleanTextKeepsLeadingPunct | js/textService.js:6 | on a line that passed the filter, and so has a letter, leading punctuation survives cleaning as the first character |
| Text.CleanTextKeepsFirst | js/textService.js:6 | an ASCII text that starts with a non-space and has a non-punctuation character keeps its first character through cleaning |
| Text.CleanTextKeepsPunctBeforeZeroWidth | js/textService.js:6 | punctuation followed by a final zero-width space survives, while the zero-width space is deleted |
| Text.CleanTextShortensPunct | js/textService.js:6 | a text that ends in punctuation always loses it |
| Text.CleanTextKeepsPunctBeforeSpace | js/textService.js:6 | punctuation followed by a final space survives ("Hi! " cleans to "Hi!") |
| Text.CleanTextNotIdempotent | js/textService.js:6 | cleaning twice can differ from cleaning once |
| Text.HasAsciiLetter | js/textService.js:7 | true exactly when some character is an ASCII letter |
| Text.AllAscii | js/textService.js:7 | true exactly when every character code is below 128 |
| Text.IsLatin | js/textService.js:7 | some ASCII letter, and every character ASCII, in both directions |
| Text.IsValidLine | js/textService.js:9 | a line is valid exactly when it has no underscore and is Latin |
| Text.ValidLineNotBlank | js/textService.js:9 | a Latin line is never blank after trimming, so the blank test adds nothing |
| Text.ValidLines | js/textService.js:18 | the filter keeps no more lines than it is given |
| Text.ValidLinesExact | js/textService.js:18 | the filter keeps exactly the valid lines of the input: each kept line is valid and from the input, and no valid line is dropped |
| Text.Choose | js/textService.js:11-33 | a source yields a cleaned valid candidate; it fails exactly when it is unavailable or no candidate is valid |
| Text.AttemptText | js/textService.js:38 | the remote text wins whenever it exists, even when too short; the local outcome is used only after a remote failure; the attempt fails only when both fail |
| Text.AttemptFromSources | js/textService.js:38 | an attempt's text is a cleaned valid line of one of its sources, of the remote one whenever that one yields a text |
| Text.FirstAcceptedIsFirst | js/textService.js:36-39 | the attempt found is accepted, and every earlier one was rejected |
| Text.Fetched | js/textService.js:39-45 | whatever fetchRandomText returns has at least eight words |
| Text.FetchedIsFirstAccepted | js/textService.js:35-45 | the result is the text of the first accepted attempt, or the default sentence when none is accepted |
| Text.FetchRandomText | js/textService.js:35-45 | the loop over five attempts returns the first accepted text or the default sentence, always with at least eight words, and never fails |
| Scoring.MatchSet | js/metricsService.js:7-10 | an index counts exactly when it is typed, lies inside the reference, and both characters match there |
| Scoring.CorrectCountBounds | js/metricsService.js:5-10 | the correct count is at most the typed length and at most the reference length |
| Scoring.CorrectCountAppend | js/metricsService.js:7-10 | one more typed character adds one correct character exactly when it matches the reference at its position |
| Scoring.CorrectCountPrefix | js/metricsService.js:7-10 | every typed character is correct exactly when the typed text is a prefix of the reference |
| Scoring.RoundHalfUp | js/metricsService.js:12-13 | `Math.round(n/d)` for non-negative n: the integer within half a unit of the quotient, halves rounded up |
| Scoring.Accuracy | js/metricsService.js:13 | 0 when nothing was typed; otherwise 100·correct/total rounded half up (within half a point of the exact value), between 0 and 100, with 100 when all and 0 when none are correct |
| Scoring.Wpm | js/metricsService.js:12 | 0 when nothing is correct; `Infinity` exactly when no time elapsed and something is correct; otherwise 12·correct/elapsed rounded half up |
| Scoring.MetricsOf | js/metricsService.js:4-15 | the total is the typed length, the correct count lies between 0 and it, and the accuracy is at most 100 |
| Scoring.CalculateMetrics | js/metricsService.js:4-15 | the counting loop returns exactly the metrics of the typed text, the reference and the elapsed time |
| Scoring.PrefixIsAccurate | js/metricsService.js:13 | a non-empty prefix of the reference scores 100% with every character correct |
| Scoring.AppendOneCharacter | js/metricsService.js:7-10 | one more typed character adds exactly one to the total and zero or one to the correct count |
| Scoring.HelloHallo | js/metricsService.js:4-15 | "hello" against "hallo" in 60 seconds gives 1 wpm, 80% accuracy, 4 of 5 correct |
| Scoring.ToRecord | js/metricsService.js:19 | a saved entry keeps the metrics and the date; an infinite wpm reads back as null |
| Scoring.MetricsStore.GetMetrics | js/metricsService.js:23-29 | the saved list, or the empty list when the key is absent or unparsable |
| Scoring.MetricsStore.SaveMetrics | js/metricsService.js:17-21 | exactly one dated entry is appended after the earlier ones, in order |
| Scoring.MetricsStore.ClearMetrics | js/metricsService.js:31-33 | after clearing, the history reads back empty |
| Timers.Timer.constructor | js/timerService.js:3-9 | a new timer has the full duration left and is not running |
| Timers.Timer.Start | js/timerService.js:10-13 | whatever the previous state, the timer runs again with the full duration left |
| Timers.Timer.Tick | js/timerService.js:13-20 | without an interval nothing happens; otherwise one second less, reported to onTick; at zero or below the interval stops and onEnd fires once; a positive duration ends after exactly that many ticks, at zero |
| Timers.Timer.Stop | js/timerService.js:22-25 | the timer no longer runs, and the time left is kept |
| Timers.Timer.Reset | js/timerService.js:26-29 | not running, with the full duration left |
| Timers.Timer.GetTimeLeft | js/timerService.js:30-32 | reads the time left without changing anything; under a positive duration it lies between 0 and the duration |
| Ui.MarkAt | js/uiService.js:7 | correct exactly when typed and equal, unmarked exactly when not yet typed |
| Ui.RenderText | js/uiService.js:4-13 | one cell per reference character, in order; cell i is correct, incorrect or unmarked by comparison with the input, and is the cursor exactly when i is the input length |
| Ui.OneCurrentCell | js/uiService.js:8 | there is a cursor cell exactly when the input is shorter than the reference, and never two |
| Ui.CorrectCellsAreCounted | js/uiService.js:7 | the cells shown as correct are exactly the characters calculateMetrics counts |
| Ui.RenderPreviousText | js/uiService.js:42-55 | nothing for an empty reference; otherwise the marking of renderText without a cursor |
| Ui.RenderQueueTexts | js/uiService.js:15-18 | at most the first two queued lines, in reverse order, the first shown labelled third |
| Ui.CurrentWordIndex | js/uiService.js:22 | the number of whitespace runs inside the trimmed input, plus one after a final space; 0 for an empty input |
| Ui.CurrentWord | js/uiService.js:20-24 | the reference's word at the current-word index, or "" when the index is past the last word |
| Ui.CurrentWordAfterSpace | js/uiService.js:20-24 | after the first k words of a line and a space, the word shown is word k |
| Ui.CurrentWordWhileTyping | js/uiService.js:20-24 | in the middle of word k, after the first k words and a non-empty prefix of word k, the word shown is word k |
| Ui.WpmValue | js/uiService.js:59 | a null wpm compares as 0 |
| Ui.ProgressRows | js/uiService.js:57-63 | rows numbered from 1, improved exactly when not first and faster than the previous row, missing counts shown as 0 |
| Session.AppState.constructor | js/main.js:9-18 | the initial state: empty texts and queue, no timer, no preloaded line, flags false |
| Session.AppState.ResetTest | js/main.js:19-42 | flags, input and histories cleared; any old timer stopped and a fresh 60-second one installed, not running; the line replaced only by a non-empty text; two lines queued and a third preloaded |
| Session.AppState.StartNewTest | js/main.js:43-51 | the first fetched text becomes the line to type, and the session is reset around it |
| Session.AppState.FetchAndSetNewLine | js/main.js:52-71 | the queue head becomes the line, or the line is kept when the queue is empty; the input is cleared; the preloaded line joins the queue, which is topped up to two; a length-2 queue needs no fetch; a new line is preloaded; flags, histories and timer unchanged |
| Session.AppState.Elapsed | js/main.js:77 | the seconds elapsed never exceed the test length |
| Session.AppState.EndTest | js/main.js:72-82 | the test ends and the timer stops; all lines typed against all references, joined with single spaces, are scored over the seconds elapsed; exactly one snapshot is saved |
| Session.AppState.TimerTick | js/main.js:31 | the test ends exactly on the tick that takes the last second; it then scores the full minute and saves one snapshot; any other tick saves nothing, takes one second off a running timer and leaves an idle one as it was |
| Handlers.OnInput | js/eventHandlers.js:41-68 | ignored after the end and at unchanged length; a longer input is stored and the first one starts the timer; the line completes exactly at the reference length; a shorter input is stored and starts nothing; outside a completion the line, the queue and the preloaded line stay |
| Handlers.OnInputAsWritten | js/eventHandlers.js:41-68 | a changed length is stored and the first longer input starts the timer, other inputs leave the timer alone; but the line never advances, not even when typed in full |
| Handlers.DropLast | js/eventHandlers.js:92 | all characters but the last; the empty text stays empty |
| Handlers.OnBackspace | js/eventHandlers.js:86-98 | the key is taken over exactly when the field and the input are empty and there is a previous line; that line is then the one to type and the input is its restored text less the last character; otherwise nothing changes |
| Handlers.OnBackspaceAsWritten | js/eventHandlers.js:86-98 | the key is never taken over |
| Handlers.SampleMetrics | js/eventHandlers.js:12-20 | computes only while a test runs, scoring all lines joined with single spaces over the elapsed seconds; in the first second a correct character gives an infinite wpm |

## Left out

- Network, `fetch`, `response.json` and `Math.random` are not modelled: sources, random picks and fetched texts are parameters.
- Session methods take the fetched texts as parameters. `Text.FetchRandomText` proves that such a text has at least eight words, but the session does not carry that fact.
- `async`/`await` is not modelled; every operation runs to completion. In particular `startNewTest` is not awaited when the page loads, and events that arrive while it runs are not modelled.
- The `try`/`catch` blocks of `startNewTest` and `fetchAndSetNewLine` are not modelled. The model assumes that every page element these methods name exists; then `fetchRandomText` is the only call that could fail, and it never does. If the page lacks `typing-input` (js/main.js:28 and :58; the handlers use `hidden-input`, js/eventHandlers.js:23), the calls throw. `resetTest` then stops at line 28, after clearing its fields but before the new timer (line 31) and the queue (lines 33-37) exist, and `startNewTest` only shows its error. `fetchAndSetNewLine` stops at line 58, after taking the queue head and clearing the input but before pushing the preloaded line.
- `localStorage` and JSON are not modelled beyond an abstract stored value. A stored value that parses but is not a list is not modelled.
- `new Date().toISOString()` is an opaque date string.
- DOM writes are not modelled: `renderTimer`, `renderMetrics`, `renderError`, `clearError`, `renderLoading`, the HTML strings, and the redraws after each change.
- Focus maintenance, paste blocking, the Enter, Escape and button handlers, and `removeEventHandlers` are not modelled: they only call `startNewTest` and `clearMetrics`, or touch the DOM and intervals.
- `js/progressService.js` and `js/chartLoader.js` are not part of this model.
- Scoring.RoundHalfUp: exact rational rounding, not JavaScript's floating-point division followed by `Math.round`.
- Text.IsPunct: covers the ASCII members of `\p{P}`. That is exact on lines that passed `isLatin`, but not for arbitrary Unicode text.
- Text.IsSpace: covers the ASCII whitespace of `\s` and `trim`. JavaScript's `trim` also strips U+00A0, U+FEFF, U+1680, U+2000–U+200A, U+2028, U+2029, U+202F, U+205F and U+3000, and `cleanText` deletes only the first two of these. Nothing is lost in `cleanText` only because the lines it cleans passed `isLatin` and are therefore ASCII. In `renderCurrentWord` the raw input is trimmed and split, so a typed U+00A0 or other non-ASCII space separates words in JavaScript but not in `Ui.CurrentWordIndex`.
- Lengths and indices count Unicode code points, where JavaScript's `.length`, `[i]` and `slice(0, -1)` count UTF-16 code units. A typed character outside the Basic Multilingual Plane counts 2 in JavaScript and 1 here. This changes the length comparisons of the input handler, the completion test and `totalChars`, and in JavaScript `slice(0, -1)` would leave half of such a character.
- Session.AppState.FetchAndSetNewLine: requires a preloaded line. JavaScript would push `null` into the queue when there is none, which the session never reaches after a reset.
- Handlers.OnBackspace: `goToPreviousLine` does not exist. Its effect is taken to be the parameters: `previousText` becomes the line to type and `restored` the typed text. What it would do to the queue is unknown, so the queue and the preloaded line are left as they were.
- Handlers.OnInput: `nextLine` does not exist and is taken to be `fetchAndSetNewLine`.
- Handlers.SampleMetrics: the 100 ms interval is not modelled; the method is one run of its body.
- Session.AppState.TimerTick: the onTick redraw of the countdown is not modelled.

## Findings

| source | as written | input that shows it | evidently intended | confidence | as-written member | corrected member |
|---|---|---|---|---|---|---|
| js/eventHandlers.js:55 | `appState.updateUI()` is called, but the state object defines no such member, so the call throws a TypeError right after the typed text is stored; the completion check and `appState.nextLine()` (also undefined, line 59) never run | any lengthening input that reaches the reference length, e.g. typing the final character of a line | redraw, then on completion move to the next queued line (`fetchAndSetNewLine`) and clear the field | high; not executed | Handlers.OnInputAsWritten | Handlers.OnInput |
| js/eventHandlers.js:88 | the guard reads `appState.previousText`, which is never defined, so it is always false; `goToPreviousLine` (line 90) does not exist either | Backspace with an empty field and an empty input after a completed line | return to the previous line and drop its last character | high; not executed | Handlers.OnBackspaceAsWritten | Handlers.OnBackspace |
