/** The keyboard handlers of js/eventHandlers.js: the `oninput` transition of the hidden
    input field, the Backspace branch of `onkeydown`, and the live metrics sampler.

    The handlers call `appState.updateUI`, `appState.nextLine` and
    `appState.goToPreviousLine` and read `appState.previousText`, none of which the state
    object defines. Each handler is modelled twice: as written, where the missing members
    have their JavaScript effect (a TypeError, or an undefined and therefore false value),
    and as evidently intended, with nextLine being fetchAndSetNewLine and goToPreviousLine
    restoring a previous line supplied by the caller. */
module Handlers {
  import opened Opt
  import opened Scoring
  import opened Session
  import Text

  /** `oninput` as evidently intended. `newValue` is the field's new content; `texts` are
      the lines fetchRandomText returns should the line be completed. The result is the
      field's content afterwards. */
  method OnInput(app: AppState, newValue: string, texts: seq<string>) returns (field: string)
    requires app.Valid()
    requires |texts| >= 2
    modifies app, app.timer
    ensures app.Valid() && app.timer == old(app.timer)
    // after the end of the test every input is ignored
    ensures old(app.testEnded) ==>
              field == newValue && app.userInput == old(app.userInput) && app.testStarted == old(app.testStarted)
              && app.referenceText == old(app.referenceText) && app.queue == old(app.queue)
              && app.preloadLine == old(app.preloadLine)
              && app.timer.running == old(app.timer.running) && app.timer.timeLeft == old(app.timer.timeLeft)
    // an input of unchanged length is ignored, even when its content differs
    ensures !old(app.testEnded) && |newValue| == old(|app.userInput|) ==>
              field == newValue && app.userInput == old(app.userInput) && app.testStarted == old(app.testStarted)
              && app.referenceText == old(app.referenceText) && app.queue == old(app.queue)
              && app.preloadLine == old(app.preloadLine)
              && app.timer.running == old(app.timer.running) && app.timer.timeLeft == old(app.timer.timeLeft)
    // a longer input: the first one starts the timer, later ones leave it alone
    ensures !old(app.testEnded) && |newValue| > old(|app.userInput|) ==>
              app.testStarted
              && (!old(app.testStarted) ==> app.timer.running && app.timer.timeLeft == TestSeconds)
              && (old(app.testStarted) ==>
                    app.timer.running == old(app.timer.running) && app.timer.timeLeft == old(app.timer.timeLeft))
    // it completes the line exactly when it reaches the reference length
    ensures !old(app.testEnded) && |newValue| > old(|app.userInput|) && |newValue| == old(|app.referenceText|) ==>
              field == [] && app.userInput == [] && app.referenceText == old(app.queue)[0]
              && app.queue == [old(app.queue)[1], old(app.preloadLine).value] && app.preloadLine == Some(texts[0])
    ensures !old(app.testEnded) && |newValue| > old(|app.userInput|) && |newValue| != old(|app.referenceText|) ==>
              field == newValue && app.userInput == newValue
              && app.referenceText == old(app.referenceText) && app.queue == old(app.queue)
              && app.preloadLine == old(app.preloadLine)
    // a shorter input replaces the typed text and neither starts the timer nor moves on
    ensures !old(app.testEnded) && |newValue| < old(|app.userInput|) ==>
              field == newValue && app.userInput == newValue && app.testStarted == old(app.testStarted)
              && app.referenceText == old(app.referenceText) && app.queue == old(app.queue)
              && app.preloadLine == old(app.preloadLine)
              && app.timer.running == old(app.timer.running) && app.timer.timeLeft == old(app.timer.timeLeft)
    ensures app.testEnded == old(app.testEnded)
  {
    field := newValue;
    if app.testEnded {
      return;
    }
    var oldLength := |app.userInput|;
    if |newValue| > oldLength {
      if !app.testStarted {
        app.testStarted := true;
        app.timer.Start();
      }
      app.userInput := newValue;
      if |app.userInput| == |app.referenceText| {
        app.FetchAndSetNewLine(texts);
        field := [];
      }
    } else if |newValue| < oldLength {
      app.userInput := newValue;
    }
  }

  /** `oninput` as written: the call to the undefined `updateUI` throws a TypeError right
      after the typed text is stored, so the completion check below it never runs and the
      line never advances, even when it is typed in full. */
  method OnInputAsWritten(app: AppState, newValue: string) returns (field: string)
    requires app.Valid()
    modifies app, app.timer
    ensures app.Valid() && app.timer == old(app.timer)
    ensures field == newValue
    ensures app.referenceText == old(app.referenceText) && app.queue == old(app.queue)
    ensures app.preloadLine == old(app.preloadLine) && app.testEnded == old(app.testEnded)
    ensures !old(app.testEnded) && |newValue| != old(|app.userInput|) ==> app.userInput == newValue
    ensures (old(app.testEnded) || |newValue| == old(|app.userInput|)) ==> app.userInput == old(app.userInput)
    ensures !old(app.testEnded) && |newValue| > old(|app.userInput|) ==>
              app.testStarted
              && (!old(app.testStarted) ==> app.timer.running && app.timer.timeLeft == TestSeconds)
              && (old(app.testStarted) ==>
                    app.timer.running == old(app.timer.running) && app.timer.timeLeft == old(app.timer.timeLeft))
    ensures (old(app.testEnded) || |newValue| <= old(|app.userInput|)) ==>
              app.testStarted == old(app.testStarted)
              && app.timer.running == old(app.timer.running) && app.timer.timeLeft == old(app.timer.timeLeft)
    // in particular a line typed in full stays on screen, and nothing moves on
    ensures !old(app.testEnded) && |newValue| > old(|app.userInput|) && |newValue| == old(|app.referenceText|) ==>
              field == newValue && app.userInput == newValue && app.referenceText == old(app.referenceText)
  {
    field := newValue;
    if app.testEnded {
      return;
    }
    var oldLength := |app.userInput|;
    if |newValue| > oldLength {
      if !app.testStarted {
        app.testStarted := true;
        app.timer.Start();
      }
      app.userInput := newValue;
      // appState.updateUI is undefined: the TypeError ends the handler here
      return;
    } else if |newValue| < oldLength {
      app.userInput := newValue;
      return;
    }
  }

  /** The result of a keydown: whether the handler took over the key, and the field's
      content afterwards. */
  datatype KeyResult = KeyResult(handled: bool, field: string)

  /** `slice(0, -1)`: all but the last character; the empty text stays empty. */
  function DropLast(s: string): (r: string)
    ensures s == [] ==> r == []
    ensures s != [] ==> |r| == |s| - 1 && s == r + [s[|s| - 1]]
  {
    if s == [] then [] else s[..|s| - 1]
  }

  /** Backspace as evidently intended: with an empty field, nothing typed on this line and
      a previous line to return to, goToPreviousLine makes `previousText` the line to type
      again and `restored` (what was typed on it) the typed text, and one character of that
      is dropped at once; otherwise the key is left to the browser. */
  method OnBackspace(app: AppState, field: string, previousText: string, restored: string)
      returns (r: KeyResult)
    modifies app
    ensures r.handled <==> field == [] && old(app.userInput) == [] && previousText != []
    ensures r.handled ==> app.referenceText == previousText
    ensures r.handled ==> app.userInput == DropLast(restored) && r.field == app.userInput
    ensures !r.handled ==> app.userInput == old(app.userInput) && r.field == field
    ensures !r.handled ==> app.referenceText == old(app.referenceText)
    ensures app.queue == old(app.queue) && app.preloadLine == old(app.preloadLine)
    ensures app.allReferenceTexts == old(app.allReferenceTexts) && app.allUserInputs == old(app.allUserInputs)
    ensures app.testStarted == old(app.testStarted) && app.testEnded == old(app.testEnded)
    ensures app.timer == old(app.timer)
    ensures old(app.Valid()) ==> app.Valid()
  {
    if field == [] && |app.userInput| == 0 && previousText != [] {
      // goToPreviousLine
      app.referenceText := previousText;
      app.userInput := restored;
      var minusOne := DropLast(app.userInput);
      app.userInput := minusOne;
      return KeyResult(true, minusOne);
    }
    return KeyResult(false, field);
  }

  /** Backspace as written: `appState.previousText` is undefined, hence false, so the
      handler never takes over the key and never changes the state. */
  method OnBackspaceAsWritten(app: AppState, field: string) returns (r: KeyResult)
    ensures !r.handled && r.field == field
  {
    // the guard reads appState.previousText, which is undefined: the branch is never taken
    r := KeyResult(false, field);
  }

  /** The metrics sampler of the 100 ms interval: only while a test runs, it scores all
      typed lines against their references, each list joined with single spaces, over the
      seconds elapsed (one when there is no timer). In the first second that is zero, so any
      correct character gives an infinite wpm. */
  method SampleMetrics(app: AppState) returns (m: Option<Metrics>)
    requires app.TimerOk()
    ensures m.Some? <==> app.testStarted && !app.testEnded
    ensures m.Some? ==>
              m.value == MetricsOf(Text.Join(app.allUserInputs + [app.userInput]),
                                   Text.Join(app.allReferenceTexts + [app.referenceText]),
                                   if app.timer != null then app.timer.duration - app.timer.timeLeft else 1)
    ensures (m.Some? && app.timer != null && app.timer.timeLeft == app.timer.duration
             && m.value.correctChars > 0) ==> m.value.wpm.Infinite?
  {
    if !(app.testStarted && !app.testEnded) {
      return None;
    }
    var allTyped := Text.Join(app.allUserInputs + [app.userInput]);
    var allRefs := Text.Join(app.allReferenceTexts + [app.referenceText]);
    var elapsed := 1;
    if app.timer != null {
      var left := app.timer.GetTimeLeft();
      elapsed := app.timer.duration - left;
    }
    var r := CalculateMetrics(allTyped, allRefs, elapsed);
    return Some(r);
  }
}
