/** The shared state of a typing session (the `appState` object of js/main.js): the line
    being typed, the two-line lookahead queue with its preloaded successor, the flags, the
    countdown timer and the saving of the final metrics.

    The methods that fetch lines take the texts that their successive fetchRandomText calls
    return, in order: `texts[0]` is the first line fetched, and so on. */
module Session {
  import opened Opt
  import opened Text
  import opened Scoring
  import opened Timers

  /** The length of a test in seconds. */
  const TestSeconds: int := 60

  class AppState {
    var referenceText: string
    var userInput: string
    var timer: Timer?
    var testStarted: bool
    var testEnded: bool
    var allReferenceTexts: seq<string>
    var allUserInputs: seq<string>
    var queue: seq<string>
    var preloadLine: Option<string>

    /** The initial object literal. */
    constructor ()
      ensures referenceText == [] && userInput == [] && timer == null
      ensures !testStarted && !testEnded
      ensures allReferenceTexts == [] && allUserInputs == [] && queue == [] && preloadLine == None
    {
      referenceText := [];
      userInput := [];
      timer := null;
      testStarted := false;
      testEnded := false;
      allReferenceTexts := [];
      allUserInputs := [];
      queue := [];
      preloadLine := None;
    }

    /** A timer, when there is one, is a well-formed 60-second timer reporting both
        callbacks. */
    ghost predicate TimerOk()
      reads this, timer
    {
      timer != null ==> timer.Valid() && timer.duration == TestSeconds && timer.hasOnTick && timer.hasOnEnd
    }

    /** The state once a test has been set up: a timer exists, two lines are queued, a
        third is preloaded, and the histories are empty (nothing in the session ever
        appends to them). */
    ghost predicate Valid()
      reads this, timer
    {
      timer != null && TimerOk()
      && |queue| == 2 && preloadLine.Some?
      && allReferenceTexts == [] && allUserInputs == []
    }

    /** resetTest: clears the flags, the input and the histories, stops any previous timer
        and installs a fresh 60-second one, takes `newText` as the line to type unless it
        is empty, then queues two fetched lines and preloads a third. */
    method ResetTest(newText: string, texts: seq<string>)
      requires |texts| >= 3
      requires TimerOk()
      modifies this, timer
      ensures !testStarted && !testEnded && userInput == []
      ensures allReferenceTexts == [] && allUserInputs == []
      ensures referenceText == if newText != [] then newText else old(referenceText)
      ensures old(timer) != null ==> !old(timer).running && old(timer).timeLeft == old(timer.timeLeft)
      ensures fresh(timer) && !timer.running && timer.timeLeft == TestSeconds
      ensures queue == texts[..2] && preloadLine == Some(texts[2])
      ensures Valid()
    {
      testStarted := false;
      testEnded := false;
      userInput := [];
      allReferenceTexts := [];
      allUserInputs := [];
      queue := [];
      preloadLine := None;
      if timer != null {
        timer.Stop();
      }
      timer := new Timer(TestSeconds, true, true);
      if newText != [] {
        referenceText := newText;
      }
      for i := 0 to 2
        modifies this`queue
        invariant queue == texts[..i]
      {
        queue := queue + [texts[i]];
      }
      preloadLine := Some(texts[2]);
    }

    /** startNewTest: fetches the line to type and resets the session around it. It
        cannot fail, because fetchRandomText never does. */
    method StartNewTest(texts: seq<string>)
      requires |texts| >= 4
      requires TimerOk()
      modifies this, timer
      ensures Valid()
      ensures referenceText == texts[0]
      ensures !testStarted && !testEnded && userInput == []
      ensures fresh(timer) && !timer.running && timer.timeLeft == TestSeconds
      ensures queue == texts[1..3] && preloadLine == Some(texts[3])
    {
      var text := texts[0];
      referenceText := text;
      ResetTest(text, texts[1..]);
    }

    /** fetchAndSetNewLine: moves to the next queued line (keeping the current one when the
        queue is empty), clears the input, appends the preloaded line, tops the queue up to
        two lines and preloads a new one. */
    method FetchAndSetNewLine(texts: seq<string>)
      requires |texts| >= 2
      requires preloadLine.Some?
      modifies this
      ensures referenceText == if old(queue) == [] then old(referenceText) else old(queue)[0]
      ensures userInput == []
      ensures var kept := (if old(queue) == [] then [] else old(queue)[1..]) + [old(preloadLine).value];
              if |kept| >= 2
              then queue == kept && preloadLine == Some(texts[0])
              else queue == kept + [texts[0]] && preloadLine == Some(texts[1])
      ensures |old(queue)| == 2 ==> queue == [old(queue)[1], old(preloadLine).value]
      ensures testStarted == old(testStarted) && testEnded == old(testEnded) && timer == old(timer)
      ensures allReferenceTexts == old(allReferenceTexts) && allUserInputs == old(allUserInputs)
      ensures old(Valid()) ==> Valid()
    {
      if |queue| > 0 {
        referenceText := queue[0];
        queue := queue[1..];
      }
      userInput := [];
      queue := queue + [preloadLine.value];
      ghost var kept := queue;
      var used := 0;
      while |queue| < 2
        modifies this`queue
        invariant used <= 1 && |kept| >= 1
        invariant used == 0 ==> queue == kept
        invariant used == 1 ==> queue == kept + [texts[0]] && |kept| == 1
        decreases 2 - |queue|
      {
        queue := queue + [texts[used]];
        used := used + 1;
      }
      preloadLine := Some(texts[used]);
    }

    /** The seconds elapsed by the timer, or the full minute when there is none. */
    ghost function Elapsed(): (e: nat)
      reads this, timer
      requires TimerOk()
      ensures e <= TestSeconds
    {
      if timer != null then timer.duration - timer.timeLeft else TestSeconds
    }

    /** endTest: marks the test ended, stops the timer, scores every typed line against its
        reference, each list joined with single spaces, over the seconds elapsed, and saves
        exactly one dated snapshot of the result. */
    method EndTest(store: MetricsStore, date: string) returns (m: Metrics)
      requires TimerOk()
      modifies this, timer, store
      ensures testEnded
      ensures timer == old(timer) && TimerOk()
      ensures timer != null ==> !timer.running && timer.timeLeft == old(timer.timeLeft)
      ensures m == MetricsOf(Join(old(allUserInputs) + [old(userInput)]),
                             Join(old(allReferenceTexts) + [old(referenceText)]), old(Elapsed()))
      ensures store.GetMetrics() == old(store.GetMetrics()) + [ToRecord(m, date)]
      ensures referenceText == old(referenceText) && userInput == old(userInput)
      ensures testStarted == old(testStarted) && queue == old(queue) && preloadLine == old(preloadLine)
      ensures allReferenceTexts == old(allReferenceTexts) && allUserInputs == old(allUserInputs)
      ensures old(Valid()) ==> Valid()
    {
      testEnded := true;
      if timer != null {
        timer.Stop();
      }
      var allTyped := Join(allUserInputs + [userInput]);
      var allRefs := Join(allReferenceTexts + [referenceText]);
      var elapsed := TestSeconds;
      if timer != null {
        var left := timer.GetTimeLeft();
        elapsed := timer.duration - left;
      }
      m := CalculateMetrics(allTyped, allRefs, elapsed);
      store.SaveMetrics(m, date);
    }

    /** One second of the test timer: onTick only redraws the countdown; when the time runs
        out onEnd ends the test, which then scores the full 60 seconds. */
    method TimerTick(store: MetricsStore, date: string) returns (ended: bool, m: Option<Metrics>)
      requires Valid()
      modifies this, timer, store
      ensures timer == old(timer) && Valid()
      ensures ended <==> old(timer.running) && old(timer.timeLeft) == 1
      ensures ended ==> testEnded && !timer.running && timer.timeLeft == 0
      ensures ended ==> m.Some? && m.value == MetricsOf(old(userInput), old(referenceText), TestSeconds)
      ensures ended ==> store.GetMetrics() == old(store.GetMetrics()) + [ToRecord(m.value, date)]
      ensures !ended ==> m == None && store.GetMetrics() == old(store.GetMetrics())
      ensures !ended ==> testEnded == old(testEnded)
      ensures !ended ==> timer.running == old(timer.running)
                         && timer.timeLeft == old(timer.timeLeft) - (if old(timer.running) then 1 else 0)
      ensures referenceText == old(referenceText) && userInput == old(userInput)
      ensures testStarted == old(testStarted) && queue == old(queue) && preloadLine == old(preloadLine)
    {
      ended := timer.Tick();
      m := None;
      if ended {
        var r := EndTest(store, date);
        m := Some(r);
      }
    }
  }
}
