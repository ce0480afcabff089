/** Typing metrics (js/metricsService.js): the counting loop of calculateMetrics, its two
    rounding steps, and the saved history in the browser's local storage, seen as an
    abstract stored value. */
module Scoring {
  import opened Opt

  /** A words-per-minute figure. JavaScript yields Infinity when characters were typed
      correctly in zero elapsed seconds; every other case is a whole number. */
  datatype Rate = Finite(value: nat) | Infinite

  /** The object calculateMetrics returns. */
  datatype Metrics = Metrics(wpm: Rate, accuracy: nat, correctChars: nat, totalChars: nat)

  // ---------------------------------------------------------------- counting

  /** Indices below n where the typed character equals the reference character. An index
      past the end of the reference never matches (`reference[i]` is undefined there). */
  ghost function MatchSet(typed: string, reference: string, n: nat): (r: set<nat>)
    requires n <= |typed|
    ensures forall i: nat :: i in r <==> (i < n && i < |reference| && typed[i] == reference[i])
  {
    set i: nat | i < n && i < |reference| && typed[i] == reference[i]
  }

  /** The number of correctly typed characters. */
  ghost function CorrectCount(typed: string, reference: string): nat {
    |MatchSet(typed, reference, |typed|)|
  }

  /** Growing the prefix by one index adds that index exactly when it matches. */
  lemma MatchSetStep(typed: string, reference: string, i: nat)
    requires i < |typed|
    ensures i !in MatchSet(typed, reference, i)
    ensures |MatchSet(typed, reference, i + 1)| ==
            |MatchSet(typed, reference, i)| + (if i < |reference| && typed[i] == reference[i] then 1 else 0)
  {
    if i < |reference| && typed[i] == reference[i] {
      assert MatchSet(typed, reference, i + 1) == MatchSet(typed, reference, i) + {i};
    } else {
      assert MatchSet(typed, reference, i + 1) == MatchSet(typed, reference, i);
    }
  }

  /** At most one match per typed character, and none past the end of the reference. */
  lemma {:induction false} MatchSetBound(typed: string, reference: string, n: nat)
    requires n <= |typed|
    ensures |MatchSet(typed, reference, n)| <= n
    ensures |MatchSet(typed, reference, n)| <= |reference|
  {
    if n > 0 {
      MatchSetBound(typed, reference, n - 1);
      MatchSetStep(typed, reference, n - 1);
    } else {
      assert MatchSet(typed, reference, 0) == {};
    }
  }

  /** `correctChars <= totalChars`, and no more correct characters than the reference has. */
  lemma CorrectCountBounds(typed: string, reference: string)
    ensures CorrectCount(typed, reference) <= |typed|
    ensures CorrectCount(typed, reference) <= |reference|
  {
    MatchSetBound(typed, reference, |typed|);
  }

  /** Typing one more character raises the correct count by one exactly when it matches the
      reference character at its position. */
  lemma CorrectCountAppend(typed: string, reference: string, c: char)
    ensures CorrectCount(typed + [c], reference) ==
            CorrectCount(typed, reference) + (if |typed| < |reference| && c == reference[|typed|] then 1 else 0)
  {
    var t := typed + [c];
    assert MatchSet(t, reference, |typed|) == MatchSet(typed, reference, |typed|);
    MatchSetStep(t, reference, |typed|);
  }

  /** Every typed character is correct exactly when the typed text is a prefix of the
      reference. */
  lemma {:induction false} CorrectCountPrefix(typed: string, reference: string)
    ensures CorrectCount(typed, reference) == |typed| <==> typed <= reference
    decreases |typed|
  {
    if typed == [] {
      assert MatchSet(typed, reference, 0) == {};
    } else {
      var init, c := typed[..|typed| - 1], typed[|typed| - 1];
      assert typed == init + [c];
      CorrectCountAppend(init, reference, c);
      CorrectCountBounds(init, reference);
      CorrectCountPrefix(init, reference);
      if typed <= reference {
        assert init <= reference;
      }
    }
  }

  // ---------------------------------------------------------------- rounding

  /** Math.round(n / d) for n >= 0 and d > 0: the nearest integer, halves rounded up. */
  function RoundHalfUp(n: nat, d: nat): (r: nat)
    requires d > 0
    ensures d * (2 * r - 1) <= 2 * n < d * (2 * r + 1)
  {
    var q := (2 * n + d) / (2 * d);
    assert 2 * n + d == 2 * d * q + (2 * n + d) % (2 * d);
    q
  }

  /** Multiplication by a positive number keeps a strict order. */
  lemma MulStrict(d: int, a: int, b: int)
    requires d > 0 && a < b
    ensures d * a < d * b
  {
    assert d * b - d * a == d * (b - a);
  }

  /** A strict order between multiples of a positive number holds between the factors. */
  lemma MulCancel(d: int, a: int, b: int)
    requires d > 0 && d * a < d * b
    ensures a < b
  {
  }

  /** The rounding bracket has only one solution. */
  lemma RoundHalfUpUnique(n: nat, d: nat, r: int)
    requires d > 0
    requires d * (2 * r - 1) <= 2 * n < d * (2 * r + 1)
    ensures r == RoundHalfUp(n, d)
  {
    var q: int := RoundHalfUp(n, d);
    MulCancel(d, 2 * r - 1, 2 * q + 1);
    MulCancel(d, 2 * q - 1, 2 * r + 1);
  }

  /** `totalChars ? Math.round(correctChars / totalChars * 100) : 0`: the percentage of
      correct characters rounded half up, within half a point of the exact value. */
  function Accuracy(correct: nat, total: nat): (a: nat)
    requires correct <= total
    ensures total == 0 ==> a == 0
    ensures total > 0 ==> total * (2 * a - 1) <= 200 * correct < total * (2 * a + 1)
    ensures a <= 100
    ensures total > 0 && correct == total ==> a == 100
    ensures total > 0 && correct == 0 ==> a == 0
  {
    if total == 0 then 0
    else
      var a := RoundHalfUp(100 * correct, total);
      assert a <= 100 by {
        if a > 100 {
          MulStrict(total, 200, 2 * a - 1);
        }
      }
      assert correct == total ==> a == 100 by {
        if correct == total {
          RoundHalfUpUnique(100 * correct, total, 100);
        }
      }
      assert correct == 0 ==> a == 0 by {
        if correct == 0 {
          RoundHalfUpUnique(0, total, 0);
        }
      }
      a
  }

  /** `Math.round((correctChars / 5 / timeElapsed) * 60) || 0`: twelve times the correct
      characters per second, rounded. With no time elapsed the quotient is NaN (which
      `|| 0` turns into 0) when nothing is correct, and Infinity otherwise. */
  function Wpm(correct: nat, elapsed: nat): (w: Rate)
    ensures correct == 0 ==> w == Finite(0)
    ensures w.Infinite? <==> elapsed == 0 && correct > 0
    ensures elapsed > 0 ==>
              w.Finite? && elapsed * (2 * w.value - 1) <= 24 * correct < elapsed * (2 * w.value + 1)
  {
    if elapsed == 0 then
      (if correct == 0 then Finite(0) else Infinite)
    else
      var r := RoundHalfUp(12 * correct, elapsed);
      assert correct == 0 ==> r == 0 by {
        if correct == 0 {
          RoundHalfUpUnique(0, elapsed, 0);
        }
      }
      Finite(r)
  }

  /** What calculateMetrics returns for the typed text, the reference and the seconds
      elapsed. */
  ghost function MetricsOf(typed: string, reference: string, elapsed: nat): (m: Metrics)
    ensures m.totalChars == |typed|
    ensures m.correctChars <= m.totalChars && m.correctChars <= |reference|
    ensures m.accuracy <= 100
  {
    var c := CorrectCount(typed, reference);
    CorrectCountBounds(typed, reference);
    Metrics(Wpm(c, elapsed), Accuracy(c, |typed|), c, |typed|)
  }

  /** calculateMetrics: one pass over the typed text, counting the characters that match
      the reference at the same position. */
  method CalculateMetrics(typed: string, reference: string, elapsed: nat) returns (m: Metrics)
    ensures m == MetricsOf(typed, reference, elapsed)
  {
    var correctChars, totalChars := 0, 0;
    for i := 0 to |typed|
      invariant totalChars == i
      invariant correctChars == |MatchSet(typed, reference, i)|
    {
      MatchSetStep(typed, reference, i);
      if i < |reference| && typed[i] == reference[i] {
        correctChars := correctChars + 1;
      }
      totalChars := totalChars + 1;
    }
    CorrectCountBounds(typed, reference);
    m := Metrics(Wpm(correctChars, elapsed), Accuracy(correctChars, totalChars), correctChars, totalChars);
  }

  /** A typed text that is a non-empty prefix of the reference scores 100% accuracy. */
  lemma PrefixIsAccurate(typed: string, reference: string, elapsed: nat)
    requires typed != [] && typed <= reference
    ensures MetricsOf(typed, reference, elapsed).accuracy == 100
    ensures MetricsOf(typed, reference, elapsed).correctChars == |typed|
  {
    CorrectCountPrefix(typed, reference);
  }

  /** One more typed character: one more in total, and zero or one more correct. */
  lemma AppendOneCharacter(typed: string, reference: string, c: char, elapsed: nat)
    ensures MetricsOf(typed + [c], reference, elapsed).totalChars == MetricsOf(typed, reference, elapsed).totalChars + 1
    ensures MetricsOf(typed + [c], reference, elapsed).correctChars - MetricsOf(typed, reference, elapsed).correctChars in {0, 1}
  {
    CorrectCountAppend(typed, reference, c);
  }

  /** "hello" typed against "hallo" in one minute: 4 of 5 correct, 80% accuracy, 1 wpm. */
  lemma HelloHallo()
    ensures MetricsOf("hello", "hallo", 60) == Metrics(Finite(1), 80, 4, 5)
  {
    assert MatchSet("hello", "hallo", 5) == {0, 2, 3, 4};
    RoundHalfUpUnique(400, 5, 80);
    RoundHalfUpUnique(48, 60, 1);
  }

  // ---------------------------------------------------------------- saved history

  /** One saved entry: the metrics plus the save date. JSON.stringify writes Infinity as
      null, hence the optional wpm; entries written by older versions may lack the counts. */
  datatype Record = Record(wpm: Option<nat>, accuracy: nat, correctChars: Option<nat>,
                           totalChars: Option<nat>, date: string)

  /** The value under the storage key: absent, not parseable as a list, or a list. */
  datatype Stored = Absent | Corrupt | Entries(records: seq<Record>)

  /** `{...metrics, date}` as it reads back after a JSON round trip. */
  function ToRecord(m: Metrics, date: string): (r: Record)
    ensures r.wpm.Some? <==> m.wpm.Finite?
    ensures m.wpm.Finite? ==> r.wpm.value == m.wpm.value
    ensures r.accuracy == m.accuracy && r.date == date
    ensures r.correctChars == Some(m.correctChars) && r.totalChars == Some(m.totalChars)
  {
    Record(if m.wpm.Finite? then Some(m.wpm.value) else None,
           m.accuracy, Some(m.correctChars), Some(m.totalChars), date)
  }

  /** The browser's local storage under the metrics key. */
  class MetricsStore {
    var stored: Stored

    constructor (initial: Stored)
      ensures stored == initial
    {
      stored := initial;
    }

    /** getMetrics: the saved list, or the empty list when the key is absent or its value
        cannot be parsed. */
    function GetMetrics(): (r: seq<Record>)
      reads this
      ensures stored.Entries? ==> r == stored.records
      ensures !stored.Entries? ==> r == []
    {
      if stored.Entries? then stored.records else []
    }

    /** saveMetrics: appends one dated record after the existing ones. */
    method SaveMetrics(m: Metrics, date: string)
      modifies this
      ensures GetMetrics() == old(GetMetrics()) + [ToRecord(m, date)]
      ensures stored.Entries?
    {
      var prev := GetMetrics();
      stored := Entries(prev + [ToRecord(m, date)]);
    }

    /** clearMetrics: removes the key, so the history reads back empty. */
    method ClearMetrics()
      modifies this
      ensures stored == Absent
      ensures GetMetrics() == []
    {
      stored := Absent;
    }
  }
}
