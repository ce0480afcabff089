/** What the display functions of js/uiService.js compute, without the HTML: the marking of
    each reference character, the queue preview, the current word and the progress table. */
module Ui {
  import opened Opt
  import opened Text
  import opened Scoring

  /** The colour class of one displayed reference character. */
  datatype Mark = Correct | Incorrect | Unmarked

  /** One displayed reference character: its mark and whether the cursor is on it. */
  datatype Cell = Cell(ch: char, mark: Mark, current: bool)

  /** The mark of reference position i: typed and equal, typed and different, or not yet
      typed. */
  function MarkAt(reference: string, input: string, i: nat): (m: Mark)
    requires i < |reference|
    ensures m == Correct <==> i < |input| && input[i] == reference[i]
    ensures m == Unmarked <==> i >= |input|
  {
    if i >= |input| then Unmarked
    else if input[i] == reference[i] then Correct
    else Incorrect
  }

  /** renderText: one cell per reference character, in order; typed characters past the
      end of the reference are not shown. The cursor sits on the first untyped position. */
  function RenderText(reference: string, input: string): (cells: seq<Cell>)
    ensures |cells| == |reference|
    ensures forall i :: 0 <= i < |cells| ==>
              cells[i].ch == reference[i]
              && (cells[i].mark == Correct <==> i < |input| && input[i] == reference[i])
              && (cells[i].mark == Incorrect <==> i < |input| && input[i] != reference[i])
              && (cells[i].mark == Unmarked <==> i >= |input|)
              && (cells[i].current <==> i == |input|)
  {
    seq(|reference|, i requires 0 <= i < |reference| => Cell(reference[i], MarkAt(reference, input, i), i == |input|))
  }

  /** There is a cursor cell exactly when the input is shorter than the reference, and
      never more than one. */
  lemma OneCurrentCell(reference: string, input: string)
    ensures (exists i :: 0 <= i < |reference| && RenderText(reference, input)[i].current) <==> |input| < |reference|
    ensures forall i, j :: (0 <= i < |reference| && 0 <= j < |reference|
              && RenderText(reference, input)[i].current && RenderText(reference, input)[j].current) ==> i == j
  {
    var cells := RenderText(reference, input);
    if |input| < |reference| {
      assert cells[|input|].current;
    }
  }

  /** The positions shown as correct are exactly the ones calculateMetrics counts, so the
      number of correct cells is `correctChars`. */
  lemma CorrectCellsAreCounted(reference: string, input: string)
    ensures (set i: nat | i < |reference| && RenderText(reference, input)[i].mark == Correct)
            == MatchSet(input, reference, |input|)
    ensures |set i: nat | i < |reference| && RenderText(reference, input)[i].mark == Correct|
            == CorrectCount(input, reference)
  {
    var cells := RenderText(reference, input);
    var shown := set i: nat | i < |reference| && cells[i].mark == Correct;
    var counted := MatchSet(input, reference, |input|);
    forall i: nat
      ensures i in shown <==> i in counted
    {
      if i < |reference| && i < |input| {
        assert cells[i].mark == Correct <==> input[i] == reference[i];
      }
    }
  }

  /** renderPreviousText: nothing for an empty reference, otherwise the marking of
      renderText without a cursor. */
  function RenderPreviousText(reference: string, input: string): (cells: seq<Cell>)
    ensures reference == [] ==> cells == []
    ensures |cells| == |reference|
    ensures forall i :: 0 <= i < |cells| ==>
              cells[i] == RenderText(reference, input)[i].(current := false)
  {
    if reference == [] then []
    else seq(|reference|, i requires 0 <= i < |reference| => Cell(reference[i], MarkAt(reference, input, i), false))
  }

  /** The two preview slots: the farther line and the next line. */
  datatype Slot = Third | Second

  /** renderQueueTexts: the first two queued lines in reverse order, the first shown one
      labelled third and the other second. */
  function RenderQueueTexts(queue: seq<string>): (shown: seq<(string, Slot)>)
    ensures |shown| == if |queue| < 2 then |queue| else 2
    ensures forall k :: 0 <= k < |shown| ==> shown[k].0 == queue[|shown| - 1 - k]
    ensures forall k :: 0 <= k < |shown| ==> (shown[k].1 == Third <==> k == 0)
  {
    if |queue| == 0 then []
    else if |queue| == 1 then [(queue[0], Third)]
    else [(queue[1], Third), (queue[0], Second)]
  }

  /** `userInput.endsWith(' ')`. */
  predicate EndsWithSpace(s: string) {
    |s| > 0 && s[|s| - 1] == ' '
  }

  /** The index renderCurrentWord looks up: the number of whitespace-separated fields of the
      trimmed input, less one unless the input ends with a space. It counts the whitespace
      runs inside the trimmed input, plus one after a final space. */
  function CurrentWordIndex(input: string): (k: nat)
    ensures k == Runs(Trim(input)) + (if EndsWithSpace(input) then 1 else 0)
    ensures input == [] ==> k == 0
  {
    CountWordsIsRunsPlusOne(input);
    assert input == [] ==> Trim(input) == [];
    CountWords(input) - (if EndsWithSpace(input) then 0 else 1)
  }

  /** renderCurrentWord: the word of the reference at that index, or "" when there is none
      (an index past the end, or an empty field). */
  function CurrentWord(reference: string, input: string): (w: string)
    ensures NoSpace(w)
    ensures w == [] || w in Split(reference)
    ensures CurrentWordIndex(input) >= |Split(reference)| ==> w == []
    ensures CurrentWordIndex(input) < |Split(reference)| ==> w == Split(reference)[CurrentWordIndex(input)]
  {
    var words := Split(reference);
    var k := CurrentWordIndex(input);
    if k < |words| then words[k] else ""
  }

  /** Having typed the first k words of a sentence and a space, the word shown is word k. */
  lemma {:induction false} CurrentWordAfterSpace(words: seq<string>, k: nat)
    requires 1 <= k < |words|
    requires forall i :: 0 <= i < |words| ==> words[i] != "" && NoSpace(words[i])
    ensures CurrentWord(Join(words), Join(words[..k]) + " ") == words[k]
  {
    var typed := Join(words[..k]);
    JoinEnds(words[..k]);
    TrimTrailingSpace(typed);
    SplitJoin(words[..k]);
    assert CountWords(typed + " ") == k;
    SplitJoin(words);
  }

  /** In the middle of word k, having typed the first k words and a non-empty prefix p of
      word k with single spaces between them, the word shown is word k. */
  lemma {:induction false} CurrentWordWhileTyping(words: seq<string>, k: nat, p: string)
    requires k < |words|
    requires forall i :: 0 <= i < |words| ==> words[i] != "" && NoSpace(words[i])
    requires p != [] && p <= words[k]
    ensures CurrentWord(Join(words), Join(words[..k] + [p])) == words[k]
  {
    var typed := words[..k] + [p];
    assert NoSpace(p) by {
      forall i | 0 <= i < |p| ensures !IsSpace(p[i]) {
        assert p[i] == words[k][i];
      }
    }
    assert forall i :: 0 <= i < |typed| ==> typed[i] != "" && NoSpace(typed[i]) by {
      forall i | 0 <= i < |typed| ensures typed[i] != "" && NoSpace(typed[i]) {
        if i < k {
          assert typed[i] == words[i];
        }
      }
    }
    var input := Join(typed);
    JoinEnds(typed);
    SplitJoin(typed);
    assert Trim(input) == input;
    assert !EndsWithSpace(input);
    assert CurrentWordIndex(input) == k;
    SplitJoin(words);
  }

  /** A progress table row: its number (from 1), the figures shown and whether it is
      highlighted as an improvement. */
  datatype Row = Row(number: nat, wpm: Option<nat>, accuracy: nat, correct: nat, total: nat, improved: bool)

  /** `m.wpm > metrics[i-1].wpm` on values read back from JSON: a null wpm compares as 0. */
  function WpmValue(r: Record): (v: nat)
    ensures r.wpm.Some? ==> v == r.wpm.value
    ensures r.wpm.None? ==> v == 0
  {
    r.wpm.GetOr(0)
  }

  /** renderProgressTable: rows numbered 1..n; a row is improved when it is not the first
      and its wpm beats the previous row's; missing counts show as 0. */
  function ProgressRows(history: seq<Record>): (rows: seq<Row>)
    ensures |rows| == |history|
    ensures forall i :: 0 <= i < |rows| ==> rows[i].number == i + 1
    ensures forall i :: 0 <= i < |rows| ==>
              (rows[i].improved <==> i > 0 && WpmValue(history[i]) > WpmValue(history[i - 1]))
    ensures forall i :: 0 <= i < |rows| ==>
              rows[i].wpm == history[i].wpm && rows[i].accuracy == history[i].accuracy
              && rows[i].correct == history[i].correctChars.GetOr(0)
              && rows[i].total == history[i].totalChars.GetOr(0)
  {
    seq(|history|, i requires 0 <= i < |history| =>
      Row(i + 1, history[i].wpm, history[i].accuracy,
          history[i].correctChars.GetOr(0), history[i].totalChars.GetOr(0),
          i > 0 && WpmValue(history[i]) > WpmValue(history[i - 1])))
  }
}
