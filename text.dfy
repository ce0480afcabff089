/**
  Model of js/textService.js: the predicates that filter candidate lines,
  the cleaning applied to the chosen line, word counting, and the bounded
  retry loop of fetchRandomText.

  The network and Math.random are not modelled: each source delivers its
  candidate lines together with the index the random draw would pick
  (`Source`), and one attempt pairs the remote source with the local one.
*/
module Text {
  import opened Opt

  /** Fewest words a fetched text may have (MIN_WORDS). */
  const MinWords: nat := 8
  /** Number of attempts fetchRandomText makes (MAX_ATTEMPTS). */
  const MaxAttempts: nat := 5

  // ---------------------------------------------------------------- characters

  /** Whitespace as `\s` and `trim` see it, restricted to ASCII. */
  predicate IsSpace(c: char) {
    c == ' ' || c == '\t' || c == '\n' || c == '\r' || c == '\U{B}' || c == '\U{C}'
  }

  /** The ASCII members of the Unicode punctuation class `\p{P}`:
      ! " # % & ' ( ) * , - . / : ; ? @ [ \ ] _ { } */
  predicate IsPunct(c: char) {
    ('!' <= c <= '#') || ('%' <= c <= '*') || (',' <= c <= '/') || (':' <= c <= ';')
    || ('?' <= c <= '@') || ('[' <= c <= ']') || c == '_' || c == '{' || c == '}'
  }

  /** The invisible characters cleanText deletes: U+200B, U+200C, U+200D, U+FEFF, U+00A0. */
  predicate IsInvisible(c: char) {
    c == '\U{200B}' || c == '\U{200C}' || c == '\U{200D}' || c == '\U{FEFF}' || c == '\U{A0}'
  }

  predicate IsAsciiLetter(c: char) {
    'A' <= c <= 'Z' || 'a' <= c <= 'z'
  }

  predicate IsAscii(c: char) {
    (c as int) < 128
  }

  predicate NoSpace(w: string) {
    forall k :: 0 <= k < |w| ==> !IsSpace(w[k])
  }

  predicate NoInvisible(s: string) {
    forall k :: 0 <= k < |s| ==> !IsInvisible(s[k])
  }

  // ---------------------------------------------------------------- trimming

  /** Index of the first non-whitespace character at or after `i`, or |s| when there is none. */
  function SkipSpaces(s: string, i: nat): (j: nat)
    requires i <= |s|
    ensures i <= j <= |s|
    ensures forall k :: i <= k < j ==> IsSpace(s[k])
    ensures j < |s| ==> !IsSpace(s[j])
    decreases |s| - i
  {
    if i == |s| || !IsSpace(s[i]) then i else SkipSpaces(s, i + 1)
  }

  /** Index just past the last non-whitespace character before j, or 0 when there is none. */
  function TrimBack(s: string, j: nat): (e: nat)
    requires j <= |s|
    ensures e <= j
    ensures forall k :: e <= k < j ==> IsSpace(s[k])
    ensures e > 0 ==> !IsSpace(s[e - 1])
  {
    if j == 0 || !IsSpace(s[j - 1]) then j else TrimBack(s, j - 1)
  }

  /** JavaScript's `trim`: leading and trailing whitespace removed. The result is a
      contiguous part of the text with only whitespace outside it and none at its ends. */
  function Trim(s: string): (r: string)
    ensures |r| <= |s|
    ensures r == [] || (!IsSpace(r[0]) && !IsSpace(r[|r| - 1]))
    ensures r == [] <==> forall k :: 0 <= k < |s| ==> IsSpace(s[k])
    ensures s == [] || (!IsSpace(s[0]) && !IsSpace(s[|s| - 1])) ==> r == s
    ensures exists i, e :: 0 <= i <= e <= |s| && r == s[i..e]
                           && (forall k :: 0 <= k < i ==> IsSpace(s[k]))
                           && (forall k :: e <= k < |s| ==> IsSpace(s[k]))
  {
    var i := SkipSpaces(s, 0);
    var e := TrimBack(s, |s|);
    if i == |s| then
      assert s[|s|..|s|] == [];
      []
    else
      assert i < e by {
        assert !IsSpace(s[i]);
      }
      s[i..e]
  }

  /** Trimming only removes characters, so it cannot introduce an invisible one. */
  lemma TrimKeepsNoInvisible(s: string)
    requires NoInvisible(s)
    ensures NoInvisible(Trim(s))
  {
  }

  /** One trailing space after a text without outer whitespace is trimmed away. */
  lemma TrimTrailingSpace(t: string)
    requires t != [] && !IsSpace(t[0]) && !IsSpace(t[|t| - 1])
    ensures Trim(t + " ") == t
  {
    var s := t + " ";
    assert SkipSpaces(s, 0) == 0 by { assert s[0] == t[0]; }
    assert TrimBack(s, |s|) == |t| by { assert s[|t| - 1] == t[|t| - 1]; }
    assert s[0..|t|] == t;
  }

  // ---------------------------------------------------------------- splitting

  /** Index of the first whitespace character at or after `i`, or |s| when there is none. */
  function NextSpace(s: string, i: nat): (j: nat)
    requires i <= |s|
    ensures i <= j <= |s|
    ensures forall k :: i <= k < j ==> !IsSpace(s[k])
    ensures j < |s| ==> IsSpace(s[j])
    decreases |s| - i
  {
    if i == |s| || IsSpace(s[i]) then i else NextSpace(s, i + 1)
  }

  /** `s.split(/\s+/)`: the pieces of `s` between maximal runs of whitespace. */
  function Split(s: string): (fields: seq<string>)
    ensures |fields| >= 1
    ensures forall k :: 0 <= k < |fields| ==> NoSpace(fields[k])
    decreases |s|
  {
    var i := NextSpace(s, 0);
    if i == |s| then [s]
    else
      var j := SkipSpaces(s, i);
      [s[..i]] + Split(s[j..])
  }

  /** A maximal run of whitespace begins at index k of s. */
  predicate RunStart(s: string, k: nat)
    requires k < |s|
  {
    IsSpace(s[k]) && (k == 0 || !IsSpace(s[k - 1]))
  }

  /** Number of maximal whitespace runs that begin before index n. */
  function RunsBelow(s: string, n: nat): nat
    requires n <= |s|
  {
    if n == 0 then 0 else RunsBelow(s, n - 1) + (if RunStart(s, n - 1) then 1 else 0)
  }

  /** Number of maximal whitespace runs in s. */
  function Runs(s: string): nat {
    RunsBelow(s, |s|)
  }

  lemma {:induction false} NoRunsBeforeSpace(s: string, n: nat)
    requires n <= |s|
    requires forall k :: 0 <= k < n ==> !IsSpace(s[k])
    ensures RunsBelow(s, n) == 0
  {
    if n > 0 {
      NoRunsBeforeSpace(s, n - 1);
    }
  }

  lemma {:induction false} OneRunUpTo(s: string, i: nat, n: nat)
    requires i < n <= |s|
    requires forall k :: 0 <= k < i ==> !IsSpace(s[k])
    requires forall k :: i <= k < n ==> IsSpace(s[k])
    ensures RunsBelow(s, n) == 1
  {
    if n == i + 1 {
      NoRunsBeforeSpace(s, i);
    } else {
      OneRunUpTo(s, i, n - 1);
    }
  }

  lemma {:induction false} RunsAfterRun(s: string, j: nat, m: nat)
    requires 0 < j && j + m <= |s|
    requires IsSpace(s[j - 1])
    requires j < |s| ==> !IsSpace(s[j])
    ensures RunsBelow(s, j + m) == RunsBelow(s, j) + RunsBelow(s[j..], m)
  {
    if m > 0 {
      RunsAfterRun(s, j, m - 1);
      if m == 1 {
        assert !RunStart(s, j) && !RunStart(s[j..], 0);
      } else {
        assert s[j..][m - 1] == s[j + m - 1] && s[j..][m - 2] == s[j + m - 2];
        assert RunStart(s, j + m - 1) == RunStart(s[j..], m - 1);
      }
    }
  }

  /** Splitting yields one field more than there are whitespace runs. */
  lemma {:induction false} SplitCountsRuns(s: string)
    ensures |Split(s)| == 1 + Runs(s)
    decreases |s|
  {
    var i := NextSpace(s, 0);
    if i == |s| {
      NoRunsBeforeSpace(s, |s|);
    } else {
      var j := SkipSpaces(s, i);
      SplitCountsRuns(s[j..]);
      OneRunUpTo(s, i, j);
      RunsAfterRun(s, j, |s| - j);
    }
  }

  /** `text.trim().split(/\s+/).length`. */
  function CountWords(t: string): (n: nat)
    ensures n >= 1
  {
    |Split(Trim(t))|
  }

  /** A word count is one more than the number of whitespace runs inside the trimmed text. */
  lemma CountWordsIsRunsPlusOne(t: string)
    ensures CountWords(t) == 1 + Runs(Trim(t))
    ensures Trim(t) == [] ==> CountWords(t) == 1
  {
    SplitCountsRuns(Trim(t));
  }

  lemma {:induction false} SplitOneWord(w: string)
    requires NoSpace(w)
    ensures Split(w) == [w]
  {
    assert NextSpace(w, 0) == |w|;
  }

  lemma {:induction false} SplitFirstWord(w: string, rest: string)
    requires NoSpace(w)
    requires rest == [] || !IsSpace(rest[0])
    ensures Split(w + " " + rest) == [w] + Split(rest)
  {
    var s := w + " " + rest;
    assert s[|w|] == ' ';
    assert forall k :: 0 <= k < |w| ==> s[k] == w[k];
    var i := NextSpace(s, 0);
    assert i == |w|;
    var j := SkipSpaces(s, i);
    assert j == |w| + 1 by {
      assert |w| + 1 < |s| ==> s[|w| + 1] == rest[0];
    }
    assert s[..i] == w;
    assert s[j..] == rest;
  }

  /** Total number of characters in the words. */
  function TotalLength(words: seq<string>): nat {
    if words == [] then 0 else |words[0]| + TotalLength(words[1..])
  }

  /** `words.join(' ')`: the words in order with one space between neighbours; no words give
      the empty text and a single word is itself. */
  function Join(words: seq<string>): (r: string)
    ensures words == [] ==> r == []
    ensures |words| == 1 ==> r == words[0]
  {
    if words == [] then ""
    else if |words| == 1 then words[0]
    else words[0] + " " + Join(words[1..])
  }

  /** The joined text is as long as the words together plus one space per gap. */
  lemma {:induction false} JoinLength(words: seq<string>)
    requires |words| >= 1
    ensures |Join(words)| == TotalLength(words) + |words| - 1
  {
    if |words| > 1 {
      JoinLength(words[1..]);
    }
  }

  /** The joined text starts with the first word's first character and ends with the last
      word's last character. */
  lemma {:induction false} JoinEnds(words: seq<string>)
    requires |words| >= 1
    requires forall k :: 0 <= k < |words| ==> words[k] != ""
    ensures Join(words) != []
    ensures Join(words)[0] == words[0][0]
    ensures Join(words)[|Join(words)| - 1] == words[|words| - 1][|words[|words| - 1]| - 1]
  {
    if |words| > 1 {
      JoinEnds(words[1..]);
    }
  }

  /** Joining non-empty words with single spaces and splitting again gives the words back. */
  lemma {:induction false} SplitJoin(words: seq<string>)
    requires |words| >= 1
    requires forall k :: 0 <= k < |words| ==> words[k] != "" && NoSpace(words[k])
    ensures Split(Join(words)) == words
  {
    if |words| == 1 {
      SplitOneWord(words[0]);
    } else {
      var rest := Join(words[1..]);
      SplitJoin(words[1..]);
      JoinEnds(words[1..]);
      assert !IsSpace(rest[0]) by {
        assert rest[0] == words[1][0];
      }
      SplitFirstWord(words[0], rest);
      assert [words[0]] + words[1..] == words;
    }
  }

  /** The words of the fallback sentence. */
  const DefaultWords: seq<string> :=
    ["The", "quick", "brown", "fox", "jumps", "over", "the", "lazy", "dog", "again", "and", "again"]

  /** The sentence returned when no attempt yields a long enough text. */
  const DefaultText: string := Join(DefaultWords)

  /** The fallback sentence has twelve words, so it passes the minimum. */
  lemma DefaultTextWords()
    ensures CountWords(DefaultText) == 12
  {
    SplitJoin(DefaultWords);
    JoinEnds(DefaultWords);
    assert !IsSpace(DefaultText[0]) && !IsSpace(DefaultText[|DefaultText| - 1]);
    assert Trim(DefaultText) == DefaultText;
  }

  // ---------------------------------------------------------------- cleaning

  /** `replace(/\p{P}+$/gu, '')`: removes the run of punctuation that ends the text. */
  function StripTrailingPunct(s: string): (r: string)
    ensures |r| <= |s| && r == s[..|r|]
    ensures r == [] || !IsPunct(r[|r| - 1])
    ensures forall k :: |r| <= k < |s| ==> IsPunct(s[k])
    ensures s == [] || !IsPunct(s[|s| - 1]) ==> r == s
  {
    if s != [] && IsPunct(s[|s| - 1]) then StripTrailingPunct(s[..|s| - 1]) else s
  }

  /** `replace(/[\u200B-\u200D\uFEFF\u00A0]/gu, '')`: deletes every invisible character
      and keeps every other one, as often as it occurs. */
  function RemoveInvisible(s: string): (r: string)
    ensures |r| <= |s|
    ensures forall k :: 0 <= k < |r| ==> !IsInvisible(r[k])
    ensures forall c {:trigger multiset(r)[c]} :: !IsInvisible(c) ==> multiset(r)[c] == multiset(s)[c]
    ensures (forall k :: 0 <= k < |s| ==> !IsInvisible(s[k])) ==> r == s
  {
    if s == [] then []
    else
      var rest := RemoveInvisible(s[1..]);
      var head := if IsInvisible(s[0]) then [] else [s[0]];
      assert multiset(s) == multiset([s[0]]) + multiset(s[1..]) by {
        assert s == [s[0]] + s[1..];
      }
      head + rest
  }

  /** The first character is kept or deleted on its own. */
  lemma RemoveInvisibleCons(c: char, t: string)
    ensures RemoveInvisible([c] + t) == (if IsInvisible(c) then [] else [c]) + RemoveInvisible(t)
  {
    assert ([c] + t)[0] == c && ([c] + t)[1..] == t;
  }

  /** Deletion works character by character, so it keeps the order of what remains: cleaning
      a concatenation cleans each part. */
  lemma {:induction false} RemoveInvisibleAppend(a: string, b: string)
    ensures RemoveInvisible(a + b) == RemoveInvisible(a) + RemoveInvisible(b)
    decreases |a|
  {
    if a == [] {
      assert a + b == b;
      assert RemoveInvisible(a) == [];
    } else {
      var c, t := a[0], a[1..];
      var head, x, y := (if IsInvisible(c) then [] else [c]), RemoveInvisible(t), RemoveInvisible(b);
      calc {
        RemoveInvisible(a + b);
        { assert a + b == [c] + (t + b); }
        RemoveInvisible([c] + (t + b));
        { RemoveInvisibleCons(c, t + b); }
        head + RemoveInvisible(t + b);
        { RemoveInvisibleAppend(t, b); }
        head + (x + y);
        (head + x) + y;
        { assert a == [c] + t; RemoveInvisibleCons(c, t); }
        RemoveInvisible(a) + y;
      }
    }
  }


  /** cleanText: trailing punctuation, then invisible characters, then surrounding whitespace removed. */
  function CleanText(s: string): (r: string)
    ensures |r| <= |s|
    ensures NoInvisible(r)
    ensures r == [] || (!IsSpace(r[0]) && !IsSpace(r[|r| - 1]))
  {
    var u := RemoveInvisible(StripTrailingPunct(s));
    TrimKeepsNoInvisible(u);
    Trim(u)
  }

  /** A text that already has no invisible character, no surrounding whitespace and no final
      punctuation is left as it is; in particular leading punctuation survives. */
  lemma {:induction false} CleanTextKeeps(s: string)
    requires NoInvisible(s)
    requires s == [] || (!IsSpace(s[0]) && !IsSpace(s[|s| - 1]) && !IsPunct(s[|s| - 1]))
    ensures CleanText(s) == s
  {
    assert StripTrailingPunct(s) == s;
    assert RemoveInvisible(s) == s;
    assert Trim(s) == s;
  }

  /** Final punctuation is always removed, so cleaning shortens such a text. */
  lemma {:induction false} CleanTextShortensPunct(t: string)
    requires t != [] && IsPunct(t[|t| - 1])
    ensures |CleanText(t)| < |t|
  {
    assert |StripTrailingPunct(t)| < |t|;
  }

  /** Punctuation followed by whitespace is not at the very end, so it survives cleaning. */
  lemma {:induction false} CleanTextKeepsPunctBeforeSpace(t: string)
    requires t != [] && IsPunct(t[|t| - 1])
    requires NoInvisible(t) && !IsSpace(t[0])
    ensures CleanText(t + " ") == t
  {
    var s := t + " ";
    var u := RemoveInvisible(StripTrailingPunct(s));
    assert u == s by {
      assert StripTrailingPunct(s) == s by { assert !IsPunct(s[|s| - 1]); }
      assert NoInvisible(s);
    }
    TrimTrailingSpace(t);
  }

  /** Punctuation followed by a zero-width space is not at the very end either, so it survives
      while the zero-width space is deleted: "Hi!\u200B" cleans to "Hi!". */
  lemma {:induction false} CleanTextKeepsPunctBeforeZeroWidth(t: string)
    requires t != [] && IsPunct(t[|t| - 1])
    requires NoInvisible(t) && !IsSpace(t[0]) && !IsSpace(t[|t| - 1])
    ensures CleanText(t + "\U{200B}") == t
  {
    var s := t + "\U{200B}";
    assert StripTrailingPunct(s) == s by { assert !IsPunct(s[|s| - 1]); }
    RemoveInvisibleAppend(t, "\U{200B}");
    assert RemoveInvisible("\U{200B}") == [];
    assert RemoveInvisible(t) == t;
    assert RemoveInvisible(s) == t;
  }

  /** A text that starts with a non-space keeps its first character through trimming. */
  lemma TrimKeepsFirst(r: string)
    requires r != [] && !IsSpace(r[0])
    ensures Trim(r) != [] && Trim(r)[0] == r[0]
  {
  }

  /** The trailing strip stops at any character that is not punctuation. */
  lemma StripStopsAt(s: string, k: nat)
    requires k < |s| && !IsPunct(s[k])
    ensures |StripTrailingPunct(s)| > k
  {
  }

  /** An ASCII text has no invisible character to delete. */
  lemma AsciiKeepsVisible(r: string)
    requires forall i :: 0 <= i < |r| ==> IsAscii(r[i])
    ensures RemoveInvisible(r) == r
  {
  }

  /** On a line that passed the filter, leading punctuation survives cleaning: the line's
      letter stops the trailing strip before the start, and the start is not whitespace. */
  lemma {:induction false} CleanTextKeepsLeadingPunct(s: string)
    requires IsValidLine(s) && s != [] && IsPunct(s[0])
    ensures CleanText(s) != [] && CleanText(s)[0] == s[0]
  {
    var k := ValidLineLetter(s);
    CleanTextKeepsFirst(s, k);
  }

  /** An ASCII text whose first character is not whitespace, with a non-punctuation character
      at index k, keeps that first character through cleaning. */
  lemma CleanTextKeepsFirst(s: string, k: nat)
    requires forall i :: 0 <= i < |s| ==> IsAscii(s[i])
    requires k < |s| && !IsPunct(s[k]) && !IsSpace(s[0])
    ensures CleanText(s) != [] && CleanText(s)[0] == s[0]
  {
    CleanTextOfAscii(s);
    StripStopsAt(s, k);
    var r := StripTrailingPunct(s);
    assert r[0] == s[0];
    TrimKeepsFirst(r);
  }

  /** A line that passed the filter is all ASCII and has a letter at some index. */
  lemma ValidLineLetter(s: string) returns (k: nat)
    requires IsValidLine(s)
    ensures k < |s| && IsAsciiLetter(s[k])
    ensures forall i :: 0 <= i < |s| ==> IsAscii(s[i])
  {
    k :| 0 <= k < |s| && IsAsciiLetter(s[k]);
  }

  /** On an ASCII text, cleaning is trimming what the trailing strip leaves. */
  lemma CleanTextOfAscii(s: string)
    requires forall i :: 0 <= i < |s| ==> IsAscii(s[i])
    ensures CleanText(s) == Trim(StripTrailingPunct(s))
  {
    var r := StripTrailingPunct(s);
    assert forall i :: 0 <= i < |r| ==> r[i] == s[i];
    AsciiKeepsVisible(r);
  }

  /** Cleaning is not idempotent: "Hi! " cleans to "Hi!", which cleans to "Hi". */
  lemma CleanTextNotIdempotent(t: string)
    requires t != [] && IsPunct(t[|t| - 1])
    requires NoInvisible(t) && !IsSpace(t[0])
    ensures CleanText(CleanText(t + " ")) != CleanText(t + " ")
  {
    CleanTextKeepsPunctBeforeSpace(t);
    CleanTextShortensPunct(t);
  }

  // ---------------------------------------------------------------- line filter

  /** `/[A-Za-z]/.test(t)`. */
  function HasAsciiLetter(t: string): (b: bool)
    ensures b <==> exists k :: 0 <= k < |t| && IsAsciiLetter(t[k])
  {
    if t == [] then false
    else if IsAsciiLetter(t[0]) then true
    else
      var b := HasAsciiLetter(t[1..]);
      assert forall k :: 1 <= k < |t| ==> t[k] == t[1..][k - 1];
      b
  }

  /** `!/[^\x00-\x7F]/.test(t)`. */
  function AllAscii(t: string): (b: bool)
    ensures b <==> forall k :: 0 <= k < |t| ==> IsAscii(t[k])
  {
    if t == [] then true
    else
      var b := IsAscii(t[0]) && AllAscii(t[1..]);
      assert forall k :: 1 <= k < |t| ==> t[k] == t[1..][k - 1];
      b
  }

  /** isLatin: some ASCII letter, and nothing outside ASCII. */
  function IsLatin(t: string): (b: bool)
    ensures b <==> (exists k :: 0 <= k < |t| && IsAsciiLetter(t[k]))
                   && (forall k :: 0 <= k < |t| ==> IsAscii(t[k]))
  {
    HasAsciiLetter(t) && AllAscii(t)
  }

  /** isValidLine: non-blank after trimming, no underscore, Latin. The blank test is implied by
      the letter that IsLatin demands (ValidLineNotBlank). */
  function IsValidLine(line: string): (b: bool)
    ensures b <==> '_' !in line && IsLatin(line)
  {
    var latin := IsLatin(line);
    ValidLineNotBlank(line);
    |Trim(line)| > 0 && '_' !in line && latin
  }

  /** A Latin line is never blank after trimming: its letter is not whitespace. */
  lemma ValidLineNotBlank(line: string)
    ensures IsLatin(line) ==> Trim(line) != []
  {
    if IsLatin(line) {
      var k :| 0 <= k < |line| && IsAsciiLetter(line[k]);
      assert !IsSpace(line[k]);
    }
  }

  /** `lines.filter(isValidLine)`. */
  function ValidLines(lines: seq<string>): (r: seq<string>)
    ensures |r| <= |lines|
  {
    if lines == [] then []
    else
      var rest := ValidLines(lines[1..]);
      (if IsValidLine(lines[0]) then [lines[0]] else []) + rest
  }

  /** The filter keeps exactly the valid lines: every line it keeps is valid and comes from
      the input, and it drops no valid line. */
  lemma {:induction false} ValidLinesExact(lines: seq<string>)
    ensures forall k :: 0 <= k < |ValidLines(lines)| ==>
              IsValidLine(ValidLines(lines)[k]) && ValidLines(lines)[k] in lines
    ensures forall x :: x in lines && IsValidLine(x) ==> x in ValidLines(lines)
  {
    if lines != [] {
      ValidLinesExact(lines[1..]);
      assert forall x :: x in lines ==> x == lines[0] || x in lines[1..];
      assert forall x :: x in lines[1..] ==> x in lines;
    }
  }

  // ---------------------------------------------------------------- sources and retries

  /** What one source call produces: it fails (network, HTTP status, malformed reply), or it
      delivers its candidate lines with the index the random draw picks among the valid ones. */
  datatype Source = Unavailable | Delivered(candidates: seq<string>, pick: nat)

  /** fetchFromAPI / fetchFromLocal: a cleaned valid candidate, or None where they throw. */
  function Choose(src: Source): (r: Option<string>)
    ensures r.Some? ==> src.Delivered? && exists x :: x in src.candidates && IsValidLine(x) && r.value == CleanText(x)
    ensures r.None? <==> src.Unavailable? || (src.Delivered? && forall x :: x in src.candidates ==> !IsValidLine(x))
  {
    match src
    case Unavailable => None
    case Delivered(candidates, pick) =>
      var valid := ValidLines(candidates);
      ValidLinesExact(candidates);
      if valid == [] then None
      else
        var chosen := valid[pick % |valid|];
        assert chosen in candidates && IsValidLine(chosen);
        Some(CleanText(chosen))
  }

  /** One attempt of the loop: what fetchFromAPI and what fetchFromLocal would produce. */
  datatype Attempt = Attempt(remote: Option<string>, local: Option<string>)

  /** `fetchFromAPI().catch(() => fetchFromLocal())`: the local outcome counts only when the
      remote call fails; None when both fail. A remote text that is too short is still the
      attempt's text. */
  function AttemptText(a: Attempt): (r: Option<string>)
    ensures a.remote.Some? ==> r == a.remote
    ensures a.remote.None? ==> r == a.local
    ensures r.None? <==> a.remote.None? && a.local.None?
  {
    match a.remote
    case Some(t) => Some(t)
    case None => a.local
  }

  /** An attempt made from sources yields, if anything, a cleaned valid line of the source
      it came from: of the remote one unless that failed. */
  lemma AttemptFromSources(remote: Source, local: Source)
    ensures var r := AttemptText(Attempt(Choose(remote), Choose(local)));
            r.Some? ==> exists src :: src in {remote, local} && src.Delivered? &&
                          exists x :: x in src.candidates && IsValidLine(x) && r.value == CleanText(x)
    ensures Choose(remote).Some? ==> AttemptText(Attempt(Choose(remote), Choose(local))) == Choose(remote)
  {
    var r := AttemptText(Attempt(Choose(remote), Choose(local)));
    if r.Some? {
      if Choose(remote).Some? {
        assert remote in {remote, local};
      } else {
        assert local in {remote, local};
      }
    }
  }

  /** An attempt whose text has at least MinWords words ends the loop. */
  predicate Accepts(a: Attempt) {
    AttemptText(a).Some? && CountWords(AttemptText(a).value) >= MinWords
  }

  /** Index of the first accepted attempt at or after i, or |attempts| when there is none. */
  function FirstAcceptedFrom(attempts: seq<Attempt>, i: nat): (k: nat)
    requires i <= |attempts|
    ensures i <= k <= |attempts|
    decreases |attempts| - i
  {
    if i == |attempts| || Accepts(attempts[i]) then i else FirstAcceptedFrom(attempts, i + 1)
  }

  /** The index found is the first accepted one: every attempt before it is rejected. */
  lemma {:induction false} FirstAcceptedIsFirst(attempts: seq<Attempt>, i: nat)
    requires i <= |attempts|
    ensures FirstAcceptedFrom(attempts, i) < |attempts| ==> Accepts(attempts[FirstAcceptedFrom(attempts, i)])
    ensures forall j :: i <= j < FirstAcceptedFrom(attempts, i) ==> !Accepts(attempts[j])
    decreases |attempts| - i
  {
    var k := FirstAcceptedFrom(attempts, i);
    if i < |attempts| && !Accepts(attempts[i]) {
      assert k == FirstAcceptedFrom(attempts, i + 1);
      FirstAcceptedIsFirst(attempts, i + 1);
      forall j | i <= j < k
        ensures !Accepts(attempts[j])
      {
        if j != i {
          assert i + 1 <= j < FirstAcceptedFrom(attempts, i + 1);
        }
      }
    } else {
      assert k == i;
    }
  }

  /** What fetchRandomText returns for the given attempts: the text of the first accepted
      attempt, or the default sentence when there is none. */
  function Fetched(attempts: seq<Attempt>): (t: string)
    ensures CountWords(t) >= MinWords
  {
    var k := FirstAcceptedFrom(attempts, 0);
    FirstAcceptedIsFirst(attempts, 0);
    if k == |attempts| then DefaultTextWords(); DefaultText
    else AttemptText(attempts[k]).value
  }

  /** The result either is the text of an accepted attempt that every earlier attempt
      failed to beat, or is the default sentence after no attempt was accepted. */
  lemma FetchedIsFirstAccepted(attempts: seq<Attempt>)
    ensures (exists k :: 0 <= k < |attempts| && Accepts(attempts[k])
               && (forall j :: 0 <= j < k ==> !Accepts(attempts[j]))
               && Fetched(attempts) == AttemptText(attempts[k]).value)
            || ((forall j :: 0 <= j < |attempts| ==> !Accepts(attempts[j])) && Fetched(attempts) == DefaultText)
  {
    var k := FirstAcceptedFrom(attempts, 0);
    FirstAcceptedIsFirst(attempts, 0);
    if k < |attempts| {
      assert Fetched(attempts) == AttemptText(attempts[k]).value;
      assert forall j :: 0 <= j < k ==> !Accepts(attempts[j]);
      assert Accepts(attempts[k]);
    } else {
      assert Fetched(attempts) == DefaultText;
    }
  }

  /** fetchRandomText: at most MaxAttempts attempts, stopping at the first whose text has
      enough words; the default sentence when none has. It never fails. */
  method FetchRandomText(attempts: seq<Attempt>) returns (text: string)
    requires |attempts| == MaxAttempts
    ensures text == Fetched(attempts)
    ensures CountWords(text) >= MinWords
  {
    var i := 0;
    while i < MaxAttempts
      invariant 0 <= i <= MaxAttempts
      invariant FirstAcceptedFrom(attempts, i) == FirstAcceptedFrom(attempts, 0)
    {
      var outcome := AttemptText(attempts[i]);
      if outcome.Some? {
        if CountWords(outcome.value) >= MinWords {
          assert FirstAcceptedFrom(attempts, 0) == i;
          return outcome.value;
        }
      } else if i == MaxAttempts - 1 {
        // both sources failed on the last attempt: the catch block leaves the loop
        assert FirstAcceptedFrom(attempts, i + 1) == |attempts|;
        break;
      }
      i := i + 1;
    }
    assert FirstAcceptedFrom(attempts, 0) == |attempts|;
    DefaultTextWords();
    text := DefaultText;
  }
}
