/** The line-driven question/answer extractor of api/flashcards.js:104-123, the
    last structured attempt of `robustParseFlashcards`.  It reads the raw model
    text (not the normalised one), splits it into lines, trims each line, and
    runs a small state machine over a question buffer and an answer buffer.

    JavaScript starts both buffers at `null` and only ever tests them for
    truthiness or reads `a || ""`, so `null` and `""` behave the same and both
    buffers are modelled as strings that start empty. */
module Qa {
  import opened Json
  import opened Text

  /** `raw.split(/\r?\n/)`: pieces between line breaks, where a line break is a
      `\n` together with a `\r` right before it. */
  function SplitLines(s: string): (r: seq<string>)
    ensures |r| == Count(s, '\n') + 1
    decreases |s|
  {
    if '\n' !in s then
      NoOccurrenceNoCount(s, '\n');
      [s]
    else
      var i := IndexOf(s, '\n');
      CountAt(s, i);
      [DropCr(s[..i])] + SplitLines(s[i + 1..])
  }

  /** The text before a `\n`, without the `\r` that belongs to the break. */
  function DropCr(x: string): string {
    if x != [] && x[|x| - 1] == '\r' then x[..|x| - 1] else x
  }

  /** `raw.split("\n")`, the reference splitting on `\n` alone. */
  function SplitNl(s: string): (r: seq<string>)
    decreases |s|
  {
    if '\n' !in s then [s]
    else
      var i := IndexOf(s, '\n');
      [s[..i]] + SplitNl(s[i + 1..])
  }

  /** The first `c` at `i` splits the count. */
  lemma {:induction false} CountAt(s: string, i: int)
    requires 0 <= i < |s| && s[i] == '\n' && '\n' !in s[..i]
    ensures Count(s, '\n') == 1 + Count(s[i + 1..], '\n')
  {
    assert s == s[..i] + s[i..];
    CountAppend(s[..i], s[i..], '\n');
    assert s[i..][1..] == s[i + 1..];
    NoOccurrenceNoCount(s[..i], '\n');
  }

  /** `lines.map((l) => l.trim())`. */
  function TrimAll(lines: seq<string>): (r: seq<string>)
    ensures |r| == |lines| && forall i :: 0 <= i < |lines| ==> r[i] == Trim(lines[i])
  {
    seq(|lines|, i requires 0 <= i < |lines| => Trim(lines[i]))
  }

  /** The `\r` of a `\r\n` break is whitespace, so once the lines are trimmed it
      makes no difference whether it was split off: splitting on `\r?\n` and
      splitting on `\n` give the same trimmed lines. */
  lemma {:induction false} SplitThenTrimSame(s: string)
    ensures TrimAll(SplitLines(s)) == TrimAll(SplitNl(s))
    decreases |s|
  {
    if '\n' in s {
      var i := IndexOf(s, '\n');
      var line, rest := s[..i], s[i + 1..];
      SplitThenTrimSame(rest);
      DropCrTrims(line);
      SplitsAt(s, i, line, rest);
      TrimAllCons(DropCr(line), SplitLines(rest));
      TrimAllCons(line, SplitNl(rest));
    }
  }

  lemma {:induction false} SplitsAt(s: string, i: int, line: string, rest: string)
    requires '\n' in s && i == IndexOf(s, '\n') && line == s[..i] && rest == s[i + 1..]
    ensures SplitLines(s) == [DropCr(line)] + SplitLines(rest)
    ensures SplitNl(s) == [line] + SplitNl(rest)
  {
  }

  lemma {:induction false} TrimAllCons(x: string, rest: seq<string>)
    ensures TrimAll([x] + rest) == [Trim(x)] + TrimAll(rest)
  {
    var l, r := TrimAll([x] + rest), [Trim(x)] + TrimAll(rest);
    forall i | 0 <= i < |l| ensures l[i] == r[i] {
      TrimAllAt(x, rest, i);
    }
  }

  lemma {:induction false} TrimAllAt(x: string, rest: seq<string>, i: nat)
    requires i <= |rest|
    ensures TrimAll([x] + rest)[i] == ([Trim(x)] + TrimAll(rest))[i]
  {
    if i > 0 {
      assert ([x] + rest)[i] == rest[i - 1];
    }
  }

  lemma {:induction false} DropCrTrims(x: string)
    ensures Trim(DropCr(x)) == Trim(x)
  {
    if x != [] && x[|x| - 1] == '\r' {
      assert x == x[..|x| - 1] + ['\r'];
      TrimDropsTrailingSpace(x[..|x| - 1], '\r');
    }
  }

  /** `c` matches the lower-case ASCII letter `l` under the `i` flag (which, for
      a regular expression without the `u` flag, folds ASCII letters only). */
  predicate FoldsTo(c: char, l: char) {
    c == l || ('a' <= l <= 'z' && c as int == l as int - 32)
  }

  /** What may follow a marker: the class `[:\s]`. */
  predicate IsMarkerEnd(c: char) {
    c == ':' || IsSpace(c)
  }

  /** `line` starts with `question`, letter case ignored. */
  predicate StartsWithQuestion(line: string) {
    |line| >= 8 && FoldsTo(line[0], 'q') && FoldsTo(line[1], 'u') && FoldsTo(line[2], 'e')
    && FoldsTo(line[3], 's') && FoldsTo(line[4], 't') && FoldsTo(line[5], 'i')
    && FoldsTo(line[6], 'o') && FoldsTo(line[7], 'n')
  }

  /** `line` starts with `answer`, letter case ignored. */
  predicate StartsWithAnswer(line: string) {
    |line| >= 6 && FoldsTo(line[0], 'a') && FoldsTo(line[1], 'n') && FoldsTo(line[2], 's')
    && FoldsTo(line[3], 'w') && FoldsTo(line[4], 'e') && FoldsTo(line[5], 'r')
  }

  /** Length of the prefix `/^(Q[:\s]|Question[:\s])/i` matches, or 0 when it
      does not match.  The one-letter alternative is tried first. */
  function QuestionMarker(line: string): (n: nat)
    ensures n == 0 || n == 2 || n == 9
    ensures n <= |line|
  {
    if |line| >= 2 && FoldsTo(line[0], 'q') && IsMarkerEnd(line[1]) then 2
    else if |line| >= 9 && StartsWithQuestion(line) && IsMarkerEnd(line[8]) then 9
    else 0
  }

  /** Length of the prefix `/^(A[:\s]|Answer[:\s])/i` matches, or 0. */
  function AnswerMarker(line: string): (n: nat)
    ensures n == 0 || n == 2 || n == 7
    ensures n <= |line|
  {
    if |line| >= 2 && FoldsTo(line[0], 'a') && IsMarkerEnd(line[1]) then 2
    else if |line| >= 7 && StartsWithAnswer(line) && IsMarkerEnd(line[6]) then 7
    else 0
  }

  /** The records pushed so far, and the two buffers. */
  datatype QaState = QaState(done: seq<Card>, q: string, a: string)

  const Start := QaState([], "", "")

  /** `if (q) qa.push({ q, a: a || "" })`. */
  function Flush(st: QaState): seq<Card> {
    if st.q != "" then st.done + [Card(st.q, st.a)] else st.done
  }

  /** One trimmed line of the loop body. */
  function Step(st: QaState, line: string): QaState {
    var qm := QuestionMarker(line);
    if qm > 0 then QaState(Flush(st), Trim(line[qm..]), "")
    else
      var am := AnswerMarker(line);
      if am > 0 then st.(a := Trim(line[am..]))
      else if st.a != "" && line != "" then st.(a := st.a + " " + line)
      else if st.q != "" && line != "" then st.(q := st.q + " " + line)
      else st
  }

  /** The state after the loop has consumed `lines`. */
  function Run(lines: seq<string>): QaState {
    if lines == [] then Start else Step(Run(lines[..|lines| - 1]), lines[|lines| - 1])
  }

  /** The records of lines 104-123 for the raw text. */
  function ExtractCards(raw: string): seq<Card> {
    Flush(Run(TrimAll(SplitLines(raw))))
  }

  /** The loop of lines 109-121 and the final push of line 123. */
  method ExtractQa(rawText: string) returns (qa: seq<Card>)
    ensures qa == ExtractCards(rawText)
  {
    var lines := SplitLines(rawText);
    ghost var trimmed := TrimAll(lines);
    qa := [];
    var q, a := "", "";
    var i := 0;
    while i < |lines|
      invariant 0 <= i <= |lines|
      invariant QaState(qa, q, a) == Run(trimmed[..i])
    {
      var line := Trim(lines[i]);
      ghost var before := QaState(qa, q, a);
      RunSnoc(trimmed, i);
      var qm := QuestionMarker(line);
      var am := AnswerMarker(line);
      if qm > 0 {
        if q != "" {
          qa := qa + [Card(q, a)];
        }
        q := Trim(line[qm..]);
        a := "";
      } else if am > 0 {
        a := Trim(line[am..]);
      } else if a != "" && line != "" {
        a := a + " " + line;
      } else if q != "" && line != "" {
        q := q + " " + line;
      }
      assert QaState(qa, q, a) == Step(before, line);
      i := i + 1;
    }
    assert trimmed[..i] == trimmed;
    if q != "" {
      qa := qa + [Card(q, a)];
    }
  }

  lemma {:induction false} RunSnoc(lines: seq<string>, i: int)
    requires 0 <= i < |lines|
    ensures Run(lines[..i + 1]) == Step(Run(lines[..i]), lines[i])
  {
    assert lines[..i + 1][..i] == lines[..i];
  }

  /** No whitespace at either end. */
  predicate Trimmed(x: string) {
    x == [] || (!IsSpace(x[0]) && !IsSpace(x[|x| - 1]))
  }

  /** Every record has a non-empty question, and no text of a record has
      whitespace at either end. */
  predicate GoodCards(cards: seq<Card>) {
    forall i :: 0 <= i < |cards| ==> cards[i].q != "" && Trimmed(cards[i].q) && Trimmed(cards[i].a)
  }

  predicate GoodState(st: QaState) {
    GoodCards(st.done) && Trimmed(st.q) && Trimmed(st.a)
  }

  lemma {:induction false} TrimIsTrimmed(x: string)
    ensures Trimmed(Trim(x))
  {
    var _ := TrimSlice(x);
  }

  /** Joining two trimmed non-empty texts with one space keeps the ends clean. */
  lemma {:induction false} JoinTrimmed(x: string, line: string)
    requires x != [] && line != [] && Trimmed(x) && Trimmed(line)
    ensures Trimmed(x + " " + line)
  {
    var j := x + " " + line;
    assert j[0] == x[0] && j[|j| - 1] == line[|line| - 1];
  }

  lemma {:induction false} FlushGood(st: QaState)
    requires GoodState(st)
    ensures GoodCards(Flush(st))
  {
  }

  /** One step keeps the state good, given a trimmed line. */
  lemma {:induction false} StepGood(st: QaState, line: string)
    requires GoodState(st) && Trimmed(line)
    ensures GoodState(Step(st, line))
  {
    var qm := QuestionMarker(line);
    var am := AnswerMarker(line);
    if qm > 0 {
      FlushGood(st);
      TrimIsTrimmed(line[qm..]);
    } else if am > 0 {
      TrimIsTrimmed(line[am..]);
    } else if st.a != "" && line != "" {
      JoinTrimmed(st.a, line);
    } else if st.q != "" && line != "" {
      JoinTrimmed(st.q, line);
    }
  }

  lemma {:induction false} RunGood(lines: seq<string>)
    requires forall i :: 0 <= i < |lines| ==> Trimmed(lines[i])
    ensures GoodState(Run(lines))
  {
    if lines != [] {
      RunGood(lines[..|lines| - 1]);
      StepGood(Run(lines[..|lines| - 1]), lines[|lines| - 1]);
    }
  }

  /** The `if (q)` guards of lines 111 and 123: no record has an empty question;
      and as every buffer is built from trimmed pieces joined by one space, no
      question or answer starts or ends with whitespace. */
  lemma {:induction false} ExtractedCardsGood(raw: string)
    ensures GoodCards(ExtractCards(raw))
  {
    var lines := TrimAll(SplitLines(raw));
    forall i | 0 <= i < |lines| ensures Trimmed(lines[i]) {
      TrimIsTrimmed(SplitLines(raw)[i]);
    }
    RunGood(lines);
    FlushGood(Run(lines));
  }

  /** Number of question-marker lines. */
  function QuestionLines(lines: seq<string>): nat {
    if lines == [] then 0
    else QuestionLines(lines[..|lines| - 1]) + (if QuestionMarker(lines[|lines| - 1]) > 0 then 1 else 0)
  }

  /** Records pushed plus the question still buffered never exceed the question
      lines seen: only a question line starts a question. */
  lemma {:induction false} RunBounded(lines: seq<string>)
    ensures Pending(Run(lines)) <= QuestionLines(lines)
  {
    if lines != [] {
      var init, last := lines[..|lines| - 1], lines[|lines| - 1];
      RunBounded(init);
      StepBounded(Run(init), last);
    }
  }

  /** Records pushed plus the one a buffered question would become. */
  function Pending(st: QaState): nat {
    |st.done| + if st.q != "" then 1 else 0
  }

  lemma {:induction false} StepBounded(st: QaState, line: string)
    ensures Pending(Step(st, line)) <= Pending(st) + if QuestionMarker(line) > 0 then 1 else 0
  {
  }

  /** There are at most as many records as question-marker lines. */
  lemma {:induction false} AtMostOneCardPerQuestion(raw: string)
    ensures |ExtractCards(raw)| <= QuestionLines(TrimAll(SplitLines(raw)))
  {
    var st := Run(TrimAll(SplitLines(raw)));
    RunBounded(TrimAll(SplitLines(raw)));
    assert |Flush(st)| == Pending(st);
  }

  /** A record, once pushed, is never changed or removed: the records of a
      prefix of the lines are a prefix of the records of all lines, so records
      come out in the order of their question lines. */
  lemma {:induction false} RecordsOnlyGrow(lines: seq<string>, more: seq<string>)
    ensures Run(lines).done <= Run(lines + more).done
  {
    RunSplits(lines, more);
    RunFromKeepsRecords(Run(lines), more);
  }

  lemma {:induction false} RunFromKeepsRecords(st: QaState, more: seq<string>)
    ensures st.done <= RunFrom(st, more).done
    decreases |more|
  {
    if more != [] {
      RunFromKeepsRecords(st, more[..|more| - 1]);
      StepKeepsRecords(RunFrom(st, more[..|more| - 1]), more[|more| - 1]);
    }
  }

  lemma {:induction false} StepKeepsRecords(st: QaState, line: string)
    ensures st.done <= Step(st, line).done
  {
  }

  predicate NoQuestionLine(lines: seq<string>) {
    forall i :: 0 <= i < |lines| ==> QuestionMarker(lines[i]) == 0
  }

  /** Before the first question line nothing is pushed and no question is
      buffered (only the answer buffer may hold text). */
  lemma {:induction false} BeforeFirstQuestion(lines: seq<string>)
    requires NoQuestionLine(lines)
    ensures Run(lines).done == [] && Run(lines).q == ""
  {
    if lines != [] {
      BeforeFirstQuestion(lines[..|lines| - 1]);
    }
  }

  /** The loop from a given state. */
  function RunFrom(st: QaState, lines: seq<string>): QaState {
    if lines == [] then st else Step(RunFrom(st, lines[..|lines| - 1]), lines[|lines| - 1])
  }

  lemma {:induction false} RunSplits(pre: seq<string>, post: seq<string>)
    ensures Run(pre + post) == RunFrom(Run(pre), post)
    decreases |post|
  {
    if post == [] {
      assert pre + post == pre;
    } else {
      assert (pre + post)[..|pre + post| - 1] == pre + post[..|post| - 1];
      RunSplits(pre, post[..|post| - 1]);
    }
  }

  /** From two states that differ only in the answer buffer, a question line
      leads to the same state, and so does everything after it. */
  lemma {:induction false} QuestionLineResets(s1: QaState, s2: QaState, post: seq<string>)
    requires s1.done == s2.done && s1.q == s2.q == ""
    requires post != [] && QuestionMarker(post[0]) > 0
    ensures RunFrom(s1, post) == RunFrom(s2, post)
    decreases |post|
  {
    if |post| > 1 {
      QuestionLineResets(s1, s2, post[..|post| - 1]);
    }
  }

  /** Answer text that comes before the first question line is thrown away:
      the result is the same as if those lines were not there. */
  lemma {:induction false} AnswerBeforeFirstQuestionDropped(pre: seq<string>, post: seq<string>)
    requires NoQuestionLine(pre)
    requires post != [] && QuestionMarker(post[0]) > 0
    ensures Flush(Run(pre + post)) == Flush(Run(post))
  {
    BeforeFirstQuestion(pre);
    RunSplits(pre, post);
    RunSplits([], post);
    assert [] + post == post;
    QuestionLineResets(Run(pre), Start, post);
  }

  /** Prose that happens to begin with the word `A` is read as an answer marker
      and overwrites the answer buffer: `A cat sat` leaves `cat sat` there. */
  lemma {:induction false} ArticleIsAnswerMarker(st: QaState, words: string)
    requires Trimmed(words)
    ensures Step(st, "A " + words) == st.(a := words)
  {
    var line := "A " + words;
    assert line[0] == 'A' && line[1] == ' ' && line[2..] == words;
    assert QuestionMarker(line) == 0 by {
      assert !FoldsTo(line[0], 'q');
      assert !StartsWithQuestion(line);
    }
    assert AnswerMarker(line) == 2;
    TrimFixed(words);
  }

  /** A continuation line goes to the answer when the answer buffer holds text,
      joined by one space, and to the question otherwise; a blank line changes
      nothing. */
  lemma {:induction false} ContinuationJoins(st: QaState, line: string)
    requires QuestionMarker(line) == 0 && AnswerMarker(line) == 0
    ensures line == "" ==> Step(st, line) == st
    ensures line != "" && st.a != "" ==> Step(st, line) == st.(a := st.a + " " + line)
    ensures line != "" && st.a == "" && st.q != "" ==> Step(st, line) == st.(q := st.q + " " + line)
    ensures st.a == "" && st.q == "" ==> Step(st, line) == st
  {
  }

  /** Trimming a space followed by trimmed text gives that text. */
  lemma {:induction false} TrimAfterSpace(x: string)
    requires Trimmed(x)
    ensures Trim(" " + x) == x
  {
    assert (" " + x)[1..] == x;
    TrimFixed(x);
  }

  /** A `Q: ` line pushes the buffered question, if any, and starts a new one
      with an empty answer. */
  lemma {:induction false} QuestionLineStarts(st: QaState, x: string)
    requires Trimmed(x)
    ensures Step(st, "Q: " + x) == QaState(Flush(st), x, "")
  {
    var line := "Q: " + x;
    assert line[0] == 'Q' && line[1] == ':' && line[2..] == " " + x;
    TrimAfterSpace(x);
  }

  /** An `A: ` line overwrites the answer buffer and changes nothing else. */
  lemma {:induction false} AnswerLineOverwrites(st: QaState, x: string)
    requires Trimmed(x)
    ensures Step(st, "A: " + x) == st.(a := x)
  {
    var line := "A: " + x;
    assert line[0] == 'A' && line[1] == ':' && line[2..] == " " + x;
    assert !FoldsTo(line[0], 'q');
    TrimAfterSpace(x);
  }

  /** Any line that starts with `Q` or `q` and a colon or whitespace pushes
      the buffered question, if any, and starts a new one from the rest of the
      line, trimmed, with an empty answer. */
  lemma {:induction false} QuestionLetterStarts(st: QaState, line: string)
    requires |line| >= 2 && FoldsTo(line[0], 'q') && IsMarkerEnd(line[1])
    ensures Step(st, line) == QaState(Flush(st), Trim(line[2..]), "")
  {
  }

  /** The same for `Question` in any letter case followed by a colon or
      whitespace: the whole word is the marker. */
  lemma {:induction false} QuestionWordStarts(st: QaState, line: string)
    requires |line| >= 9 && StartsWithQuestion(line) && IsMarkerEnd(line[8])
    ensures Step(st, line) == QaState(Flush(st), Trim(line[9..]), "")
  {
    assert !IsMarkerEnd(line[1]);
  }

  /** Any line that starts with `A` or `a` and a colon or whitespace
      overwrites the answer buffer with the rest of the line, trimmed, and
      changes nothing else. */
  lemma {:induction false} AnswerLetterOverwrites(st: QaState, line: string)
    requires |line| >= 2 && FoldsTo(line[0], 'a') && IsMarkerEnd(line[1])
    ensures Step(st, line) == st.(a := Trim(line[2..]))
  {
    assert !FoldsTo(line[0], 'q');
  }

  /** The same for `Answer` in any letter case followed by a colon or
      whitespace. */
  lemma {:induction false} AnswerWordOverwrites(st: QaState, line: string)
    requires |line| >= 7 && StartsWithAnswer(line) && IsMarkerEnd(line[6])
    ensures Step(st, line) == st.(a := Trim(line[7..]))
  {
    assert !FoldsTo(line[0], 'q') && !IsMarkerEnd(line[1]);
  }

  lemma {:induction false} RunFromSnoc(st: QaState, lines: seq<string>, l: string)
    ensures RunFrom(st, lines + [l]) == Step(RunFrom(st, lines), l)
  {
    assert (lines + [l])[..|lines|] == lines;
  }

  lemma {:induction false} RunFromTwo(st: QaState, l1: string, l2: string)
    ensures RunFrom(st, [l1, l2]) == Step(Step(st, l1), l2)
  {
    RunFromSnoc(st, [], l1);
    assert [] + [l1] == [l1];
    RunFromSnoc(st, [l1], l2);
    assert [l1] + [l2] == [l1, l2];
  }

  /** A question line followed by an answer line. */
  lemma {:induction false} QuestionThenAnswer(st: QaState, x: string, y: string)
    requires Trimmed(x) && Trimmed(y)
    ensures RunFrom(st, ["Q: " + x, "A: " + y]) == QaState(Flush(st), x, y)
  {
    RunFromTwo(st, "Q: " + x, "A: " + y);
    QuestionLineStarts(st, x);
    AnswerLineOverwrites(QaState(Flush(st), x, ""), y);
  }

  /** Alternating question and answer lines give one record per pair, in order. */
  lemma {:induction false} TwoRecords(x1: string, y1: string, x2: string, y2: string)
    requires x1 != [] && x2 != []
    requires Trimmed(x1) && Trimmed(y1) && Trimmed(x2) && Trimmed(y2)
    ensures Flush(Run(["Q: " + x1, "A: " + y1, "Q: " + x2, "A: " + y2]))
         == [Card(x1, y1), Card(x2, y2)]
  {
    var p1, p2 := ["Q: " + x1, "A: " + y1], ["Q: " + x2, "A: " + y2];
    assert ["Q: " + x1, "A: " + y1, "Q: " + x2, "A: " + y2] == p1 + p2;
    assert [] + p1 == p1;
    RunSplits([], p1);
    QuestionThenAnswer(Start, x1, y1);
    RunSplits(p1, p2);
    QuestionThenAnswer(QaState([], x1, y1), x2, y2);
  }
}
