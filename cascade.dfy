/** `robustParseFlashcards` (api/flashcards.js:7-137): normalise the model
    text, try `JSON.parse` on it and on a fixed sequence of repaired versions,
    return the first value that parses and is truthy, and otherwise fall back to
    the question/answer extractor and finally to a fixed record.

    `JSON.parse` (ECMA-262 section 25.5.1) is the parameter `parse`: it returns
    `None` where the real function throws, which is what `tryParse` turns into
    `null` (api/flashcards.js:20-26). */
module Cascade {
  import opened Json
  import opened Text
  import opened Normalize
  import opened Escapes
  import opened Extraction
  import opened Commas
  import opened Keys
  import opened Quotes
  import opened Qa

  /** What `robustParseFlashcards` returns: a parsed JSON value (of any shape),
      or a list of records built by the function itself. */
  datatype Outcome = Structured(value: Json) | Records(cards: seq<Card>)

  /** The texts handed to `tryParse`, in the order of lines 29, 37, 54, 61, 70,
      81, 89 and 97.  The extracted span and its escaped form are tried only
      when there is a span; stages 4 to 7 rewrite `attempt`, the escaped text,
      one after the other, and never the extracted span. */
  function Candidates(s: string): (cs: seq<string>)
    ensures |cs| == 6 || |cs| == 8
  {
    var attempt := EscapeStray(s);
    var span := match ExtractSpan(attempt)
      case Some(e) => [e, EscapeStray(e)]
      case None => [];
    [s, attempt] + span + StageFour(attempt)
  }

  /** The value of the first text whose parse is truthy, if any. */
  function FirstTruthy(parse: string -> Option<Json>, cs: seq<string>): Option<Json> {
    if cs == [] then None
    else if TruthyParse(parse, cs[0]) then Some(parse(cs[0]).value)
    else FirstTruthy(parse, cs[1..])
  }

  /** `FirstTruthy` finds a value exactly when some text parses to a truthy
      value, and then it is the value of the first such text: every text before
      it failed to parse or parsed to a falsy value. */
  lemma {:induction false} FirstTruthyIsFirst(parse: string -> Option<Json>, cs: seq<string>)
    ensures FirstTruthy(parse, cs).None? <==> forall i :: 0 <= i < |cs| ==> !TruthyParse(parse, cs[i])
    ensures FirstTruthy(parse, cs).Some? ==>
      exists i :: 0 <= i < |cs| && TruthyParse(parse, cs[i])
        && FirstTruthy(parse, cs).value == parse(cs[i]).value
        && forall j :: 0 <= j < i ==> !TruthyParse(parse, cs[j])
  {
    if cs != [] && !TruthyParse(parse, cs[0]) {
      FirstTruthyIsFirst(parse, cs[1..]);
      if FirstTruthy(parse, cs).Some? {
        var i :| 0 <= i < |cs[1..]| && TruthyParse(parse, cs[1..][i])
          && FirstTruthy(parse, cs[1..]).value == parse(cs[1..][i]).value
          && forall j :: 0 <= j < i ==> !TruthyParse(parse, cs[1..][j]);
        assert cs[i + 1] == cs[1..][i];
        forall j | 0 <= j < i + 1 ensures !TruthyParse(parse, cs[j]) {
          if j > 0 {
            assert cs[j] == cs[1..][j - 1];
          }
        }
      } else {
        forall i | 0 <= i < |cs| ensures !TruthyParse(parse, cs[i]) {
          if i > 0 {
            assert cs[i] == cs[1..][i - 1];
          }
        }
      }
    }
  }

  /** A value found in a prefix is the value found in the whole list. */
  lemma {:induction false} FirstTruthyAppend(parse: string -> Option<Json>, xs: seq<string>, ys: seq<string>)
    ensures FirstTruthy(parse, xs + ys) == if FirstTruthy(parse, xs).Some? then FirstTruthy(parse, xs) else FirstTruthy(parse, ys)
  {
    if xs == [] {
      assert xs + ys == ys;
    } else {
      assert (xs + ys)[0] == xs[0] && (xs + ys)[1..] == xs[1..] + ys;
      FirstTruthyAppend(parse, xs[1..], ys);
    }
  }

  function Min(a: int, b: int): int {
    if a <= b then a else b
  }

  /** The fixed record of lines 131-136: one card whose answer is the first 200
      characters of the raw text (all of it when it is shorter). */
  function Fallback(raw: string): (r: seq<Card>)
    ensures |r| == 1 && r[0].q == "Flashcard parsing failed"
    ensures r[0].a <= raw && |r[0].a| == Min(200, |raw|)
  {
    [Card("Flashcard parsing failed", raw[..Min(200, |raw|)])]
  }

  /** What `robustParseFlashcards` returns, stated as a search: the first truthy
      parse among the candidates, else the records of the question/answer
      extractor if there are any, else the fixed record. */
  function RobustParse(raw: string, parse: string -> Option<Json>): Outcome {
    Settle(FirstTruthy(parse, Candidates(NormalizeText(raw))), raw)
  }

  /** Lines 102-136: a value found by the search is returned; otherwise the
      extractor's records, or the fixed record when there are none. */
  function Settle(found: Option<Json>, raw: string): Outcome {
    match found
    case Some(v) => Structured(v)
    case None =>
      var qa := ExtractCards(raw);
      if |qa| > 0 then Records(qa) else Records(Fallback(raw))
  }

  /** `tryParse(str)` followed by `if (parsed)`. */
  predicate Accepts(parsed: Option<Json>) {
    parsed.Some? && Truthy(parsed.value)
  }

  /** One stage of the search: the first text decides when its parse is
      truthy, and otherwise the rest of the list does. */
  lemma {:induction false} StageDecides(parse: string -> Option<Json>, pending: seq<string>, c: string)
    requires pending != [] && pending[0] == c
    ensures FirstTruthy(parse, pending)
         == if TruthyParse(parse, c) then Some(parse(c).value) else FirstTruthy(parse, pending[1..])
  {
  }

  /** How the candidate list is laid out. */
  lemma {:induction false} CandidatesLayout(s: string)
    ensures var cs := Candidates(s);
      var attempt := EscapeStray(s);
      cs[0] == s && cs[1] == attempt
      && (ExtractSpan(attempt).Some? ==>
            cs[2] == ExtractSpan(attempt).value && cs[3] == EscapeStray(ExtractSpan(attempt).value)
            && cs[4..] == StageFour(attempt))
      && (ExtractSpan(attempt).None? ==> cs[2..] == StageFour(attempt))
  {
    var attempt := EscapeStray(s);
    var rest := StageFour(attempt);
    match ExtractSpan(attempt)
    case Some(e) =>
      var span := [e, EscapeStray(e)];
      assert Candidates(s) == [s, attempt] + span + rest;
      assert ([s, attempt] + span + rest)[4..] == rest;
    case None =>
      assert Candidates(s) == [s, attempt] + [] + rest;
      assert ([s, attempt] + [] + rest)[2..] == rest;
  }

  /** Stages 4 to 7 in order. */
  lemma {:induction false} StageFourLayout(attempt: string)
    ensures var t := StageFour(attempt);
      t[0] == DropTrailingCommas(attempt) && t[1] == QuoteKeys(t[0])
      && t[2] == SingleToDouble(t[1]) && t[3] == EscapeAll(t[2]) && t[4..] == []
  {
  }

  /** The function as written: each stage assigns `parsed` and returns it when
      it is truthy. */
  method RobustParseFlashcards(rawText: string, parse: string -> Option<Json>) returns (r: Outcome)
    ensures r == RobustParse(rawText, parse)
  {
    var s := NormalizeText(rawText);
    CandidatesLayout(s);
    ghost var pending := Candidates(s);
    StageDecides(parse, pending, s);
    var parsed := parse(s);
    if Accepts(parsed) {
      return Structured(parsed.value);
    }
    pending := pending[1..];
    var attempt := EscapeStray(s);
    StageDecides(parse, pending, attempt);
    parsed := parse(attempt);
    if Accepts(parsed) {
      return Structured(parsed.value);
    }
    pending := pending[1..];
    var extracted := ExtractSpan(attempt);
    if extracted.Some? {
      StageDecides(parse, pending, extracted.value);
      parsed := parse(extracted.value);
      if Accepts(parsed) {
        return Structured(parsed.value);
      }
      pending := pending[1..];
      var escaped := EscapeStray(extracted.value);
      StageDecides(parse, pending, escaped);
      parsed := parse(escaped);
      if Accepts(parsed) {
        return Structured(parsed.value);
      }
      pending := pending[1..];
    }
    StageFourLayout(attempt);
    assert pending == StageFour(attempt);
    attempt := DropTrailingCommas(attempt);
    StageDecides(parse, pending, attempt);
    parsed := parse(attempt);
    if Accepts(parsed) {
      return Structured(parsed.value);
    }
    pending := pending[1..];
    attempt := QuoteKeys(attempt);
    StageDecides(parse, pending, attempt);
    parsed := parse(attempt);
    if Accepts(parsed) {
      return Structured(parsed.value);
    }
    pending := pending[1..];
    attempt := SingleToDouble(attempt);
    StageDecides(parse, pending, attempt);
    parsed := parse(attempt);
    if Accepts(parsed) {
      return Structured(parsed.value);
    }
    pending := pending[1..];
    attempt := EscapeAll(attempt);
    StageDecides(parse, pending, attempt);
    parsed := parse(attempt);
    if Accepts(parsed) {
      return Structured(parsed.value);
    }
    pending := pending[1..];
    assert pending == [];
    var qa := ExtractQa(rawText);
    if |qa| > 0 {
      return Records(qa);
    }
    return Records(Fallback(rawText));
  }

  /** Stages 4 to 7, each rewriting the result of the one before. */
  function StageFour(attempt: string): seq<string> {
    var commas := DropTrailingCommas(attempt);
    var keys := QuoteKeys(commas);
    var quotes := SingleToDouble(keys);
    [commas, keys, quotes, EscapeAll(quotes)]
  }

  /** A parsed value is returned only when it is truthy, and it is the value of
      the first candidate whose parse is truthy (the one at `i`): a candidate
      that parses to `0`, `false`, `null` or `""` is passed over like one that
      fails. */
  lemma {:induction false} StructuredIsFirstTruthy(raw: string, parse: string -> Option<Json>) returns (i: nat)
    ensures var cs := Candidates(NormalizeText(raw));
      var r := RobustParse(raw, parse);
      r.Structured? ==>
        Truthy(r.value) && i < |cs| && parse(cs[i]) == Some(r.value)
        && forall j :: 0 <= j < i ==> !TruthyParse(parse, cs[j])
  {
    var cs := Candidates(NormalizeText(raw));
    assert RobustParse(raw, parse) == Settle(FirstTruthy(parse, cs), raw);
    i := SettleFirst(parse, cs, raw);
  }

  lemma {:induction false} SettleFirst(parse: string -> Option<Json>, cs: seq<string>, raw: string) returns (i: nat)
    ensures var r := Settle(FirstTruthy(parse, cs), raw);
      r.Structured? ==>
        Truthy(r.value) && i < |cs| && parse(cs[i]) == Some(r.value)
        && forall j :: 0 <= j < i ==> !TruthyParse(parse, cs[j])
  {
    FirstTruthyIsFirst(parse, cs);
    i := 0;
    if FirstTruthy(parse, cs).Some? {
      i :| 0 <= i < |cs| && TruthyParse(parse, cs[i])
        && FirstTruthy(parse, cs).value == parse(cs[i]).value
        && forall j :: 0 <= j < i ==> !TruthyParse(parse, cs[j]);
    }
  }

  /** The records are built only when no candidate parses to a truthy value. */
  lemma {:induction false} RecordsOnlyWhenNoParse(raw: string, parse: string -> Option<Json>)
    ensures var cs := Candidates(NormalizeText(raw));
      RobustParse(raw, parse).Records? <==> forall i :: 0 <= i < |cs| ==> !TruthyParse(parse, cs[i])
  {
    SettleRecords(parse, Candidates(NormalizeText(raw)), raw);
  }

  lemma {:induction false} SettleRecords(parse: string -> Option<Json>, cs: seq<string>, raw: string)
    ensures Settle(FirstTruthy(parse, cs), raw).Records? <==> forall i :: 0 <= i < |cs| ==> !TruthyParse(parse, cs[i])
  {
    FirstTruthyIsFirst(parse, cs);
  }

  /** When the normalised text parses to a truthy value, that value is
      returned as it is, whatever the later stages would make of it. */
  lemma {:induction false} StrictParseWins(raw: string, parse: string -> Option<Json>)
    requires TruthyParse(parse, NormalizeText(raw))
    ensures RobustParse(raw, parse) == Structured(parse(NormalizeText(raw)).value)
  {
  }

  /** An empty array or object is truthy, so it is returned rather than
      passed over. */
  lemma {:induction false} EmptyContainersReturned(raw: string, parse: string -> Option<Json>)
    requires parse(NormalizeText(raw)) == Some(JArray([])) || parse(NormalizeText(raw)) == Some(JObject([]))
    ensures RobustParse(raw, parse) == Structured(parse(NormalizeText(raw)).value)
  {
    StrictParseWins(raw, parse);
  }

  /** Nothing checks that a parsed value is a list of cards: a number, a
      non-empty string, `true` or an object that the first parse accepts is
      returned as it is. */
  lemma {:induction false} NonListReturned(raw: string, parse: string -> Option<Json>, v: Json)
    requires parse(NormalizeText(raw)) == Some(v)
    requires (v.JNumber? && v.n != 0.0) || (v.JString? && v.s != "") || v == JBool(true) || v.JObject?
    ensures RobustParse(raw, parse) == Structured(v)
  {
    StrictParseWins(raw, parse);
  }

  /** The function never returns an empty list of records: the list it builds
      has at least one card, and every card has a non-empty question.  An empty
      list can only come from a parse. */
  lemma {:induction false} RecordsNeverEmpty(raw: string, parse: string -> Option<Json>)
    ensures RobustParse(raw, parse).Records? ==>
      var cards := RobustParse(raw, parse).cards;
      |cards| >= 1 && forall i :: 0 <= i < |cards| ==> cards[i].q != ""
  {
    SettleNeverEmpty(FirstTruthy(parse, Candidates(NormalizeText(raw))), raw);
  }

  lemma {:induction false} SettleNeverEmpty(found: Option<Json>, raw: string)
    ensures Settle(found, raw).Records? ==>
      var cards := Settle(found, raw).cards;
      |cards| >= 1 && forall i :: 0 <= i < |cards| ==> cards[i].q != ""
  {
    if found.None? {
      var qa := ExtractCards(raw);
      ExtractedCardsGood(raw);
      assert GoodCards(qa);
      if |qa| > 0 {
        assert Settle(found, raw) == Records(qa);
      } else {
        assert Settle(found, raw) == Records(Fallback(raw));
      }
    }
  }

  /** With no truthy parse and no question line the fixed record is
      returned, and its answer is the start of the raw text. */
  lemma {:induction false} FallbackWhenNothingFound(raw: string, parse: string -> Option<Json>)
    requires forall i :: 0 <= i < |Candidates(NormalizeText(raw))| ==> !TruthyParse(parse, Candidates(NormalizeText(raw))[i])
    requires QuestionLines(TrimAll(SplitLines(raw))) == 0
    ensures RobustParse(raw, parse) == Records([Card("Flashcard parsing failed", raw[..Min(200, |raw|)])])
  {
    SettleRecords(parse, Candidates(NormalizeText(raw)), raw);
    SettleFallback(FirstTruthy(parse, Candidates(NormalizeText(raw))), raw);
  }

  lemma {:induction false} SettleFallback(found: Option<Json>, raw: string)
    requires found.None? && QuestionLines(TrimAll(SplitLines(raw))) == 0
    ensures Settle(found, raw) == Records(Fallback(raw))
  {
    AtMostOneCardPerQuestion(raw);
  }

  /** Every candidate made from the empty text is empty. */
  lemma {:induction false} EmptyCandidates()
    ensures forall i :: 0 <= i < |Candidates("")| ==> Candidates("")[i] == ""
  {
    assert EscapeStray("") == "";
    assert ExtractSpan("") == None;
    assert DropTrailingCommas("") == "";
    assert QuoteKeys("") == "";
    assert SingleToDouble("") == "";
    assert EscapeAll("") == "";
    CandidatesLayout("");
    StageFourLayout("");
  }

  /** The empty text has a single, empty line, which is no question line. */
  lemma {:induction false} EmptyHasNoQuestion()
    ensures QuestionLines(TrimAll(SplitLines(""))) == 0
  {
    assert SplitLines("") == [""];
    TrimFixed("");
    assert TrimAll([""]) == [""];
    assert QuestionMarker("") == 0;
    assert [""][..0] == [];
  }

  /** The empty text: when `""` does not parse to a truthy value (JavaScript's
      `JSON.parse("")` throws) the result is the fixed record with an empty
      answer. */
  lemma {:induction false} EmptyInput(parse: string -> Option<Json>)
    requires !TruthyParse(parse, "")
    ensures RobustParse("", parse) == Records([Card("Flashcard parsing failed", "")])
  {
    NormalizeEmpty();
    var cs := Candidates("");
    EmptyCandidates();
    SettleRecords(parse, cs, "");
    var found := FirstTruthy(parse, cs);
    assert found.None?;
    EmptyHasNoQuestion();
    SettleFallback(found, "");
    assert Fallback("") == [Card("Flashcard parsing failed", "")];
  }

  lemma {:induction false} NormalizeEmpty()
    ensures NormalizeText("") == ""
  {
    assert StripFences("") == "" && StripTicks("") == "";
    TrimFixed("");
  }
}
