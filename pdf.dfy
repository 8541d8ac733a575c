/** The parse step of the PDF handler (api/pdfToFlashcards.js:62-71): take the
    model's text, or `"[]"` when there is none, remove the lower-case
    ```` ```json ```` tags and then every fence, trim, and hand the result to
    `JSON.parse` once.  A parse failure gives a fixed error card.  There is no
    repair stage, no truthiness test and no typographic-quote mapping, unlike
    `robustParseFlashcards`. */
module PdfParse {
  import opened Json
  import opened Text
  import opened Normalize

  /** The opening tag the handler removes; the match is case-sensitive. */
  const JsonFence := "```json"

  /** `s.replace(/```json/g, "")`. */
  function StripJsonFences(s: string): string
    decreases |s|
  {
    if s == [] then []
    else if StartsWith(s, JsonFence) then StripJsonFences(s[7..])
    else [s[0]] + StripJsonFences(s[1..])
  }

  /** `text || "[]"`: a missing or empty text becomes the empty JSON array. */
  function RawText(text: Option<string>): (r: string)
    ensures r != []
    ensures text.None? || text == Some("") ==> r == "[]"
    ensures text.Some? && text.value != [] ==> r == text.value
  {
    match text
    case Some(t) => if t != [] then t else "[]"
    case None => "[]"
  }

  /** The text handed to `JSON.parse` at line 66. */
  function Cleaned(raw: string): string {
    Trim(StripTicks(StripJsonFences(raw)))
  }

  /** The card of line 70. */
  const ErrorCards := [Card("Error", "Failed to parse Gemini output")]

  /** The value bound to `flashcards` by lines 64-71. */
  function PdfFlashcards(text: Option<string>, parse: string -> Option<Json>): Json {
    match parse(Cleaned(RawText(text)))
    case Some(v) => v
    case None => CardsToJson(ErrorCards)
  }

  /** No fence is left in the text that is parsed. */
  lemma {:induction false} CleanedHasNoFence(raw: string)
    ensures !Occurs(Fence, Cleaned(raw))
  {
    StripTicksLeavesNoFence(StripJsonFences(raw));
    TrimKeepsNoFence(StripTicks(StripJsonFences(raw)));
  }

  /** Text without backticks and without whitespace at its ends is parsed as
      it is: smart quotes, single quotes, trailing commas, stray backslashes
      and bare keys all reach `JSON.parse` unchanged. */
  lemma {:induction false} PlainTextUnchanged(s: string)
    requires '`' !in s
    requires s == [] || (!IsSpace(s[0]) && !IsSpace(s[|s| - 1]))
    ensures Cleaned(s) == s
  {
    StripJsonCopies(s, []);
    StripTicksCopies(s, []);
    assert s + [] == s;
    TrimFixed(s);
  }

  /** A character other than a backtick is copied. */
  lemma {:induction false} StripJsonKeeps(c: char, t: string)
    requires c != '`'
    ensures StripJsonFences([c] + t) == [c] + StripJsonFences(t)
  {
    assert ([c] + t)[1..] == t;
  }

  /** Text without backticks is copied as it is. */
  lemma {:induction false} StripJsonCopies(t: string, u: string)
    requires '`' !in t
    ensures StripJsonFences(t + u) == t + StripJsonFences(u)
  {
    if t == [] {
      assert t + u == u;
    } else {
      var r := t[1..] + u;
      assert StripJsonFences(r) == t[1..] + StripJsonFences(u) by {
        assert forall c :: c in t[1..] ==> c in t;
        StripJsonCopies(t[1..], u);
      }
      assert StripJsonFences([t[0]] + r) == [t[0]] + StripJsonFences(r) by {
        assert t[0] in t;
        StripJsonKeeps(t[0], r);
      }
      assert t + u == [t[0]] + r;
      assert t == [t[0]] + t[1..];
    }
  }

  /** A lower-case ```` ```json ```` is removed. */
  lemma {:induction false} StripJsonTag(t: string)
    ensures StripJsonFences(JsonFence + t) == StripJsonFences(t)
  {
    assert (JsonFence + t)[..7] == JsonFence && (JsonFence + t)[7..] == t;
  }

  /** A fence followed by anything but a backtick or `json` is kept. */
  lemma {:induction false} StripJsonKeepsFence(t: string)
    requires t == [] || t[0] != '`'
    requires !StartsWith(t, "json")
    ensures StripJsonFences(Fence + t) == Fence + StripJsonFences(t)
  {
    var s1 := "`" + t;
    var s2 := "`" + s1;
    var s3 := "`" + s2;
    assert s3 == Fence + t;
    assert s1[1..] == t && s2[1..] == s1 && s3[1..] == s2;
    assert !StartsWith(s1, JsonFence) by {
      if |s1| >= 7 {
        assert s1[1] == t[0];
      }
    }
    assert !StartsWith(s2, JsonFence) by {
      if |s2| >= 7 {
        assert s2[2] == t[0];
      }
    }
    assert !StartsWith(s3, JsonFence) by {
      if |s3| >= 7 {
        assert s3[..7][3..] == t[..4];
      }
    }
    assert StripJsonFences(s1) == "`" + StripJsonFences(t);
    assert StripJsonFences(s2) == "`" + StripJsonFences(s1);
    assert StripJsonFences(s3) == "`" + StripJsonFences(s2);
  }

  /** The tag test is case-sensitive: after a fence with any other tag, an
      upper-case `JSON` included, the tag stays in the parsed text. */
  lemma {:induction false} OtherTagKept(t: string)
    requires t != [] && '`' !in t && !StartsWith(t, "json")
    ensures Cleaned(Fence + t + Fence) == Trim(t)
  {
    assert t[0] in t;
    assert !StartsWith(t + Fence, "json") by {
      if |t| >= 4 {
        assert (t + Fence)[..4] == t[..4];
      } else {
        assert (t + Fence)[|t|] == '`';
      }
    }
    assert StripJsonFences(Fence + t + Fence) == Fence + t + Fence by {
      assert Fence + t + Fence == Fence + (t + Fence);
      StripJsonKeepsFence(t + Fence);
      StripJsonCopies(t, Fence);
      StripJsonKeepsFence([]);
      assert Fence + [] == Fence;
    }
    assert StripTicks(Fence + t + Fence) == t by {
      assert Fence + t + Fence == Fence + (t + Fence);
      StripTicksFence(t + Fence);
      StripTicksCopies(t, Fence);
      StripTicksFence([]);
      assert Fence + [] == Fence;
      assert t + [] == t;
    }
  }

  /** A block opened with a lower-case ```` ```json ```` loses its tag and both fences. */
  lemma {:induction false} JsonBlockUnwrapped(t: string)
    requires '`' !in t
    ensures Cleaned(JsonFence + t + Fence) == Trim(t)
  {
    assert JsonFence + t + Fence == JsonFence + (t + Fence);
    StripJsonTag(t + Fence);
    StripJsonCopies(t, Fence);
    StripJsonKeepsFence([]);
    assert Fence + [] == Fence;
    StripTicksCopies(t, Fence);
    StripTicksFence([]);
    assert StripTicks([]) == [];
    assert t + [] == t;
  }

  /** The tag is matched case-sensitively: a block opened with ```` ```JSON ````,
      ```` ```Json ```` or any spelling other than ```` ```json ```` (all of
      which the normaliser of `robustParseFlashcards` removes) reaches
      `JSON.parse` with the tag in front, which it rejects. */
  lemma {:induction false} OtherCaseTagKept(tag: string, rest: string)
    requires |tag| == 4 && IsJsonTag(tag) && tag != "json"
    requires '`' !in rest
    ensures Cleaned(Fence + tag + rest + Fence) == Trim(tag + rest)
  {
    var t := tag + rest;
    assert Fence + tag + rest + Fence == Fence + t + Fence;
    assert !StartsWith(t, "json") by {
      assert t[..4] == tag;
    }
    assert '`' !in t by {
      assert forall i :: 0 <= i < 4 ==> t[i] == tag[i];
      assert forall i :: 4 <= i < |t| ==> t[i] == rest[i - 4];
    }
    OtherTagKept(t);
  }

  /** A successful parse is returned whatever it is: `null`, `false`, `0`
      and `""` included, where `robustParseFlashcards` would move on. */
  lemma {:induction false} ParsedValueReturned(text: Option<string>, parse: string -> Option<Json>, v: Json)
    requires parse(Cleaned(RawText(text))) == Some(v)
    ensures PdfFlashcards(text, parse) == v
  {
  }

  /** A failed parse gives the same single error card for every input. */
  lemma {:induction false} FailureIgnoresInput(t1: Option<string>, t2: Option<string>, parse: string -> Option<Json>)
    requires parse(Cleaned(RawText(t1))) == None && parse(Cleaned(RawText(t2))) == None
    ensures PdfFlashcards(t1, parse) == PdfFlashcards(t2, parse)
    ensures PdfFlashcards(t1, parse)
         == JArray([JObject([("q", JString("Error")), ("a", JString("Failed to parse Gemini output"))])])
  {
    ErrorCardsJson();
  }

  lemma {:induction false} ErrorCardsJson()
    ensures CardsToJson(ErrorCards)
         == JArray([JObject([("q", JString("Error")), ("a", JString("Failed to parse Gemini output"))])])
  {
    var v := CardsToJson(ErrorCards);
    assert v.elems[0] == JObject([("q", JString("Error")), ("a", JString("Failed to parse Gemini output"))]);
    assert v.elems == [v.elems[0]];
  }

  /** No repair: `JSON.parse` sees a single text, so two parsers that agree
      on it give the same result, whatever they do with repaired texts. */
  lemma {:induction false} ParsedOnce(text: Option<string>, p1: string -> Option<Json>, p2: string -> Option<Json>)
    requires p1(Cleaned(RawText(text))) == p2(Cleaned(RawText(text)))
    ensures PdfFlashcards(text, p1) == PdfFlashcards(text, p2)
  {
  }

  /** A plain text that does not parse as it stands (a trailing comma, a
      single quote, a stray backslash, a bare key) gives the error card. */
  lemma {:induction false} NoRepair(s: string, parse: string -> Option<Json>)
    requires s != [] && '`' !in s && !IsSpace(s[0]) && !IsSpace(s[|s| - 1])
    requires parse(s) == None
    ensures PdfFlashcards(Some(s), parse) == CardsToJson(ErrorCards)
  {
    PlainTextUnchanged(s);
  }

  /** With no model text, or an empty one, the text `"[]"` is parsed, which
      gives the empty list. */
  lemma {:induction false} MissingTextIsEmptyList(text: Option<string>, parse: string -> Option<Json>)
    requires text == None || text == Some("")
    requires parse("[]") == Some(JArray([]))
    ensures PdfFlashcards(text, parse) == JArray([])
  {
    assert '`' !in "[]";
    PlainTextUnchanged("[]");
  }
}
