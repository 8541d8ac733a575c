/** The substring extraction of the cascade: `findJSON` (api/flashcards.js:44-49)
    and the choice of api/flashcards.js:51-52, which tries an array span before an
    object span. */
module Extraction {
  import opened Json
  import opened Text

  /** `findJSON(str, open, close)`: the text from the first `open` to the last
      `close`, both included, or `null` (here `None`). */
  function FindJson(s: string, open: char, close: char): (r: Option<string>)
    ensures r.Some? <==> exists i, j :: 0 <= i < j < |s| && s[i] == open && s[j] == close
    ensures r.Some? ==> |r.value| >= 2 && r.value[0] == open && r.value[|r.value| - 1] == close
  {
    var start := IndexOf(s, open);
    var end := LastIndexOf(s, close);
    if start == -1 || end == -1 || end <= start then
      None
    else
      Some(s[start..end + 1])
  }

  /** `findJSON` returns `null` exactly when `open` is missing, `close` is missing,
      or the last `close` is at or before the first `open`; otherwise it returns
      the span `s[i..j+1]` from the first `open` (no `open` before `i`) to the last
      `close` (no `close` after `j`). */
  lemma {:induction false} FindJsonSpan(s: string, open: char, close: char) returns (i: nat, j: nat)
    ensures FindJson(s, open, close).None? <==>
      (open !in s || close !in s || LastIndexOf(s, close) <= IndexOf(s, open))
    ensures FindJson(s, open, close).Some? ==>
      i < j < |s| && FindJson(s, open, close).value == s[i..j + 1]
      && s[i] == open && s[j] == close
      && (forall k :: 0 <= k < i ==> s[k] != open)
      && (forall k :: j < k < |s| ==> s[k] != close)
  {
    i, j := 0, 0;
    if FindJson(s, open, close).Some? {
      i, j := IndexOf(s, open), LastIndexOf(s, close);
    }
  }

  /** `findJSON(attempt, "[", "]") || findJSON(attempt, "{", "}")`.  A found span is
      never empty, so `||` falls through to the object span only on `null`. */
  function ExtractSpan(s: string): (r: Option<string>)
    ensures r.Some? ==> r.value != []
  {
    match FindJson(s, '[', ']')
    case Some(span) => Some(span)
    case None => FindJson(s, '{', '}')
  }

  /** An array span, when there is one, is preferred to an object span. */
  lemma {:induction false} ArraySpanFirst(s: string)
    ensures FindJson(s, '[', ']').Some? ==> ExtractSpan(s) == FindJson(s, '[', ']')
    ensures FindJson(s, '[', ']').None? ==> ExtractSpan(s) == FindJson(s, '{', '}')
    ensures ExtractSpan(s).Some? ==>
      var v := ExtractSpan(s).value;
      (v[0] == '[' && v[|v| - 1] == ']') || (v[0] == '{' && v[|v| - 1] == '}')
  {
  }
}
