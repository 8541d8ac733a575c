/** The single-quote repair of api/flashcards.js:88,
    `attempt.replace(/'([^']*)'/g, (_, x) => '"' + x.replace(/"/g, '\\"') + '"')`:
    single quotes are paired left to right, and each pair becomes a pair of
    double quotes (the only string delimiter RFC 8259 section 7 allows), with
    every double quote between them escaped as `\"`. */
module Quotes {
  import opened Text

  /** `x.replace(/"/g, '\\"')`. */
  function EscapeDq(x: string): (r: string)
    ensures r != [] ==> r[0] != '"'
  {
    if x == [] then [] else (if x[0] == '"' then "\\\"" else [x[0]]) + EscapeDq(x[1..])
  }

  /** The escape adds one backslash per double quote and moves no single quote. */
  lemma {:induction false} EscapeDqCounts(x: string)
    ensures |EscapeDq(x)| == |x| + Count(x, '"')
    ensures Count(EscapeDq(x), '\'') == Count(x, '\'')
  {
    if x != [] {
      EscapeDqCounts(x[1..]);
      var head := if x[0] == '"' then "\\\"" else [x[0]];
      CountAppend(head, EscapeDq(x[1..]), '\'');
    }
  }

  /** Turns every `\"` back into `"`, read left to right. */
  function UnescapeDq(t: string): string {
    if t == [] then []
    else if |t| >= 2 && t[0] == '\\' && t[1] == '"' then "\"" + UnescapeDq(t[2..])
    else [t[0]] + UnescapeDq(t[1..])
  }

  /** Escaping the double quotes of a quoted text loses nothing. */
  lemma {:induction false} EscapeDqRoundTrip(x: string)
    ensures UnescapeDq(EscapeDq(x)) == x
  {
    if x != [] {
      var t := EscapeDq(x);
      var rest := EscapeDq(x[1..]);
      EscapeDqRoundTrip(x[1..]);
      if x[0] == '"' {
        assert t == "\\\"" + rest && t[2..] == rest;
      } else {
        assert t == [x[0]] + rest && t[1..] == rest;
        assert |t| >= 2 ==> t[1] == rest[0];
      }
    }
  }

  /** The replacement as the regular expression runs it: at a `'` the match runs
      to the next `'`; with no `'` after it the match fails there and the scan
      moves on by one character. */
  function SingleToDouble(s: string): string
    decreases |s|
  {
    if s == [] then []
    else if s[0] == '\'' && QuoteFree(s[1..]) < |s| - 1 then
      var k := QuoteFree(s[1..]);
      "\"" + EscapeDq(s[1..k + 1]) + "\"" + SingleToDouble(s[k + 2..])
    else [s[0]] + SingleToDouble(s[1..])
  }

  /** Length of the `[^']*` run at the start of `t`. */
  function QuoteFree(t: string): (n: nat)
    ensures n <= |t|
  {
    if t != [] && t[0] != '\'' then 1 + QuoteFree(t[1..]) else 0
  }

  /** The run stops at the first `'`, or at the end. */
  lemma {:induction false} QuoteFreeStops(t: string)
    ensures var n := QuoteFree(t);
      (forall i :: 0 <= i < n ==> t[i] != '\'') && (n == |t| || t[n] == '\'')
  {
    if t != [] && t[0] != '\'' {
      QuoteFreeStops(t[1..]);
    }
  }

  lemma {:induction false} QuoteFreeOf(x: string, y: string)
    requires '\'' !in x && y != [] && y[0] == '\''
    ensures QuoteFree(x + y) == |x|
  {
    if x == [] {
      assert x + y == y;
    } else {
      assert x[0] in x && (x + y)[1..] == x[1..] + y;
      assert forall c :: c in x[1..] ==> c in x;
      QuoteFreeOf(x[1..], y);
    }
  }

  /** The output at a matched pair. */
  lemma {:induction false} PairUnfolds(s: string, k: int, inner: string, rest: string)
    requires s != [] && s[0] == '\'' && k == QuoteFree(s[1..]) && k < |s| - 1
    requires inner == s[1..k + 1] && rest == s[k + 2..]
    ensures SingleToDouble(s) == "\"" + EscapeDq(inner) + "\"" + SingleToDouble(rest)
  {
  }

  /** The output where no pair starts. */
  lemma {:induction false} SkipUnfolds(s: string)
    requires s != [] && !(s[0] == '\'' && QuoteFree(s[1..]) < |s| - 1)
    ensures SingleToDouble(s) == [s[0]] + SingleToDouble(s[1..])
  {
  }

  /** Text with no single quote is left unchanged. */
  lemma {:induction false} NoSingleQuoteUnchanged(s: string)
    requires '\'' !in s
    ensures SingleToDouble(s) == s
  {
    if s != [] {
      assert s[0] in s;
      assert forall c :: c in s[1..] ==> c in s;
      NoSingleQuoteUnchanged(s[1..]);
    }
  }

  /** Pairs are removed two quotes at a time, so an odd quote out is all that can
      remain: the number of single quotes left is the original number mod 2. */
  lemma {:induction false} SingleQuotesLeft(s: string)
    ensures Count(SingleToDouble(s), '\'') == Count(s, '\'') % 2
    decreases |s|
  {
    if s != [] {
      var k := QuoteFree(s[1..]);
      if s[0] == '\'' && k < |s| - 1 {
        SingleQuotesLeft(s[k + 2..]);
        PairCase(s, k);
      } else {
        SingleQuotesLeft(s[1..]);
        SkipCase(s);
        HeadSplit(s);
        if s[0] == '\'' {
          LoneQuote(s);
        }
        assert Count([s[0]], '\'') == if s[0] == '\'' then 1 else 0;
      }
    }
  }

  /** A matched pair takes two `'` away and adds none. */
  lemma {:induction false} PairCase(s: string, k: int)
    requires s != [] && s[0] == '\'' && k == QuoteFree(s[1..]) && k < |s| - 1
    ensures Count(SingleToDouble(s), '\'') == Count(SingleToDouble(s[k + 2..]), '\'')
    ensures Count(s, '\'') == 2 + Count(s[k + 2..], '\'')
  {
    var inner, rest := s[1..k + 1], s[k + 2..];
    PairCounts(s, k, inner, rest);
    PairUnfolds(s, k, inner, rest);
    EscapeDqCounts(inner);
    OutputCount(EscapeDq(inner), SingleToDouble(rest));
  }

  /** Where no pair starts, the head is copied; a `'` there has no partner, so
      none follows it. */
  lemma {:induction false} SkipCase(s: string)
    requires s != [] && !(s[0] == '\'' && QuoteFree(s[1..]) < |s| - 1)
    ensures Count(SingleToDouble(s), '\'') == Count([s[0]], '\'') + Count(SingleToDouble(s[1..]), '\'')
  {
    SkipUnfolds(s);
    CountAppend([s[0]], SingleToDouble(s[1..]), '\'');
  }

  lemma {:induction false} HeadSplit(s: string)
    requires s != []
    ensures Count(s, '\'') == Count([s[0]], '\'') + Count(s[1..], '\'')
  {
    CountAppend([s[0]], s[1..], '\'');
    assert s == [s[0]] + s[1..];
  }

  lemma {:induction false} LoneQuote(s: string)
    requires s != [] && s[0] == '\'' && QuoteFree(s[1..]) >= |s| - 1
    ensures Count(s[1..], '\'') == 0
  {
    QuoteFreeStops(s[1..]);
    NoOccurrenceNoCount(s[1..], '\'');
  }

  /** A matched pair holds two single quotes, and none between them. */
  lemma {:induction false} PairCounts(s: string, k: int, inner: string, rest: string)
    requires s != [] && s[0] == '\'' && k == QuoteFree(s[1..]) && k < |s| - 1
    requires inner == s[1..k + 1] && rest == s[k + 2..]
    ensures Count(s, '\'') == 2 + Count(rest, '\'') && Count(inner, '\'') == 0
  {
    QuoteFreeStops(s[1..]);
    assert s == [s[0]] + (inner + ([s[k + 1]] + rest));
    assert s[k + 1] == s[1..][k];
    assert forall i :: 0 <= i < |inner| ==> inner[i] == s[1..][i];
    NoOccurrenceNoCount(inner, '\'');
    CountAppend([s[0]], inner + ([s[k + 1]] + rest), '\'');
    CountAppend(inner, [s[k + 1]] + rest, '\'');
    CountAppend([s[k + 1]], rest, '\'');
  }

  lemma {:induction false} OutputCount(e: string, t: string)
    ensures Count("\"" + e + "\"" + t, '\'') == Count(e, '\'') + Count(t, '\'')
  {
    CountAppend("\"", e, '\'');
    CountAppend("\"" + e, "\"", '\'');
    CountAppend("\"" + e + "\"", t, '\'');
  }

  /** A pair at the very start. */
  lemma {:induction false} PairAtHead(x: string, rest: string)
    requires '\'' !in x
    ensures SingleToDouble("'" + x + "'" + rest) == "\"" + EscapeDq(x) + "\"" + SingleToDouble(rest)
  {
    var s := "'" + x + "'" + rest;
    assert s[1..] == x + "'" + rest;
    assert x + "'" + rest == x + ("'" + rest);
    QuoteFreeOf(x, "'" + rest);
    assert s[1..|x| + 1] == x && s[|x| + 2..] == rest;
    PairUnfolds(s, |x|, x, rest);
  }

  /** A character other than `'` is copied. */
  lemma {:induction false} KeepsHead(c: char, t: string)
    requires c != '\''
    ensures SingleToDouble([c] + t) == [c] + SingleToDouble(t)
  {
    assert ([c] + t)[1..] == t;
    SkipUnfolds([c] + t);
  }

  /** Text before the first `'` is copied as it is. */
  lemma {:induction false} CopiesPlainPrefix(pre: string, t: string)
    requires '\'' !in pre
    ensures SingleToDouble(pre + t) == pre + SingleToDouble(t)
  {
    if pre == [] {
      assert pre + t == t;
    } else {
      assert pre[0] in pre;
      assert forall c :: c in pre[1..] ==> c in pre;
      CopiesPlainPrefix(pre[1..], t);
      KeepsHead(pre[0], pre[1..] + t);
      assert pre + t == [pre[0]] + (pre[1..] + t);
    }
  }

  /** One pair: the text before the first `'` is kept, the quoted text is
      wrapped in double quotes with its own double quotes escaped, and the scan
      resumes after the closing `'`. */
  lemma {:induction false} QuotesFirstPair(pre: string, x: string, rest: string)
    requires '\'' !in pre && '\'' !in x
    ensures SingleToDouble(pre + "'" + x + "'" + rest)
         == pre + "\"" + EscapeDq(x) + "\"" + SingleToDouble(rest)
  {
    var tail := "'" + x + "'" + rest;
    var out := "\"" + EscapeDq(x) + "\"" + SingleToDouble(rest);
    assert pre + "'" + x + "'" + rest == pre + tail;
    assert pre + "\"" + EscapeDq(x) + "\"" + SingleToDouble(rest) == pre + out;
    assert SingleToDouble(tail) == out by {
      PairAtHead(x, rest);
    }
    CopiesPlainPrefix(pre, tail);
  }

  /** A `'` with no other `'` after it has no partner: it is kept, and so is
      the text after it. */
  lemma {:induction false} LoneQuoteAtHead(post: string)
    requires '\'' !in post
    ensures SingleToDouble("'" + post) == "'" + post
  {
    var s := "'" + post;
    assert s[1..] == post;
    QuoteFreeStops(post);
    assert QuoteFree(post) == |post|;
    SkipUnfolds(s);
    NoSingleQuoteUnchanged(post);
  }

  /** A single quote that is the only one in the text has no partner and is
      kept, like everything around it. */
  lemma {:induction false} LastQuoteKept(pre: string, post: string)
    requires '\'' !in pre && '\'' !in post
    ensures SingleToDouble(pre + "'" + post) == pre + "'" + post
  {
    assert pre + "'" + post == pre + ("'" + post);
    CopiesPlainPrefix(pre, "'" + post);
    LoneQuoteAtHead(post);
  }

  /** Pairing is blind to apostrophes: in `'don't'` the apostrophe closes the
      pair and the last quote is left without a partner. */
  lemma {:induction false} ApostropheBreaksPair()
    ensures SingleToDouble("'don't'") == "\"don\"t'"
  {
    assert "'don't'" == "'" + "don" + "'" + "t'";
    assert "\"" + "don" + "\"" + "t'" == "\"don\"t'";
    assert "t'" == ['t'] + "'";
    assert EscapeDq("don") == "don";
    assert "t" + "'" + "" == "t'";
    LastQuoteKept("t", "");
    PairAtHead("don", "t'");
  }
}
