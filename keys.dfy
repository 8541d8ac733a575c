/** The unquoted-key repair of api/flashcards.js:77-80,
    `attempt.replace(/([{,]\s*)([A-Za-z0-9_@\-]+)\s*:/g, '$1"$2":')`: an
    identifier that follows `{` or `,` (and optional whitespace) and precedes a
    colon is wrapped in double quotes, as RFC 8259 section 4 requires of member
    names, and the whitespace between it and the colon is dropped.  The regular
    expression has a single way to match at each position (whitespace and the
    identifier characters are disjoint), so greedy scanning below is exact. */
module Keys {
  import opened Text

  /** The class `[A-Za-z0-9_@\-]`. */
  predicate IsKeyChar(c: char) {
    ('A' <= c <= 'Z') || ('a' <= c <= 'z') || ('0' <= c <= '9') || c == '_' || c == '@' || c == '-'
  }

  /** Length of the identifier run at the start of `t`. */
  function KeyRun(t: string): (n: nat)
    ensures n <= |t|
    ensures forall k :: 0 <= k < n ==> IsKeyChar(t[k])
  {
    if t != [] && IsKeyChar(t[0]) then 1 + KeyRun(t[1..]) else 0
  }

  /** Where the identifier would start after the opener `s[0]` and its whitespace. */
  function KeyStart(s: string): (j: nat)
    requires s != []
    ensures 1 <= j <= |s|
  {
    1 + LeadingSpaces(s[1..])
  }

  /** Where the identifier run that starts at `KeyStart(s)` ends. */
  function KeyEnd(s: string): (k: nat)
    requires s != []
    ensures KeyStart(s) <= k <= |s|
  {
    KeyStart(s) + KeyRun(s[KeyStart(s)..])
  }

  /** Where the colon would be, after the identifier and its whitespace. */
  function ColonAt(s: string): (m: nat)
    requires s != []
    ensures KeyEnd(s) <= m <= |s|
  {
    KeyEnd(s) + LeadingSpaces(s[KeyEnd(s)..])
  }

  /** Between the opener and the key, and between the key and the colon,
      there is only whitespace; the key is made of identifier characters. */
  lemma {:induction false} MatchParts(s: string)
    requires s != []
    ensures forall i :: 1 <= i < KeyStart(s) ==> IsSpace(s[i])
    ensures forall i :: KeyStart(s) <= i < KeyEnd(s) ==> IsKeyChar(s[i])
    ensures forall i :: KeyEnd(s) <= i < ColonAt(s) ==> IsSpace(s[i])
  {
    var j, k, m := KeyStart(s), KeyEnd(s), ColonAt(s);
    assert forall i :: 1 <= i < j ==> s[i] == s[1..][i - 1];
    assert forall i :: j <= i < k ==> s[i] == s[j..][i - j];
    assert forall i :: k <= i < m ==> s[i] == s[k..][i - k];
  }

  /** The regular expression matches at the start of `s`. */
  predicate KeyMatch(s: string) {
    s != [] && (s[0] == '{' || s[0] == ',')
    && KeyEnd(s) > KeyStart(s) && ColonAt(s) < |s| && s[ColonAt(s)] == ':'
  }

  /** The replacement as the regular expression runs it: at `{` or `,` try to
      match `\s*`, an identifier, `\s*` and `:`; on success emit the opener and
      its whitespace, the quoted identifier and the colon, and resume after the
      colon; otherwise keep one character and move on. */
  function QuoteKeys(s: string): string
    decreases |s|
  {
    if s == [] then []
    else if KeyMatch(s) then
      s[..KeyStart(s)] + "\"" + s[KeyStart(s)..KeyEnd(s)] + "\":" + QuoteKeys(s[ColonAt(s) + 1..])
    else [s[0]] + QuoteKeys(s[1..])
  }

  /** Text with no `{` and no `,` is left unchanged. */
  lemma {:induction false} NoOpenerUnchanged(s: string)
    requires '{' !in s && ',' !in s
    ensures QuoteKeys(s) == s
  {
    if s != [] {
      assert s[0] in s;
      assert forall c :: c in s[1..] ==> c in s;
      NoOpenerUnchanged(s[1..]);
    }
  }

  /** `s` without its double quotes and its whitespace. */
  function Visible(s: string): (r: string)
    ensures |r| <= |s|
  {
    if s == [] then [] else (if s[0] == '"' || IsSpace(s[0]) then [] else [s[0]]) + Visible(s[1..])
  }

  lemma {:induction false} VisibleAppend(s: string, t: string)
    ensures Visible(s + t) == Visible(s) + Visible(t)
  {
    if s == [] {
      assert s + t == t;
    } else {
      var h := if s[0] == '"' || IsSpace(s[0]) then [] else [s[0]];
      calc {
        Visible(s + t);
        { assert (s + t)[0] == s[0] && (s + t)[1..] == s[1..] + t; }
        h + Visible(s[1..] + t);
        { VisibleAppend(s[1..], t); }
        h + (Visible(s[1..]) + Visible(t));
        (h + Visible(s[1..])) + Visible(t);
      }
    }
  }

  lemma {:induction false} SpacesInvisible(t: string)
    requires forall k :: 0 <= k < |t| ==> IsSpace(t[k])
    ensures Visible(t) == []
  {
    if t != [] {
      SpacesInvisible(t[1..]);
    }
  }

  lemma {:induction false} KeyRunVisible(t: string)
    requires forall k :: 0 <= k < |t| ==> IsKeyChar(t[k])
    ensures Visible(t) == t
  {
    if t != [] {
      KeyRunVisible(t[1..]);
      assert t == [t[0]] + t[1..];
    }
  }

  /** One match: quoting the key and dropping the gap before the colon leaves
      the visible text as it was. */
  lemma {:induction false} MatchVisible(pre: string, key: string, gap: string, rest: string, restOut: string)
    requires forall k :: 0 <= k < |gap| ==> IsSpace(gap[k])
    requires Visible(restOut) == Visible(rest)
    ensures Visible(pre + "\"" + key + "\":" + restOut) == Visible(pre + key + gap + [':'] + rest)
  {
    var quote, close := "\"", "\":";
    assert Visible(quote) == [];
    assert Visible(close) == [':'] by {
      assert close[1..] == ":";
    }
    assert Visible([':']) == [':'];
    SpacesInvisible(gap);
    calc {
      Visible(pre + quote + key + close + restOut);
      { VisibleAppend(pre + quote + key + close, restOut); }
      Visible(pre + quote + key + close) + Visible(restOut);
      { VisibleAppend(pre + quote + key, close); }
      Visible(pre + quote + key) + [':'] + Visible(rest);
      { VisibleAppend(pre + quote, key); VisibleAppend(pre, quote); }
      Visible(pre) + Visible(key) + [':'] + Visible(rest);
      { VisibleAppend(pre, key); VisibleAppend(pre + key, gap); }
      Visible(pre + key + gap) + [':'] + Visible(rest);
      { VisibleAppend(pre + key + gap, [':']); }
      Visible(pre + key + gap + [':']) + Visible(rest);
      { VisibleAppend(pre + key + gap + [':'], rest); }
      Visible(pre + key + gap + [':'] + rest);
    }
  }

  /** The repair only inserts double quotes and deletes whitespace: with both
      removed, its output is its input, every other character kept in order. */
  lemma {:induction false} OnlyQuotesAndSpaceChange(s: string)
    ensures Visible(QuoteKeys(s)) == Visible(s)
    decreases |s|
  {
    if s == [] {
    } else if KeyMatch(s) {
      OnlyQuotesAndSpaceChange(s[ColonAt(s) + 1..]);
      MatchStep(s);
    } else {
      OnlyQuotesAndSpaceChange(s[1..]);
      SkipStep(s);
    }
  }

  /** The text a match emits, followed by the rest of the output. */
  lemma {:induction false} MatchUnfolds(s: string)
    requires KeyMatch(s)
    ensures QuoteKeys(s) == s[..KeyStart(s)] + "\"" + s[KeyStart(s)..KeyEnd(s)] + "\":" + QuoteKeys(s[ColonAt(s) + 1..])
  {
  }

  /** The input around a match: opener and whitespace, key, gap, colon, rest. */
  lemma {:induction false} MatchSplits(s: string)
    requires KeyMatch(s)
    ensures s == s[..KeyStart(s)] + s[KeyStart(s)..KeyEnd(s)] + s[KeyEnd(s)..ColonAt(s)] + [':'] + s[ColonAt(s) + 1..]
    ensures forall i :: 0 <= i < ColonAt(s) - KeyEnd(s) ==> IsSpace(s[KeyEnd(s)..ColonAt(s)][i])
  {
    var m := ColonAt(s);
    MatchParts(s);
    assert s == s[..m + 1] + s[m + 1..];
    assert s[..m + 1] == s[..KeyStart(s)] + s[KeyStart(s)..KeyEnd(s)] + s[KeyEnd(s)..m] + [':'];
  }

  lemma {:induction false} MatchStep(s: string)
    requires KeyMatch(s)
    requires Visible(QuoteKeys(s[ColonAt(s) + 1..])) == Visible(s[ColonAt(s) + 1..])
    ensures Visible(QuoteKeys(s)) == Visible(s)
  {
    var j, k, m := KeyStart(s), KeyEnd(s), ColonAt(s);
    var pre, key, gap, rest := s[..j], s[j..k], s[k..m], s[m + 1..];
    MatchUnfolds(s);
    MatchSplits(s);
    MatchVisible(pre, key, gap, rest, QuoteKeys(rest));
  }

  lemma {:induction false} SkipStep(s: string)
    requires s != [] && !KeyMatch(s)
    requires Visible(QuoteKeys(s[1..])) == Visible(s[1..])
    ensures Visible(QuoteKeys(s)) == Visible(s)
  {
    VisibleAppend([s[0]], QuoteKeys(s[1..]));
    VisibleAppend([s[0]], s[1..]);
    assert s == [s[0]] + s[1..];
  }

  lemma {:induction false} LeadingSpacesOf(x: string, y: string)
    requires forall i :: 0 <= i < |x| ==> IsSpace(x[i])
    requires y != [] && !IsSpace(y[0])
    ensures LeadingSpaces(x + y) == |x|
  {
    if x != [] {
      assert (x + y)[1..] == x[1..] + y;
      LeadingSpacesOf(x[1..], y);
    } else {
      assert x + y == y;
    }
  }

  lemma {:induction false} KeyRunOf(x: string, y: string)
    requires forall i :: 0 <= i < |x| ==> IsKeyChar(x[i])
    requires y != [] && !IsKeyChar(y[0])
    ensures KeyRun(x + y) == |x|
  {
    if x != [] {
      assert (x + y)[1..] == x[1..] + y;
      KeyRunOf(x[1..], y);
    } else {
      assert x + y == y;
    }
  }

  /** How the text of a bare-key match is cut into its parts. */
  lemma {:induction false} BareKeyParts(opener: char, lead: string, key: string, gap: string, rest: string)
    ensures var s := [opener] + (lead + (key + (gap + ([':'] + rest))));
      var j, k, m := 1 + |lead|, 1 + |lead| + |key|, 1 + |lead| + |key| + |gap|;
      s[1..] == lead + (key + (gap + ([':'] + rest)))
      && s[j..] == key + (gap + ([':'] + rest))
      && s[k..] == gap + ([':'] + rest)
      && s[m] == ':'
      && s[..j] == [opener] + lead && s[j..k] == key && s[m + 1..] == rest
  {
  }

  /** The three positions of a match, from the runs that define them. */
  lemma {:induction false} KeyPositions(s: string, j: nat, k: nat, m: nat)
    requires s != [] && 1 <= j <= k <= m < |s|
    requires LeadingSpaces(s[1..]) == j - 1
    requires KeyRun(s[j..]) == k - j
    requires LeadingSpaces(s[k..]) == m - k
    ensures KeyStart(s) == j && KeyEnd(s) == k && ColonAt(s) == m
  {
  }

  /** Equal parts give equal rewritten texts. */
  lemma SameParts(x: string, a: string, b: string, c: string, a': string, b': string, c': string)
    requires x == a + "\"" + b + "\":" + c
    requires a == a' && b == b' && c == c'
    ensures x == a' + "\"" + b' + "\":" + c'
  {
  }

  /** Where the match of a bare key falls. */
  lemma {:induction false} BareKeyMatch(opener: char, lead: string, key: string, gap: string, rest: string)
    requires opener == '{' || opener == ','
    requires forall i :: 0 <= i < |lead| ==> IsSpace(lead[i])
    requires key != [] && forall i :: 0 <= i < |key| ==> IsKeyChar(key[i])
    requires forall i :: 0 <= i < |gap| ==> IsSpace(gap[i])
    ensures var s := [opener] + (lead + (key + (gap + ([':'] + rest))));
      KeyMatch(s) && KeyStart(s) == 1 + |lead| && KeyEnd(s) == 1 + |lead| + |key|
      && ColonAt(s) == 1 + |lead| + |key| + |gap|
  {
    var t3 := [':'] + rest;
    var t2 := gap + t3;
    var t1 := key + t2;
    var s := [opener] + (lead + t1);
    var j, k, m := 1 + |lead|, 1 + |lead| + |key|, 1 + |lead| + |key| + |gap|;
    BareKeyParts(opener, lead, key, gap, rest);
    assert LeadingSpaces(s[1..]) == j - 1 by {
      assert !IsSpace(t1[0]) by { assert t1[0] == key[0]; }
      LeadingSpacesOf(lead, t1);
    }
    assert KeyRun(s[j..]) == k - j by {
      assert !IsKeyChar(t2[0]) by { if gap == [] { assert t2[0] == ':'; } else { assert t2[0] == gap[0]; } }
      KeyRunOf(key, t2);
    }
    assert LeadingSpaces(s[k..]) == m - k by {
      assert !IsSpace(t3[0]);
      LeadingSpacesOf(gap, t3);
    }
    KeyPositions(s, j, k, m);
  }

  /** A bare identifier after `{` or `,` and optional whitespace, followed by
      optional whitespace and a colon, is quoted, and the whitespace before the
      colon is dropped. */
  lemma {:induction false} QuotesBareKey(opener: char, lead: string, key: string, gap: string, rest: string)
    requires opener == '{' || opener == ','
    requires forall i :: 0 <= i < |lead| ==> IsSpace(lead[i])
    requires key != [] && forall i :: 0 <= i < |key| ==> IsKeyChar(key[i])
    requires forall i :: 0 <= i < |gap| ==> IsSpace(gap[i])
    ensures QuoteKeys([opener] + (lead + (key + (gap + ([':'] + rest)))))
         == [opener] + lead + "\"" + key + "\":" + QuoteKeys(rest)
  {
    var s := [opener] + (lead + (key + (gap + ([':'] + rest))));
    BareKeyParts(opener, lead, key, gap, rest);
    BareKeyMatch(opener, lead, key, gap, rest);
    MatchUnfolds(s);
    SameParts(QuoteKeys(s), s[..KeyStart(s)], s[KeyStart(s)..KeyEnd(s)], QuoteKeys(s[ColonAt(s) + 1..]),
              [opener] + lead, key, QuoteKeys(rest));
  }

  /** A character other than `{` and `,` passes through. */
  lemma {:induction false} KeepsHead(c: char, t: string)
    requires c != '{' && c != ','
    ensures QuoteKeys([c] + t) == [c] + QuoteKeys(t)
  {
    assert ([c] + t)[1..] == t;
  }

  /** The repair does not know about strings: `,b:` inside a string literal
      is rewritten like a member name. */
  lemma {:induction false} RewritesInsideStrings()
    ensures QuoteKeys("\"a,b:c\"") == "\"a,\"b\":c\""
  {
    var rest := "c\"";
    var t := [','] + ("" + ("b" + ("" + ([':'] + rest))));
    var out := [','] + "" + "\"" + "b" + "\":" + rest;
    assert t == ",b:c\"";
    assert out == ",\"b\":c\"";
    assert "\"a,b:c\"" == ['"'] + (['a'] + t);
    assert "\"a,\"b\":c\"" == ['"'] + (['a'] + out);
    NoOpenerUnchanged(rest);
    QuotesBareKey(',', "", "b", "", rest);
    KeepsHead('a', t);
    KeepsHead('"', ['a'] + t);
  }

  /** Text with no `{` and no `,` in front is copied as it is. */
  lemma {:induction false} CopiesOpenerFree(pre: string, t: string)
    requires '{' !in pre && ',' !in pre
    ensures QuoteKeys(pre + t) == pre + QuoteKeys(t)
  {
    if pre == [] {
      assert pre + t == t;
    } else {
      var h, p := pre[0], pre[1..];
      calc {
        QuoteKeys(pre + t);
        { assert pre + t == [h] + (p + t); }
        QuoteKeys([h] + (p + t));
        { assert h in pre; KeepsHead(h, p + t); }
        [h] + QuoteKeys(p + t);
        { assert pre == [h] + p; CopiesOpenerFree(p, t); }
        [h] + (p + QuoteKeys(t));
        { assert pre == [h] + p; }
        pre + QuoteKeys(t);
      }
    }
  }

  /** An opener followed by something other than optional whitespace, an
      identifier, optional whitespace and a colon is copied, and the scan
      moves on by one character. */
  lemma {:induction false} OpenerWithoutKeyCopied(s: string)
    requires s != [] && (s[0] == '{' || s[0] == ',')
    requires KeyEnd(s) == KeyStart(s) || ColonAt(s) == |s| || s[ColonAt(s)] != ':'
    ensures QuoteKeys(s) == [s[0]] + QuoteKeys(s[1..])
  {
  }

  /** After an opener and its whitespace a `"` starts no identifier. */
  lemma {:induction false} NoMatchBeforeQuote(o: char, ws: string, rest: string)
    requires forall i :: 0 <= i < |ws| ==> IsSpace(ws[i])
    ensures !KeyMatch([o] + (ws + (['"'] + rest)))
  {
    var s := [o] + (ws + (['"'] + rest));
    if o == '{' || o == ',' {
      assert s[1..] == ws + (['"'] + rest);
      LeadingSpacesOf(ws, ['"'] + rest);
      assert s[KeyStart(s)..] == ['"'] + rest;
    }
  }

  /** A key that is already quoted is left alone: nothing is inserted
      between an opener and a `"`, whatever whitespace separates them. */
  lemma {:induction false} QuotedKeyUntouched(o: char, ws: string, rest: string)
    requires forall i :: 0 <= i < |ws| ==> IsSpace(ws[i])
    ensures QuoteKeys([o] + ws + ['"'] + rest) == [o] + ws + ['"'] + QuoteKeys(rest)
  {
    var u := ['"'] + rest;
    var t := ws + u;
    var s := [o] + t;
    var out := ws + (['"'] + QuoteKeys(rest));
    assert [o] + ws + ['"'] + rest == s;
    assert [o] + ws + ['"'] + QuoteKeys(rest) == [o] + out;
    assert QuoteKeys(s) == [o] + QuoteKeys(t) by {
      NoMatchBeforeQuote(o, ws, rest);
      assert s[1..] == t;
    }
    assert QuoteKeys(t) == ws + QuoteKeys(u) by {
      assert forall c :: c in ws ==> IsSpace(c);
      CopiesOpenerFree(ws, u);
    }
    assert QuoteKeys(u) == ['"'] + QuoteKeys(rest) by {
      KeepsHead('"', rest);
    }
  }

  /** `{ q : 1}` becomes `{ "q": 1}`: the key is quoted, the space before the
      colon is dropped, the space after the opener and after the colon is kept. */
  lemma {:induction false} QuotesExample()
    ensures QuoteKeys("{ q : 1}") == "{ \"q\": 1}"
  {
    var rest := " 1}";
    assert ['{'] + " " + "\"" + "q" + "\":" + rest == "{ \"q\": 1}";
    assert ['{'] + (" " + ("q" + (" " + ([':'] + rest)))) == "{ q : 1}";
    QuotesBareKey('{', " ", "q", " ", rest);
    assert rest[1..] == "1}" && "1}"[1..] == "}";
    NoOpenerUnchanged(rest);
  }
}
