/** The normaliser at the head of `robustParseFlashcards`
    (api/flashcards.js:10-18): remove markdown code fences, trim, and map the
    typographic quotes to ASCII quotes.  Each regular-expression replacement is a
    left-to-right scan over the characters. */
module Normalize {
  import opened Text

  const Fence := "```"

  /** The `json` tag after a fence, in any letter case (the regular expression
      carries the `i` flag, which folds ASCII letters only). */
  predicate IsJsonTag(t: string) {
    |t| >= 4
    && (t[0] == 'j' || t[0] == 'J') && (t[1] == 's' || t[1] == 'S')
    && (t[2] == 'o' || t[2] == 'O') && (t[3] == 'n' || t[3] == 'N')
  }

  /** `s.replace(/```(?:json)?/gi, "")`: every fence is removed, together with a
      `json` tag (any case) right after it; no other tag is removed. */
  function StripFences(s: string): string
    decreases |s|
  {
    if s == [] then []
    else if StartsWith(s, Fence) then
      (if IsJsonTag(s[3..]) then StripFences(s[7..]) else StripFences(s[3..]))
    else [s[0]] + StripFences(s[1..])
  }

  /** `s.replace(/```/g, "")`. */
  function StripTicks(s: string): string
    decreases |s|
  {
    if s == [] then []
    else if StartsWith(s, Fence) then StripTicks(s[3..])
    else [s[0]] + StripTicks(s[1..])
  }

  /** Number of backticks at the start of `s`. */
  function LeadingTicks(s: string): nat {
    if s != [] && s[0] == '`' then 1 + LeadingTicks(s[1..]) else 0
  }

  /** A text starts with a fence exactly when it starts with three backticks. */
  lemma {:induction false} FenceIffThreeTicks(s: string)
    ensures StartsWith(s, Fence) <==> LeadingTicks(s) >= 3
  {
    if StartsWith(s, Fence) {
      FenceTicks(s);
    }
    if LeadingTicks(s) >= 3 {
      assert s[0] == '`' && LeadingTicks(s[1..]) >= 2;
      assert s[1..][0] == '`' && LeadingTicks(s[1..][1..]) >= 1;
      assert s[1..][1..][0] == '`';
      assert s[..3] == [s[0], s[1], s[2]];
    }
  }

  /** After the fence removal of line 12 no three backticks are left in a row,
      and the run of k backticks at the start shrinks to k mod 3 of them. */
  lemma {:induction false} StripTicksLeavesNoFence(s: string)
    ensures !Occurs(Fence, StripTicks(s))
    ensures LeadingTicks(StripTicks(s)) == LeadingTicks(s) % 3
    decreases |s|
  {
    if s == [] {
    } else if StartsWith(s, Fence) {
      FenceTicks(s);
      StripTicksLeavesNoFence(s[3..]);
    } else {
      StripTicksLeavesNoFence(s[1..]);
      KeptTickNoFence(s);
    }
  }

  /** A fence is three of the leading backticks. */
  lemma {:induction false} FenceTicks(s: string)
    requires StartsWith(s, Fence)
    ensures LeadingTicks(s) == 3 + LeadingTicks(s[3..])
  {
    assert s[1..][1..][1..] == s[3..];
    assert s[..3] == Fence;
    assert s[0] == s[..3][0] && s[1] == s[..3][1] && s[2] == s[..3][2];
    assert LeadingTicks(s) == 1 + LeadingTicks(s[1..]);
    assert LeadingTicks(s[1..]) == 1 + LeadingTicks(s[1..][1..]);
    assert LeadingTicks(s[1..][1..]) == 1 + LeadingTicks(s[1..][1..][1..]);
  }

  /** The step of `StripTicksLeavesNoFence` where the first character is kept. */
  lemma {:induction false} KeptTickNoFence(s: string)
    requires s != [] && !StartsWith(s, Fence)
    requires !Occurs(Fence, StripTicks(s[1..]))
    requires LeadingTicks(StripTicks(s[1..])) == LeadingTicks(s[1..]) % 3
    ensures !Occurs(Fence, StripTicks(s))
    ensures LeadingTicks(StripTicks(s)) == LeadingTicks(s) % 3
  {
    var r, u := StripTicks(s), StripTicks(s[1..]);
    assert r == [s[0]] + u;
    assert r[1..] == u;
    assert LeadingTicks(s) < 3 by {
      FenceIffThreeTicks(s);
    }
    assert LeadingTicks(r) == LeadingTicks(s) by {
      if s[0] == '`' {
        assert LeadingTicks(r) == 1 + LeadingTicks(u);
      }
    }
    assert !StartsWith(r, Fence) by {
      FenceIffThreeTicks(r);
    }
  }

  /** The fence removal of line 11 already leaves no fence: backticks it keeps
      come from a run that does not start a fence, and a removed `json` tag
      leaves only what followed it.  A text that does not start with a fence
      keeps its leading backticks. */
  lemma {:induction false} StripFencesLeavesNoFence(s: string)
    ensures !Occurs(Fence, StripFences(s))
    ensures LeadingTicks(StripFences(s)) < 3
    ensures LeadingTicks(s) < 3 ==> LeadingTicks(StripFences(s)) == LeadingTicks(s)
    decreases |s|
  {
    FenceIffThreeTicks(s);
    if s == [] {
    } else if StartsWith(s, Fence) {
      if IsJsonTag(s[3..]) {
        StripFencesLeavesNoFence(s[7..]);
      } else {
        StripFencesLeavesNoFence(s[3..]);
      }
    } else {
      StripFencesLeavesNoFence(s[1..]);
      KeptHeadNoFence(s);
    }
  }

  /** The step of `StripFencesLeavesNoFence` where the first character is kept. */
  lemma {:induction false} KeptHeadNoFence(s: string)
    requires s != [] && !StartsWith(s, Fence)
    requires !Occurs(Fence, StripFences(s[1..]))
    requires LeadingTicks(s[1..]) < 3 ==> LeadingTicks(StripFences(s[1..])) == LeadingTicks(s[1..])
    ensures !Occurs(Fence, StripFences(s))
    ensures LeadingTicks(StripFences(s)) == LeadingTicks(s) < 3
  {
    var r := StripFences(s);
    assert r == [s[0]] + StripFences(s[1..]);
    assert r[1..] == StripFences(s[1..]);
    FenceIffThreeTicks(s);
    FenceIffThreeTicks(r);
  }

  /** So the second replacement of line 12 changes nothing. */
  lemma {:induction false} SecondStripIsNoOp(raw: string)
    ensures StripTicks(StripFences(raw)) == StripFences(raw)
  {
    StripFencesLeavesNoFence(raw);
    NoFenceFixed(StripFences(raw));
  }

  /** Text with no fence in it is left alone by both fence removals. */
  lemma {:induction false} NoFenceFixed(s: string)
    requires !Occurs(Fence, s)
    ensures StripFences(s) == s && StripTicks(s) == s
    decreases |s|
  {
    if s != [] {
      NoFenceFixed(s[1..]);
    }
  }

  /** The curly, low-9 and prime single quotes U+2018, U+2019, U+201A, U+201B, U+2032. */
  predicate IsSmartSingle(c: char) {
    c == '\U{2018}' || c == '\U{2019}' || c == '\U{201A}' || c == '\U{201B}' || c == '\U{2032}'
  }

  /** The curly, low-9 and prime double quotes U+201C, U+201D, U+201E, U+201F, U+2033. */
  predicate IsSmartDouble(c: char) {
    c == '\U{201C}' || c == '\U{201D}' || c == '\U{201E}' || c == '\U{201F}' || c == '\U{2033}'
  }

  /** `s.replace(/[...]/g, sub)` for a one-character class: each character of the
      class becomes `sub`, every other character stays where it is. */
  function ReplaceEach(s: string, inClass: char -> bool, sub: char): (r: string)
    ensures |r| == |s|
    ensures forall i :: 0 <= i < |s| ==> r[i] == if inClass(s[i]) then sub else s[i]
  {
    if s == [] then [] else [if inClass(s[0]) then sub else s[0]] + ReplaceEach(s[1..], inClass, sub)
  }

  /** The whole normaliser of lines 10-18. */
  function NormalizeText(raw: string): string {
    var unfenced := Trim(StripTicks(StripFences(raw)));
    ReplaceEach(ReplaceEach(unfenced, IsSmartSingle, '\''), IsSmartDouble, '"')
  }

  /** Two strings with backticks at the same places contain a fence at the same time. */
  lemma {:induction false} SameTicksSameFence(s: string, r: string)
    requires |s| == |r|
    requires forall i :: 0 <= i < |s| ==> (s[i] == '`' <==> r[i] == '`')
    ensures Occurs(Fence, s) <==> Occurs(Fence, r)
    decreases |s|
  {
    if s != [] {
      assert StartsWith(s, Fence) <==> StartsWith(r, Fence) by {
        if |s| >= 3 {
          assert s[..3] == Fence <==> (s[0] == '`' && s[1] == '`' && s[2] == '`');
          assert r[..3] == Fence <==> (r[0] == '`' && r[1] == '`' && r[2] == '`');
        }
      }
      SameTicksSameFence(s[1..], r[1..]);
    }
  }

  /** `trim` cannot create a fence. */
  lemma {:induction false} TrimKeepsNoFence(s: string)
    requires !Occurs(Fence, s)
    ensures !Occurs(Fence, Trim(s))
  {
    var i := TrimSlice(s);
    if Occurs(Fence, Trim(s)) {
      OccursInSlice(Fence, s, i, i + |Trim(s)|);
    }
  }

  /** Replacing one typographic-quote class by an ASCII quote moves no backtick
      and puts no whitespace at either end. */
  lemma {:induction false} QuoteMapKeeps(s: string, inClass: char -> bool, sub: char)
    requires sub != '`' && !IsSpace(sub)
    requires forall c :: inClass(c) ==> c != '`'
    ensures var r := ReplaceEach(s, inClass, sub);
      (Occurs(Fence, r) <==> Occurs(Fence, s))
      && (s != [] && !IsSpace(s[0]) ==> !IsSpace(r[0]))
      && (s != [] && !IsSpace(s[|s| - 1]) ==> !IsSpace(r[|r| - 1]))
  {
    SameTicksSameFence(s, ReplaceEach(s, inClass, sub));
  }

  /** After both quote maps no typographic quote is left. */
  lemma {:induction false} NoSmartQuoteLeft(t: string)
    ensures var n := ReplaceEach(ReplaceEach(t, IsSmartSingle, '\''), IsSmartDouble, '"');
      forall i :: 0 <= i < |n| ==> !IsSmartSingle(n[i]) && !IsSmartDouble(n[i])
  {
    var n1 := ReplaceEach(t, IsSmartSingle, '\'');
    var n := ReplaceEach(n1, IsSmartDouble, '"');
    forall i | 0 <= i < |n| ensures !IsSmartSingle(n[i]) && !IsSmartDouble(n[i]) {
      assert n1[i] == if IsSmartSingle(t[i]) then '\'' else t[i];
      assert n[i] == if IsSmartDouble(n1[i]) then '"' else n1[i];
    }
  }

  /** What the normaliser guarantees: no fence, none of the ten typographic
      quotes, and no whitespace at either end. */
  lemma {:induction false} NormalizeIsClean(raw: string)
    ensures var n := NormalizeText(raw);
      !Occurs(Fence, n)
      && (forall i :: 0 <= i < |n| ==> !IsSmartSingle(n[i]) && !IsSmartDouble(n[i]))
      && (n == [] || (!IsSpace(n[0]) && !IsSpace(n[|n| - 1])))
  {
    var stripped := StripTicks(StripFences(raw));
    StripTicksLeavesNoFence(StripFences(raw));
    var t := Trim(stripped);
    TrimKeepsNoFence(stripped);
    var _ := TrimSlice(stripped);
    var n1 := ReplaceEach(t, IsSmartSingle, '\'');
    QuoteMapKeeps(t, IsSmartSingle, '\'');
    var n := ReplaceEach(n1, IsSmartDouble, '"');
    QuoteMapKeeps(n1, IsSmartDouble, '"');
    NoSmartQuoteLeft(t);
    assert n == NormalizeText(raw);
  }

  /** Normalising twice gives the same text as normalising once. */
  lemma {:induction false} NormalizeIdempotent(raw: string)
    ensures NormalizeText(NormalizeText(raw)) == NormalizeText(raw)
  {
    var n := NormalizeText(raw);
    NormalizeIsClean(raw);
    NoFenceFixed(n);
    NoFenceFixed(StripFences(n));
    TrimFixed(n);
    assert ReplaceEach(n, IsSmartSingle, '\'') == n;
    assert ReplaceEach(n, IsSmartDouble, '"') == n;
  }

  /** The normaliser does not know about JSON strings: a typographic quote
      anywhere in the text, even inside a string value of a well-formed list,
      is mapped before the first parse, which therefore never sees the text
      as it came. */
  lemma {:induction false} SmartQuoteChanged(raw: string, k: nat)
    requires k < |raw| && (IsSmartSingle(raw[k]) || IsSmartDouble(raw[k]))
    ensures NormalizeText(raw) != raw
  {
    NormalizeIsClean(raw);
  }

  /** Likewise three backticks anywhere in the text, inside a string value or
      not, are removed before the first parse. */
  lemma {:induction false} FenceChanged(raw: string)
    requires Occurs(Fence, raw)
    ensures NormalizeText(raw) != raw
  {
    NormalizeIsClean(raw);
  }

  /** Text the normaliser passes over: no backtick, no typographic quote. */
  predicate Plain(s: string) {
    forall i :: 0 <= i < |s| ==> s[i] != '`' && !IsSmartSingle(s[i]) && !IsSmartDouble(s[i])
  }

  /** Text with no backtick and no whitespace at either end only has its
      typographic quotes mapped. */
  lemma {:induction false} NormalizeUnfenced(s: string)
    requires '`' !in s && s != [] && !IsSpace(s[0]) && !IsSpace(s[|s| - 1])
    ensures NormalizeText(s) == ReplaceEach(ReplaceEach(s, IsSmartSingle, '\''), IsSmartDouble, '"')
  { BacktickFreeFixed(s); }

  /** Replacing a class that occurs only at one place changes only that place. */
  lemma {:induction false} ReplaceAround(pre: string, c: char, post: string, inClass: char -> bool, sub: char)
    requires forall i :: 0 <= i < |pre| ==> !inClass(pre[i])
    requires forall i :: 0 <= i < |post| ==> !inClass(post[i])
    ensures ReplaceEach(pre + [c] + post, inClass, sub) == pre + [if inClass(c) then sub else c] + post
  {
    var s, t := pre + [c] + post, pre + [if inClass(c) then sub else c] + post;
    var r := ReplaceEach(s, inClass, sub);
    forall i | 0 <= i < |t| ensures r[i] == t[i] {
      if i < |pre| {
        assert s[i] == pre[i] && t[i] == pre[i];
      } else if i > |pre| {
        assert s[i] == post[i - |pre| - 1] && t[i] == post[i - |pre| - 1];
      }
    }
  }

  /** A curly apostrophe between plain text, for instance inside a string
      value, becomes `'` before the first parse. */
  lemma {:induction false} CurlyApostropheMapped(pre: string, post: string)
    requires Plain(pre) && Plain(post)
    requires pre != [] && !IsSpace(pre[0]) && post != [] && !IsSpace(post[|post| - 1])
    ensures NormalizeText(pre + "\U{2019}" + post) == pre + "'" + post
  {
    var s := pre + ['\U{2019}'] + post;
    assert '`' !in s by {
      assert forall i :: 0 <= i < |s| ==> s[i] != '`' by {
        assert forall i :: 0 <= i < |pre| ==> s[i] == pre[i];
        assert forall i :: |pre| < i < |s| ==> s[i] == post[i - |pre| - 1];
      }
    }
    assert s[0] == pre[0] && s[|s| - 1] == post[|post| - 1];
    var t := pre + ['\''] + post;
    calc {
      NormalizeText(s);
      { NormalizeUnfenced(s); }
      ReplaceEach(ReplaceEach(s, IsSmartSingle, '\''), IsSmartDouble, '"');
      { assert IsSmartSingle('\U{2019}');
        ReplaceAround(pre, '\U{2019}', post, IsSmartSingle, '\''); }
      ReplaceEach(t, IsSmartDouble, '"');
      { assert !IsSmartDouble('\'');
        ReplaceAround(pre, '\'', post, IsSmartDouble, '"'); }
      t;
    }
  }

  /** Three backticks between plain text, for instance inside a string value,
      are removed before the first parse. */
  lemma {:induction false} FenceBetweenRemoved(pre: string, post: string)
    requires Plain(pre) && Plain(post) && !IsJsonTag(post)
    requires pre != [] && !IsSpace(pre[0]) && post != [] && !IsSpace(post[|post| - 1])
    ensures NormalizeText(pre + Fence + post) == pre + post
  {
    var s, t := pre + Fence + post, pre + post;
    assert '`' !in pre && '`' !in post by {
      assert forall i :: 0 <= i < |pre| ==> pre[i] != '`';
      assert forall i :: 0 <= i < |post| ==> post[i] != '`';
    }
    assert StripFences(s) == t by {
      assert s == pre + (Fence + post);
      StripFencesCopies(pre, Fence + post);
      StripFencesBare(post);
      BacktickFreeFixed(post);
    }
    assert '`' !in t;
    assert t[0] == pre[0] && t[|t| - 1] == post[|post| - 1];
    BacktickFreeFixed(t);
    forall i | 0 <= i < |t| ensures !IsSmartSingle(t[i]) && !IsSmartDouble(t[i]) {
      if i < |pre| {
        assert t[i] == pre[i];
      } else {
        assert t[i] == post[i - |pre|];
      }
    }
    ClassFreeFixed(t, IsSmartSingle, '\'');
    ClassFreeFixed(t, IsSmartDouble, '"');
  }

  /** `["it’s"]` reaches the first parse as `["it's"]`. */
  lemma {:induction false} CurlyApostropheExample()
    ensures NormalizeText("[\"it\U{2019}s\"]") == "[\"it's\"]"
  {
    var pre, post := "[\"it", "s\"]";
    assert pre + "\U{2019}" + post == "[\"it\U{2019}s\"]";
    assert pre + "'" + post == "[\"it's\"]";
    CurlyApostropheMapped(pre, post);
  }

  /** `["```"]` reaches the first parse as `[""]`. */
  lemma {:induction false} FenceInStringExample()
    ensures NormalizeText("[\"```\"]") == "[\"\"]"
  {
    var pre, post := "[\"", "\"]";
    assert pre + Fence + post == "[\"```\"]";
    assert pre + post == "[\"\"]";
    FenceBetweenRemoved(pre, post);
  }


  /** Text with no backtick and no whitespace at either end passes the fence
      removals and the trim unchanged. */
  lemma {:induction false} BacktickFreeFixed(s: string)
    requires '`' !in s
    ensures StripFences(s) == s && StripTicks(s) == s
    ensures s == [] || (!IsSpace(s[0]) && !IsSpace(s[|s| - 1])) ==> Trim(s) == s
  {
    assert s + [] == s;
    StripFencesCopies(s, []);
    StripTicksCopies(s, []);
    if s == [] || (!IsSpace(s[0]) && !IsSpace(s[|s| - 1])) {
      TrimFixed(s);
    }
  }

  /** A class replacement changes nothing in text without a member of the class. */
  lemma {:induction false} ClassFreeFixed(s: string, inClass: char -> bool, sub: char)
    requires forall i :: 0 <= i < |s| ==> !inClass(s[i])
    ensures ReplaceEach(s, inClass, sub) == s
  {
    var r := ReplaceEach(s, inClass, sub);
    assert forall i :: 0 <= i < |s| ==> r[i] == s[i];
  }

  /** A character that is not a backtick is copied. */
  lemma {:induction false} StripFencesKeeps(c: char, t: string)
    requires c != '`'
    ensures StripFences([c] + t) == [c] + StripFences(t)
  {
    assert ([c] + t)[1..] == t;
  }

  /** A fence not followed by a `json` tag is removed alone. */
  lemma {:induction false} StripFencesBare(t: string)
    requires !IsJsonTag(t)
    ensures StripFences(Fence + t) == StripFences(t)
  {
    assert (Fence + t)[..3] == Fence && (Fence + t)[3..] == t;
  }

  /** Text without backticks is copied as it is. */
  lemma {:induction false} StripFencesCopies(t: string, u: string)
    requires '`' !in t
    ensures StripFences(t + u) == t + StripFences(u)
  {
    if t == [] {
      assert t + u == u;
    } else {
      var r := t[1..] + u;
      assert StripFences(r) == t[1..] + StripFences(u) by {
        assert forall c :: c in t[1..] ==> c in t;
        StripFencesCopies(t[1..], u);
      }
      assert StripFences([t[0]] + r) == [t[0]] + StripFences(r) by {
        assert t[0] in t;
        StripFencesKeeps(t[0], r);
      }
      assert t + u == [t[0]] + r;
      assert t == [t[0]] + t[1..];
    }
  }

  /** A fenced block loses both fences. */
  lemma {:induction false} ClosingFenceRemoved(t: string)
    requires '`' !in t
    ensures StripFences(t + Fence) == t
  {
    StripFencesCopies(t, Fence);
    StripFencesBare([]);
    assert Fence + [] == Fence;
  }

  /** The `json` tag is taken off an opening fence, in any letter case. */
  lemma {:induction false} JsonTagStripped(tag: string, t: string)
    requires |tag| == 4 && IsJsonTag(tag) && '`' !in t
    ensures StripFences(Fence + tag + t + Fence) == t
  {
    var s := Fence + tag + t + Fence;
    assert s[..3] == Fence && s[3..] == tag + t + Fence && s[7..] == t + Fence;
    assert IsJsonTag(s[3..]);
    ClosingFenceRemoved(t);
  }

  /** Only the `json` tag is taken off a fence: any other text after the
      opening fence, another language tag included, stays in the result. */
  lemma {:induction false} OtherTagKept(t: string)
    requires !IsJsonTag(t) && '`' !in t
    ensures StripFences(Fence + t + Fence) == t
  {
    assert !IsJsonTag(t + Fence) by {
      if |t| >= 4 {
        assert (t + Fence)[..4] == t[..4];
      } else {
        assert (t + Fence)[|t|] == '`';
      }
    }
    StripFencesBare(t + Fence);
    assert Fence + t + Fence == Fence + (t + Fence);
    ClosingFenceRemoved(t);
  }

  /** Text without backticks is copied by the plain fence removal too. */
  lemma {:induction false} StripTicksCopies(t: string, u: string)
    requires '`' !in t
    ensures StripTicks(t + u) == t + StripTicks(u)
  {
    if t == [] {
      assert t + u == u;
    } else {
      var r := t[1..] + u;
      assert StripTicks(r) == t[1..] + StripTicks(u) by {
        assert forall c :: c in t[1..] ==> c in t;
        StripTicksCopies(t[1..], u);
      }
      assert StripTicks([t[0]] + r) == [t[0]] + StripTicks(r) by {
        assert t[0] in t;
        assert ([t[0]] + r)[1..] == r;
      }
      assert t + u == [t[0]] + r;
      assert t == [t[0]] + t[1..];
    }
  }

  /** The plain fence removal drops a fence and keeps what follows. */
  lemma {:induction false} StripTicksFence(t: string)
    ensures StripTicks(Fence + t) == StripTicks(t)
  {
    assert (Fence + t)[..3] == Fence && (Fence + t)[3..] == t;
  }

  /** `"```JSON[]```"` and `"```js[]```"`. */
  lemma {:induction false} FenceExamples()
    ensures StripFences("```JSON[]```") == "[]"
    ensures StripFences("```js[]```") == "js[]"
  {
    assert "```JSON[]```" == Fence + "JSON" + "[]" + Fence by {
      assert Fence + "JSON" == "```JSON";
      assert "```JSON" + "[]" == "```JSON[]";
      assert "```JSON[]" + Fence == "```JSON[]```";
    }
    JsonTagStripped("JSON", "[]");
    assert "```js[]```" == Fence + "js[]" + Fence by {
      assert Fence + "js[]" == "```js[]";
      assert "```js[]" + Fence == "```js[]```";
    }
    OtherTagKept("js[]");
  }
}
