/** The two backslash repairs of the cascade: the selective one of
    api/flashcards.js:36 and :60 (`/\\(?!["\\\/bfnrtu])/g`), which doubles only a
    backslash that does not begin a JSON escape sequence (RFC 8259 section 7), and
    the full one of api/flashcards.js:96 (`/\\/g`), which doubles every backslash.
    Each comes with the decoder that deletes exactly the backslashes it inserted. */
module Escapes {
  import opened Text

  /** The characters that may follow a backslash in a JSON string. */
  predicate IsEscapeChar(c: char) {
    c == '"' || c == '\\' || c == '/' || c == 'b' || c == 'f' || c == 'n' || c == 'r' || c == 't' || c == 'u'
  }

  /** The first character of `s` is a backslash the selective repair doubles:
      one at the very end of the text, or one followed by a non-escape character. */
  predicate StrayHead(s: string) {
    s != [] && s[0] == '\\' && (|s| == 1 || !IsEscapeChar(s[1]))
  }

  /** Number of backslashes the selective repair doubles. */
  function StrayCount(s: string): nat {
    if s == [] then 0 else (if StrayHead(s) then 1 else 0) + StrayCount(s[1..])
  }

  /** `s.replace(/\\(?!["\\\/bfnrtu])/g, "\\\\")`.  The look-ahead does not consume,
      so every backslash is judged by the character after it in the input. */
  function EscapeStray(s: string): (r: string)
    ensures |r| == |s| + StrayCount(s)
    ensures s != [] ==> r != [] && r[0] == s[0]
  {
    if s == [] then [] else (if StrayHead(s) then "\\\\" else [s[0]]) + EscapeStray(s[1..])
  }

  /** Deletes the backslashes `EscapeStray` inserted: a doubled backslash that is
      followed by the end of the text or by a non-escape character loses one copy. */
  function UndoEscapeStray(t: string): string {
    if t == [] then []
    else if |t| >= 2 && t[0] == '\\' && t[1] == '\\' && (|t| == 2 || !IsEscapeChar(t[2])) then
      "\\" + UndoEscapeStray(t[2..])
    else [t[0]] + UndoEscapeStray(t[1..])
  }

  /** Deleting the inserted backslashes gives the input back, so the selective
      repair changes nothing but the stray backslashes. */
  lemma {:induction false} EscapeStrayRoundTrip(s: string)
    ensures UndoEscapeStray(EscapeStray(s)) == s
  {
    if s != [] {
      var t := EscapeStray(s);
      var rest := EscapeStray(s[1..]);
      EscapeStrayRoundTrip(s[1..]);
      if StrayHead(s) {
        assert t == "\\\\" + rest;
        assert t[2..] == rest;
        assert |t| == 2 || t[2] == s[1];
      } else if s[0] != '\\' {
        assert t == [s[0]] + rest;
        assert t[1..] == rest;
      } else {
        // a backslash that begins an escape sequence is kept as it is
        assert t == [s[0]] + rest;
        assert t[1..] == rest;
        if s[1] == '\\' {
          var s1 := s[1..];
          if StrayHead(s1) {
            assert rest == "\\\\" + EscapeStray(s1[1..]);
            assert t[2] == '\\';
          } else {
            assert rest == [s1[0]] + EscapeStray(s1[1..]);
            assert |s1| >= 2 && t[2] == s1[1];
          }
        }
      }
    }
  }

  /** The selective repair is not idempotent: a second run doubles again. */
  lemma {:induction false} EscapeStrayNotIdempotent()
    ensures EscapeStray("\\q") == "\\\\q"
    ensures EscapeStray(EscapeStray("\\q")) == "\\\\\\q"
  {
    assert EscapeStray("q") == "q";
    assert EscapeStray("\\q") == "\\\\q";
    assert EscapeStray("\\\\q")[1..] == EscapeStray("\\q") by {
      assert "\\\\q"[1..] == "\\q";
    }
  }

  /** `s.replace(/\\/g, "\\\\")`: every backslash doubled. */
  function EscapeAll(s: string): (r: string)
    ensures |r| == |s| + Count(s, '\\')
  {
    if s == [] then [] else (if s[0] == '\\' then "\\\\" else [s[0]]) + EscapeAll(s[1..])
  }

  /** Deletes one backslash of every doubled pair, read left to right. */
  function UndoEscapeAll(t: string): string {
    if t == [] then []
    else if |t| >= 2 && t[0] == '\\' && t[1] == '\\' then "\\" + UndoEscapeAll(t[2..])
    else [t[0]] + UndoEscapeAll(t[1..])
  }

  /** Deleting the inserted backslashes gives the input back. */
  lemma {:induction false} EscapeAllRoundTrip(s: string)
    ensures UndoEscapeAll(EscapeAll(s)) == s
  {
    if s != [] {
      var t := EscapeAll(s);
      var rest := EscapeAll(s[1..]);
      EscapeAllRoundTrip(s[1..]);
      if s[0] == '\\' {
        assert t == "\\\\" + rest && t[2..] == rest;
      } else {
        assert t == [s[0]] + rest && t[1..] == rest;
      }
    }
  }

  /** Every backslash occurs twice as often in the output, and every other
      character exactly as often as in the input. */
  lemma {:induction false} EscapeAllCounts(s: string, c: char)
    ensures Count(EscapeAll(s), c) == (if c == '\\' then 2 else 1) * Count(s, c)
  {
    if s != [] {
      var head := if s[0] == '\\' then "\\\\" else [s[0]];
      assert EscapeAll(s) == head + EscapeAll(s[1..]);
      CountAppend(head, EscapeAll(s[1..]), c);
      EscapeAllCounts(s[1..], c);
    }
  }
}
