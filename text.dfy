/** Character classes and string helpers shared by the rewrites: JavaScript
    whitespace (what `String.prototype.trim` removes and what the regular
    expression class `\s` matches), prefix and infix tests, `trim`, and counting. */
module Text {

  /** ECMAScript WhiteSpace and LineTerminator code points: TAB, VT, FF, ZWNBSP,
      the Zs category, LF, CR, LS and PS.  `trim` strips exactly these and `\s`
      matches exactly these. */
  predicate IsSpace(c: char) {
    c == '\t' || c == '\n' || c == '\U{B}' || c == '\U{C}' || c == '\r' || c == ' '
    || c == '\U{A0}' || c == '\U{1680}' || ('\U{2000}' <= c <= '\U{200A}')
    || c == '\U{2028}' || c == '\U{2029}' || c == '\U{202F}' || c == '\U{205F}'
    || c == '\U{3000}' || c == '\U{FEFF}'
  }

  predicate StartsWith(s: string, p: string) {
    |p| <= |s| && s[..|p|] == p
  }

  /** `p` occurs somewhere in `s` as a contiguous block. */
  predicate Occurs(p: string, s: string)
    decreases |s|
  {
    StartsWith(s, p) || (s != [] && Occurs(p, s[1..]))
  }

  /** An occurrence in a part of `s` is an occurrence in `s`. */
  lemma {:induction false} OccursInSlice(p: string, s: string, i: nat, j: nat)
    requires i <= j <= |s|
    requires Occurs(p, s[i..j])
    ensures Occurs(p, s)
    decreases j - i, |s|
  {
    if StartsWith(s[i..j], p) {
      if i == 0 {
        assert s[..|p|] == s[i..j][..|p|];
      } else {
        assert s[1..][i - 1..j - 1] == s[i..j];
        OccursInSlice(p, s[1..], i - 1, j - 1);
      }
    } else {
      assert s[i..j][1..] == s[i + 1..j];
      OccursInSlice(p, s, i + 1, j);
    }
  }

  /** `s.trimStart()`: the suffix left after dropping leading whitespace. */
  function TrimStart(s: string): (r: string)
    ensures |r| <= |s|
    ensures r == [] || !IsSpace(r[0])
    ensures forall i :: 0 <= i < |s| - |r| ==> IsSpace(s[i])
  {
    if s != [] && IsSpace(s[0]) then TrimStart(s[1..]) else s
  }

  /** What `trimStart` leaves is a suffix of its argument. */
  lemma {:induction false} TrimStartSuffix(s: string)
    ensures TrimStart(s) == s[|s| - |TrimStart(s)|..]
    decreases |s|
  {
    if s != [] && IsSpace(s[0]) {
      TrimStartSuffix(s[1..]);
      assert s[1..][|s| - 1 - |TrimStart(s)|..] == s[|s| - |TrimStart(s)|..];
    }
  }

  /** `s.trimEnd()`: the prefix left after dropping trailing whitespace. */
  function TrimEnd(s: string): (r: string)
    ensures |r| <= |s| && r == s[..|r|]
    ensures r == [] || !IsSpace(r[|r| - 1])
    ensures forall i :: |r| <= i < |s| ==> IsSpace(s[i])
  {
    if s != [] && IsSpace(s[|s| - 1]) then TrimEnd(s[..|s| - 1]) else s
  }

  /** `s.trim()`. */
  function Trim(s: string): string {
    TrimEnd(TrimStart(s))
  }

  /** `trim` returns a contiguous part of its argument, starting at `i`, with no
      whitespace at either end, and everything it removed is whitespace. */
  lemma {:induction false} TrimSlice(s: string) returns (i: nat)
    ensures i + |Trim(s)| <= |s| && Trim(s) == s[i..i + |Trim(s)|]
    ensures forall k :: 0 <= k < i ==> IsSpace(s[k])
    ensures forall k :: i + |Trim(s)| <= k < |s| ==> IsSpace(s[k])
    ensures Trim(s) == [] || (!IsSpace(Trim(s)[0]) && !IsSpace(Trim(s)[|Trim(s)| - 1]))
  {
    var t := TrimStart(s);
    var r := TrimEnd(t);
    i := |s| - |t|;
    TrimStartSuffix(s);
    assert r == t[..|r|];
    forall k | i + |r| <= k < |s| ensures IsSpace(s[k]) {
      assert s[k] == t[k - i];
    }
  }

  /** Trimming text that already has no whitespace at its ends changes nothing. */
  lemma {:induction false} TrimFixed(s: string)
    requires s == [] || (!IsSpace(s[0]) && !IsSpace(s[|s| - 1]))
    ensures Trim(s) == s
  {
  }

  /** Whitespace appended at the end is removed by `trim`. */
  lemma {:induction false} TrimDropsTrailingSpace(s: string, c: char)
    requires IsSpace(c)
    ensures Trim(s + [c]) == Trim(s)
  {
    var u := s + [c];
    if s != [] && IsSpace(s[0]) {
      assert u[1..] == s[1..] + [c];
      TrimDropsTrailingSpace(s[1..], c);
    } else if s == [] {
      assert TrimStart(u) == [];
    } else {
      assert TrimStart(u) == u;
      assert u[..|u| - 1] == s;
    }
  }

  /** Number of occurrences of the character `c` in `s`. */
  function Count(s: string, c: char): (n: nat)
    ensures n <= |s|
  {
    if s == [] then 0 else (if s[0] == c then 1 else 0) + Count(s[1..], c)
  }

  /** A character that does not occur is counted zero times. */
  lemma {:induction false} NoOccurrenceNoCount(s: string, c: char)
    requires forall i :: 0 <= i < |s| ==> s[i] != c
    ensures Count(s, c) == 0
  {
    if s != [] {
      NoOccurrenceNoCount(s[1..], c);
    }
  }

  lemma {:induction false} CountAppend(s: string, t: string, c: char)
    ensures Count(s + t, c) == Count(s, c) + Count(t, c)
  {
    if s != [] {
      assert (s + t)[0] == s[0] && (s + t)[1..] == s[1..] + t;
      CountAppend(s[1..], t, c);
    } else {
      assert s + t == t;
    }
  }

  /** `s.indexOf(c)`: the first position of `c`, or -1 when there is none. */
  function IndexOf(s: string, c: char): (r: int)
    ensures r == -1 <==> c !in s
    ensures r != -1 ==> 0 <= r < |s| && s[r] == c
    ensures forall k :: 0 <= k < |s| && (r == -1 || k < r) ==> s[k] != c
  {
    if s == [] then -1
    else if s[0] == c then 0
    else
      var k := IndexOf(s[1..], c);
      assert c !in s[1..] ==> c !in s by {
        if c !in s[1..] { assert s == [s[0]] + s[1..]; }
      }
      if k == -1 then -1
      else
        k + 1
  }

  /** `s.lastIndexOf(c)`: the last position of `c`, or -1 when there is none. */
  function LastIndexOf(s: string, c: char): (r: int)
    ensures r == -1 <==> c !in s
    ensures r != -1 ==> 0 <= r < |s| && s[r] == c
    ensures forall k :: 0 <= k < |s| && (r == -1 || k > r) ==> s[k] != c
  {
    if s == [] then -1
    else if s[|s| - 1] == c then |s| - 1
    else
      var k := LastIndexOf(s[..|s| - 1], c);
      assert c !in s[..|s| - 1] ==> c !in s by {
        if c !in s[..|s| - 1] { assert s == s[..|s| - 1] + [s[|s| - 1]]; }
      }
      if k == -1 then -1
      else
        k
  }

  /** Length of the whitespace run at the start of `t` (what a greedy `\s*` consumes). */
  function LeadingSpaces(t: string): (n: nat)
    ensures n <= |t|
    ensures forall k :: 0 <= k < n ==> IsSpace(t[k])
    ensures n == |t| || !IsSpace(t[n])
  {
    if t != [] && IsSpace(t[0]) then 1 + LeadingSpaces(t[1..]) else 0
  }

  /** `s` with every occurrence of `c` removed. */
  function Without(s: string, c: char): (r: string)
    ensures c !in r
  {
    if s == [] then [] else (if s[0] == c then [] else [s[0]]) + Without(s[1..], c)
  }

  lemma {:induction false} WithoutAppend(s: string, t: string, c: char)
    ensures Without(s + t, c) == Without(s, c) + Without(t, c)
  {
    if s == [] {
      assert s + t == t;
    } else {
      assert (s + t)[0] == s[0] && (s + t)[1..] == s[1..] + t;
      WithoutAppend(s[1..], t, c);
    }
  }
}
