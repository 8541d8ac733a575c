/** The trailing-comma repair of api/flashcards.js:69,
    `attempt.replace(/,(\s*[}\]])/g, "$1")`: a comma followed by optional
    whitespace and a closing `}` or `]` is deleted (RFC 8259 sections 4 and 5 allow
    no comma there).  The regular expression consumes the whitespace and the
    bracket, then resumes after them; the scan below does the same. */
module Commas {
  import opened Text

  predicate IsClose(c: char) {
    c == '}' || c == ']'
  }

  /** The replacement as the regular expression runs it. */
  function DropTrailingCommas(s: string): string
    decreases |s|
  {
    if s == [] then []
    else
      var j := 1 + LeadingSpaces(s[1..]);
      if s[0] == ',' && j < |s| && IsClose(s[j]) then s[1..j + 1] + DropTrailingCommas(s[j + 1..])
      else [s[0]] + DropTrailingCommas(s[1..])
  }

  /** `t` is whitespace followed by a closing bracket, and possibly more. */
  predicate ClosesAfterSpace(t: string) {
    t != [] && (IsClose(t[0]) || (IsSpace(t[0]) && ClosesAfterSpace(t[1..])))
  }

  /** `s` starts with a comma the repair deletes. */
  predicate TrailingCommaHead(s: string) {
    s != [] && s[0] == ',' && ClosesAfterSpace(s[1..])
  }

  /** Reference definition, one position at a time: keep every character except a
      comma that is followed by optional whitespace and a closing bracket. */
  function DeleteTrailingCommas(s: string): string {
    if s == [] then [] else (if TrailingCommaHead(s) then [] else [s[0]]) + DeleteTrailingCommas(s[1..])
  }

  lemma {:induction false} ClosesAfterSpaceIff(t: string)
    ensures ClosesAfterSpace(t) <==> LeadingSpaces(t) < |t| && IsClose(t[LeadingSpaces(t)])
  {
    if t != [] && IsSpace(t[0]) {
      ClosesAfterSpaceIff(t[1..]);
    }
  }

  /** A comma-free prefix goes through the reference definition unchanged. */
  lemma {:induction false} CommaFreePrefixKept(t: string, n: nat)
    requires n <= |t|
    requires forall k :: 0 <= k < n ==> t[k] != ','
    ensures DeleteTrailingCommas(t) == t[..n] + DeleteTrailingCommas(t[n..])
  {
    if n > 0 {
      CommaFreePrefixKept(t[1..], n - 1);
      assert t[1..][n - 1..] == t[n..];
      assert t[..n] == [t[0]] + t[1..][..n - 1];
    }
  }

  /** The scan deletes exactly the commas the reference definition deletes: the
      whitespace and bracket the regular expression consumes hold no comma, so
      resuming after them misses nothing. */
  lemma {:induction false} DropTrailingCommasDeletesExactly(s: string)
    ensures DropTrailingCommas(s) == DeleteTrailingCommas(s)
    decreases |s|
  {
    if s != [] {
      var j := 1 + LeadingSpaces(s[1..]);
      if s[0] == ',' && j < |s| && IsClose(s[j]) {
        DropTrailingCommasDeletesExactly(s[j + 1..]);
        DropStep(s, j);
      } else {
        DropTrailingCommasDeletesExactly(s[1..]);
        KeepStep(s, j);
      }
    }
  }

  /** A deleted comma: the scan jumps past the bracket, and the reference
      definition copies the comma-free whitespace and bracket one by one. */
  lemma {:induction false} DropStep(s: string, j: nat)
    requires s != [] && j == 1 + LeadingSpaces(s[1..])
    requires s[0] == ',' && j < |s| && IsClose(s[j])
    requires DropTrailingCommas(s[j + 1..]) == DeleteTrailingCommas(s[j + 1..])
    ensures DropTrailingCommas(s) == DeleteTrailingCommas(s)
  {
    DropJumps(s, j);
    DeleteCopiesRun(s, j);
  }

  /** At a deleted comma the scan emits the whitespace and the bracket and
      resumes after them. */
  lemma {:induction false} DropJumps(s: string, j: nat)
    requires s != [] && j == 1 + LeadingSpaces(s[1..])
    requires s[0] == ',' && j < |s| && IsClose(s[j])
    ensures DropTrailingCommas(s) == s[1..j + 1] + DropTrailingCommas(s[j + 1..])
  {
  }

  /** At a deleted comma the reference definition drops the comma and keeps
      the whitespace and the bracket after it. */
  lemma {:induction false} DeleteCopiesRun(s: string, j: nat)
    requires s != [] && j == 1 + LeadingSpaces(s[1..])
    requires s[0] == ',' && j < |s| && IsClose(s[j])
    ensures DeleteTrailingCommas(s) == s[1..j + 1] + DeleteTrailingCommas(s[j + 1..])
  {
    var t := s[1..];
    assert DeleteTrailingCommas(s) == DeleteTrailingCommas(t) by {
      CommaHeadAt(s, j);
    }
    assert DeleteTrailingCommas(t) == t[..j] + DeleteTrailingCommas(t[j..]) by {
      RunHasNoComma(t, j);
      CommaFreePrefixKept(t, j);
    }
    assert t[..j] == s[1..j + 1] && t[j..] == s[j + 1..];
  }

  /** A comma followed by whitespace and a closing bracket is one the
      reference definition deletes. */
  lemma {:induction false} CommaHeadAt(s: string, j: nat)
    requires s != [] && j == 1 + LeadingSpaces(s[1..])
    requires s[0] == ',' && j < |s| && IsClose(s[j])
    ensures TrailingCommaHead(s)
  {
    var t := s[1..];
    assert t[LeadingSpaces(t)] == s[j];
    ClosesAfterSpaceIff(t);
  }

  /** Whitespace and then a closing bracket hold no comma. */
  lemma {:induction false} RunHasNoComma(t: string, j: nat)
    requires j == 1 + LeadingSpaces(t) && j <= |t| && IsClose(t[j - 1])
    ensures forall k :: 0 <= k < j ==> t[k] != ','
  {
    forall k | 0 <= k < j ensures t[k] != ',' {
      if k < j - 1 {
        assert IsSpace(t[k]);
      }
    }
  }

  /** A kept character: both definitions copy it and move on by one. */
  lemma {:induction false} KeepStep(s: string, j: nat)
    requires s != [] && j == 1 + LeadingSpaces(s[1..])
    requires !(s[0] == ',' && j < |s| && IsClose(s[j]))
    requires DropTrailingCommas(s[1..]) == DeleteTrailingCommas(s[1..])
    ensures DropTrailingCommas(s) == DeleteTrailingCommas(s)
  {
    var t := s[1..];
    ClosesAfterSpaceIff(t);
    assert j < |s| ==> t[LeadingSpaces(t)] == s[j];
    assert !TrailingCommaHead(s);
  }

  /** Only commas are deleted: every other character is kept, in order. */
  lemma {:induction false} OnlyCommasDeleted(s: string)
    ensures Without(DropTrailingCommas(s), ',') == Without(s, ',')
    ensures |DropTrailingCommas(s)| <= |s|
  {
    DropTrailingCommasDeletesExactly(s);
    ReferenceDeletesOnlyCommas(s);
  }

  lemma {:induction false} ReferenceDeletesOnlyCommas(s: string)
    ensures Without(DeleteTrailingCommas(s), ',') == Without(s, ',')
    ensures |DeleteTrailingCommas(s)| <= |s|
  {
    if s != [] {
      ReferenceDeletesOnlyCommas(s[1..]);
      var head := if TrailingCommaHead(s) then [] else [s[0]];
      WithoutAppend(head, DeleteTrailingCommas(s[1..]), ',');
    }
  }

  /** A character other than a comma passes through. */
  lemma {:induction false} KeepsHead(c: char, t: string)
    requires c != ','
    ensures DropTrailingCommas([c] + t) == [c] + DropTrailingCommas(t)
  {
    assert ([c] + t)[1..] == t;
  }

  /** A comma right before a closing bracket is deleted. */
  lemma {:induction false} DropsCommaBeforeClose(b: char, t: string)
    requires IsClose(b)
    ensures DropTrailingCommas([',', b] + t) == [b] + DropTrailingCommas(t)
  {
    var s := [',', b] + t;
    assert s[1..][0] == b;
    assert LeadingSpaces(s[1..]) == 0;
    assert s[1..2] == [b] && s[2..] == t;
  }

  /** A single pass: of two commas before a bracket only the second goes. */
  lemma {:induction false} SinglePass()
    ensures DropTrailingCommas(",,]") == ",]"
  {
    DropsCommaBeforeClose(']', "");
    var s := ",,]";
    assert LeadingSpaces(s[1..]) == 0;
    assert s[1..] == [',', ']'] + "";
  }

  /** The repair does not know about strings: a comma inside one is deleted too. */
  lemma {:induction false} RewritesInsideStrings()
    ensures DropTrailingCommas("[\"a,]\"]") == "[\"a]\"]"
  {
    var tail := "\"]";
    var out := [']'] + tail;
    var t1 := [',', ']'] + tail;
    var t2 := ['a'] + t1;
    var t3 := ['"'] + t2;
    var t4 := ['['] + t3;
    assert t4 == "[\"a,]\"]";
    assert ['['] + (['"'] + (['a'] + out)) == "[\"a]\"]";
    assert DropTrailingCommas(tail) == tail by {
      assert tail == ['"'] + "]";
      KeepsHead(']', "");
      KeepsHead('"', "]");
    }
    assert DropTrailingCommas(t1) == out by {
      DropsCommaBeforeClose(']', tail);
    }
    assert DropTrailingCommas(t2) == ['a'] + out by {
      KeepsHead('a', t1);
    }
    assert DropTrailingCommas(t3) == ['"'] + (['a'] + out) by {
      KeepsHead('"', t2);
    }
    KeepsHead('[', t3);
  }


}
