// The few string operations the subscriber store applies to its arguments.
module Text {

  // White space as Unicode defines it.
  predicate IsSpace(c: char) {
    || '\t' <= c <= '\r' || c == ' ' || c == '\U{85}' || c == '\U{A0}' || c == '\U{1680}'
    || '\U{2000}' <= c <= '\U{200A}' || c == '\U{2028}' || c == '\U{2029}' || c == '\U{202F}' || c == '\U{205F}'
    || c == '\U{3000}'
  }

  // The white space of Unicode, one by one.
  lemma Spaces(c: char)
    ensures IsSpace(c) <==>
            || c in {'\t', '\n', '\U{0B}', '\U{0C}', '\r', ' ', '\U{85}', '\U{A0}', '\U{1680}'}
            || c in {'\U{2000}', '\U{2001}', '\U{2002}', '\U{2003}', '\U{2004}', '\U{2005}', '\U{2006}', '\U{2007}', '\U{2008}'}
            || c in {'\U{2009}', '\U{200A}', '\U{2028}', '\U{2029}', '\U{202F}', '\U{205F}', '\U{3000}'}
  {
  }

  function TrimLeft(s: string): (r: string)
    ensures |r| <= |s|
    ensures r != [] ==> !IsSpace(r[0])
  {
    if s == [] || !IsSpace(s[0]) then s else TrimLeft(s[1..])
  }

  function TrimRight(s: string): (r: string)
    ensures |r| <= |s|
    ensures r <= s
    ensures r != [] ==> !IsSpace(r[|r| - 1])
  {
    if s == [] || !IsSpace(s[|s| - 1]) then s else TrimRight(s[..|s| - 1])
  }

  // The argument without the white space at either end.
  function Trim(s: string): string {
    TrimRight(TrimLeft(s))
  }

  // What is cut off at either end is white space, and what is left neither starts nor ends with any.
  lemma TrimMeans(s: string) returns (i: nat, j: nat)
    ensures i <= j <= |s| && Trim(s) == s[i..j]
    ensures forall k :: 0 <= k < i || j <= k < |s| ==> IsSpace(s[k])
    ensures i < j ==> !IsSpace(s[i]) && !IsSpace(s[j - 1])
  {
    i := CutLeft(s);
    var k := CutRight(s[i..]);
    j := i + k;
    assert s[i..][..k] == s[i..j];
    forall m | 0 <= m < i || j <= m < |s| ensures IsSpace(s[m]) {
      if j <= m { assert s[m] == s[i..][m - i]; }
    }
  }

  lemma {:induction false} CutLeft(s: string) returns (i: nat)
    ensures i <= |s| && TrimLeft(s) == s[i..] && forall k :: 0 <= k < i ==> IsSpace(s[k])
  {
    if s == [] || !IsSpace(s[0]) {
      i := 0;
    } else {
      var k := CutLeft(s[1..]);
      i := k + 1;
      assert s[1..][k..] == s[i..];
      forall m | 0 <= m < i ensures IsSpace(s[m]) {
        if m > 0 { assert s[m] == s[1..][m - 1]; }
      }
    }
  }

  lemma {:induction false} CutRight(s: string) returns (j: nat)
    ensures j <= |s| && TrimRight(s) == s[..j] && forall k :: j <= k < |s| ==> IsSpace(s[k])
  {
    if s == [] || !IsSpace(s[|s| - 1]) {
      j := |s|;
    } else {
      j := CutRight(s[..|s| - 1]);
      assert s[..|s| - 1][..j] == s[..j];
      forall m | j <= m < |s| ensures IsSpace(s[m]) {
        if m < |s| - 1 { assert s[m] == s[..|s| - 1][m]; }
      }
    }
  }

  function UpperChar(c: char): char {
    if 'a' <= c <= 'z' then c - 'a' + 'A' else c
  }

  function Upper(s: string): (r: string)
    ensures |r| == |s|
    ensures forall i :: 0 <= i < |s| ==> r[i] == UpperChar(s[i])
  {
    seq(|s|, i requires 0 <= i < |s| => UpperChar(s[i]))
  }

  function LowerChar(c: char): char {
    if 'A' <= c <= 'Z' then c - 'A' + 'a' else c
  }

  function Lower(s: string): (r: string)
    ensures |r| == |s|
    ensures forall i :: 0 <= i < |s| ==> r[i] == LowerChar(s[i])
  {
    seq(|s|, i requires 0 <= i < |s| => LowerChar(s[i]))
  }

  // Upper and lower case differ on the letters only, by the distance of the two alphabets.
  lemma CaseMeans(c: char)
    ensures 'a' <= c <= 'z' ==> 'A' <= UpperChar(c) <= 'Z' && LowerChar(UpperChar(c)) == c && LowerChar(c) == c
    ensures 'A' <= c <= 'Z' ==> 'a' <= LowerChar(c) <= 'z' && UpperChar(LowerChar(c)) == c && UpperChar(c) == c
    ensures !('a' <= c <= 'z' || 'A' <= c <= 'Z') ==> UpperChar(c) == c && LowerChar(c) == c
    ensures 'A' <= c <= 'Z' ==> LowerChar(c) as int == c as int + 32
  {
  }

  predicate Contains(s: string, part: string) {
    part <= s || (s != [] && Contains(s[1..], part))
  }

  // Containing means standing somewhere in the text.
  lemma {:induction false} ContainsFinds(s: string, part: string) returns (before: string, after: string)
    requires Contains(s, part)
    ensures s == before + part + after
  {
    if part <= s {
      before, after := "", s[|part|..];
    } else {
      before, after := ContainsFinds(s[1..], part);
      before := [s[0]] + before;
      assert s == [s[0]] + s[1..];
    }
  }

  lemma {:induction false} ContainsEach(before: string, part: string, after: string)
    ensures Contains(before + part + after, part)
  {
    if before == [] {
      assert before + part + after == part + after;
    } else {
      ContainsEach(before[1..], part, after);
      assert (before + part + after)[1..] == before[1..] + part + after;
    }
  }

  predicate IsHexDigit(c: char) {
    '0' <= c <= '9' || 'a' <= c <= 'f' || 'A' <= c <= 'F'
  }

  lemma HexDigits(c: char)
    ensures IsHexDigit(c) <==> c in "0123456789abcdefABCDEF"
  {
    if IsHexDigit(c) {
      if c <= '9' {
        assert c == "0123456789"[(c - '0') as int];
      } else if c <= 'F' {
        assert c == "ABCDEF"[(c - 'A') as int];
      } else {
        assert c == "abcdef"[(c - 'a') as int];
      }
    }
  }

  // Exactly n hexadecimal digits.
  predicate IsHex(s: string, n: nat) {
    |s| == n && forall i :: 0 <= i < |s| ==> IsHexDigit(s[i])
  }
}
