// Fixed-width decimal strings: the in-place increment of the IMSI range loops, and its value.
module Decimal {

  predicate IsDigit(c: char) {
    '0' <= c <= '9'
  }

  predicate IsDigits(s: string) {
    forall i :: 0 <= i < |s| ==> IsDigit(s[i])
  }

  function Pow10(w: nat): (r: nat)
    ensures r > 0
  {
    if w == 0 then 1 else 10 * Pow10(w - 1)
  }

  function Digit(c: char): (d: nat)
    requires IsDigit(c)
    ensures d < 10
  {
    (c - '0') as int
  }

  function Value(s: string): nat
    requires IsDigits(s)
  {
    if s == [] then 0 else 10 * Value(s[..|s| - 1]) + Digit(s[|s| - 1])
  }

  predicate AllNines(s: string) {
    forall i :: 0 <= i < |s| ==> s[i] == '9'
  }

  // One more, carrying from the last digit; all nines wrap to all zeros.
  function Next(s: string): (r: string)
    requires IsDigits(s)
    ensures |r| == |s| && IsDigits(r)
  {
    if s == [] then []
    else if s[|s| - 1] < '9' then s[..|s| - 1] + [s[|s| - 1] + 1 as char]
    else Next(s[..|s| - 1]) + ['0']
  }

  // The w-digit string counted up v times from all zeros.
  function Render(v: nat, w: nat): (s: string)
    ensures |s| == w && IsDigits(s)
  {
    if v == 0 then seq(w, _ => '0') else Next(Render(v - 1, w))
  }

  lemma ValueSnoc(p: string, c: char)
    requires IsDigits(p) && IsDigit(c)
    ensures IsDigits(p + [c]) && Value(p + [c]) == 10 * Value(p) + Digit(c)
  {
    assert (p + [c])[..|p|] == p;
  }

  lemma {:induction false} ValueBound(s: string)
    requires IsDigits(s)
    ensures Value(s) < Pow10(|s|)
    ensures AllNines(s) <==> Value(s) + 1 == Pow10(|s|)
  {
    if s == [] {
    } else {
      var p, c := s[..|s| - 1], s[|s| - 1];
      assert s == p + [c];
      ValueBound(p);
      assert AllNines(s) <==> AllNines(p) && c == '9';
    }
  }

  lemma {:induction false} ValueInjective(s: string, t: string)
    requires IsDigits(s) && IsDigits(t) && |s| == |t| && Value(s) == Value(t)
    ensures s == t
  {
    if s == [] {
    } else {
      var n := |s| - 1;
      assert s == s[..n] + [s[n]] && t == t[..n] + [t[n]];
      ValueInjective(s[..n], t[..n]);
    }
  }

  // The width is exhausted exactly on all nines; otherwise the value grows by one.
  lemma {:induction false} NextValue(s: string)
    requires IsDigits(s)
    ensures Value(Next(s)) == if Value(s) + 1 == Pow10(|s|) then 0 else Value(s) + 1
  {
    if s == [] {
    } else {
      var p, c := s[..|s| - 1], s[|s| - 1];
      assert s == p + [c];
      ValueBound(p);
      if c < '9' {
        ValueSnoc(p, c + 1 as char);
      } else {
        NextValue(p);
        ValueSnoc(Next(p), '0');
      }
    }
  }

  lemma {:induction false} ZerosValue(w: nat)
    ensures Value(seq(w, _ => '0')) == 0
  {
    if w == 0 {
    } else {
      assert seq(w, _ => '0') == seq(w - 1, _ => '0') + ['0'];
      ZerosValue(w - 1);
      ValueSnoc(seq(w - 1, _ => '0'), '0');
    }
  }

  lemma {:induction false} ValueOfRender(v: nat, w: nat)
    requires v < Pow10(w)
    ensures Value(Render(v, w)) == v
  {
    if v == 0 {
      ZerosValue(w);
    } else {
      ValueOfRender(v - 1, w);
      NextValue(Render(v - 1, w));
    }
  }

  lemma RenderOfValue(s: string)
    requires IsDigits(s)
    ensures Render(Value(s), |s|) == s
  {
    ValueBound(s);
    ValueOfRender(Value(s), |s|);
    ValueInjective(Render(Value(s), |s|), s);
  }

  // The digits after a run of nines: the run becomes zeros and the digit before it grows by one.
  lemma {:induction false} NextDigits(s: string, i: int)
    requires IsDigits(s) && -1 <= i < |s|
    requires forall j :: i < j < |s| ==> s[j] == '9'
    requires i >= 0 ==> s[i] < '9'
    ensures forall j :: 0 <= j < |s| ==>
      Next(s)[j] == if j < i then s[j] else if j == i then s[i] + 1 as char else '0'
  {
    if s != [] && i < |s| - 1 {
      NextDigits(s[..|s| - 1], i);
    }
  }

  // incDecStr: the increment in place, refused exactly on all nines.
  method Increment(b: array<char>) returns (ok: bool)
    requires IsDigits(b[..])
    modifies b
    ensures b[..] == Next(old(b[..]))
    ensures ok <==> !AllNines(old(b[..]))
  {
    ghost var s := b[..];
    var i := b.Length - 1;
    while i >= 0
      invariant -1 <= i < b.Length
      invariant forall j :: 0 <= j <= i ==> b[j] == s[j]
      invariant forall j :: i < j < b.Length ==> b[j] == '0' && s[j] == '9'
    {
      if b[i] < '9' {
        NextDigits(s, i);
        b[i] := b[i] + 1 as char;
        return true;
      }
      b[i] := '0';
      i := i - 1;
    }
    NextDigits(s, -1);
    ok := false;
  }

  // The counter after n increments of start.
  ghost predicate IsNth(cur: string, start: string, n: nat) {
    IsDigits(start) && IsDigits(cur) && |cur| == |start| && Value(cur) == Value(start) + n
  }

  lemma IncrementCounts(cur: string, start: string, n: nat)
    requires IsNth(cur, start, n)
    ensures AllNines(cur) <==> Value(start) + n + 1 == Pow10(|start|)
    ensures Value(start) + n < Pow10(|start|)
    ensures !AllNines(cur) ==> IsNth(Next(cur), start, n + 1)
    ensures cur == Render(Value(start) + n, |start|)
  {
    ValueBound(cur);
    NextValue(cur);
    RenderOfValue(cur);
  }
}
