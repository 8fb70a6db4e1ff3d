// strconv.ParseInt and strings.Split, as the boot code and the NG Setup checks use them.
module Numbers {
  import opened Wrappers

  const MIN_INT64: int := -0x8000_0000_0000_0000
  const MAX_INT64: int := 0x7FFF_FFFF_FFFF_FFFF

  function DigitValue(c: char): Option<nat> {
    if '0' <= c <= '9' then Some((c - '0') as nat)
    else if 'a' <= c <= 'f' then Some((c - 'a') as nat + 10)
    else if 'A' <= c <= 'F' then Some((c - 'A') as nat + 10)
    else None
  }

  predicate IsNumeral(s: string, base: nat) {
    s != "" && forall i :: 0 <= i < |s| ==> DigitValue(s[i]).Some? && DigitValue(s[i]).value < base
  }

  function NumeralValue(s: string, base: nat): nat
    requires IsNumeral(s, base)
  {
    var d := DigitValue(s[|s| - 1]).value;
    if |s| == 1 then d else NumeralValue(s[..|s| - 1], base) * base + d
  }

  function Unsigned(s: string, base: nat): Option<nat> {
    if IsNumeral(s, base) then Some(NumeralValue(s, base)) else None
  }

  // strconv.ParseInt(s, base, 64): an optional sign and digits, within 64 bits.
  function ParseInt(s: string, base: nat): (r: Option<int>)
    ensures r.Some? ==> MIN_INT64 <= r.value <= MAX_INT64
  {
    if s == "" then None else
      var signed := s[0] == '+' || s[0] == '-';
      match Unsigned(if signed then s[1..] else s, base)
      case None => None
      case Some(n) =>
        var v := if s[0] == '-' then 0 - n else n;
        if MIN_INT64 <= v <= MAX_INT64 then Some(v) else None
  }

  // The digits of every base up to 16, in either case.
  lemma DigitMeans(c: char, n: nat)
    ensures DigitValue(c) == Some(n) <==> n < 16 && (c == "0123456789abcdef"[n] || c == "0123456789ABCDEF"[n])
  {
  }

  lemma NumeralMeans(s: string, base: nat)
    ensures IsNumeral(s, base) <==> s != "" && forall c :: c in s ==> exists d :: 0 <= d < base && DigitValue(c) == Some(d)
  {
    if IsNumeral(s, base) {
      forall c | c in s
        ensures exists d :: 0 <= d < base && DigitValue(c) == Some(d)
      {
        assert DigitValue(c).value < base;
      }
    }
  }

  // Digits read as their number, with a sign as that or its negative, within 64 bits; nothing else is read.
  lemma ParseMeans(s: string, base: nat)
    requires IsNumeral(s, base)
    ensures var n: int := NumeralValue(s, base);
      && ParseInt(s, base) == (if n <= 9223372036854775807 then Some(n) else None)
      && ParseInt("+" + s, base) == ParseInt(s, base)
      && ParseInt("-" + s, base) == if n <= 9223372036854775808 then Some(-n) else None
  {
    assert ("+" + s)[1..] == s && ("-" + s)[1..] == s;
    assert s[0] != '+' && s[0] != '-';
  }

  lemma ParseRefuses(s: string, base: nat)
    ensures ParseInt(s, base).Some? ==> IsNumeral(s, base) || (s[0] in {'+', '-'} && IsNumeral(s[1..], base))
  {
  }

  // strings.Split(s, ","): always at least one field.
  function Split(s: string): (r: seq<string>)
    ensures r != []
    ensures forall f :: f in r ==> ',' !in f
  {
    if s == "" then [""] else
      var rest := Split(s[1..]);
      if s[0] == ',' then [""] + rest else [[s[0]] + rest[0]] + rest[1..]
  }

  function Join(fields: seq<string>): string
    requires fields != []
  {
    if |fields| == 1 then fields[0] else fields[0] + "," + Join(fields[1..])
  }

  lemma JoinFront(c: char, rest: seq<string>)
    requires rest != []
    ensures Join([[c] + rest[0]] + rest[1..]) == [c] + Join(rest)
  {
    var fields := [[c] + rest[0]] + rest[1..];
    assert fields[0] == [c] + rest[0] && fields[1..] == rest[1..];
    if |rest| > 1 {
      assert Join(fields) == ([c] + rest[0]) + "," + Join(rest[1..]);
    }
  }

  lemma {:induction false} JoinSplit(s: string)
    ensures Join(Split(s)) == s
  {
    if s == "" {
    } else {
      var rest := Split(s[1..]);
      JoinSplit(s[1..]);
      assert s == [s[0]] + s[1..];
      if s[0] == ',' {
        assert ([""] + rest)[1..] == rest;
        assert Join([""] + rest) == "" + "," + Join(rest);
      } else {
        JoinFront(s[0], rest);
      }
    }
  }
}
