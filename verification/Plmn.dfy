// PLMN identities on the wire, section 2.2 of 3GPP TS 23.003: the server's codec (core/infra/plmn/plmn.go),
// the tester's (tester/libs/gpp_utils.py), and the NG Setup check.
module Plmn {
  import opened Wrappers
  import opened Decimal

  type Octet = n: nat | n < 256

  // A PLMN as configured: MCC and MNC in decimal.
  datatype Id = Id(mcc: string, mnc: string)

  // Three digits, and two or three.
  predicate WellFormed(p: Id) {
    |p.mcc| == 3 && (|p.mnc| == 2 || |p.mnc| == 3) && IsDigits(p.mcc) && IsDigits(p.mnc)
  }

  // ---- The server's codec ----

  // EncodePLMN: shifting by four and or-ing nibbles is multiplying by 16 and adding.
  method EncodePlmn(p: Id) returns (octets: Option<seq<Octet>>)
    ensures octets == Encoded(p)
  {
    if |p.mcc| != 3 { return None; }
    if |p.mnc| != 2 && |p.mnc| != 3 { return None; }
    var d := new nat[6](_ => 0);
    for i := 0 to 3
      invariant forall k :: 0 <= k < i ==> IsDigit(p.mcc[k]) && d[k] == Digit(p.mcc[k])
    {
      if !IsDigit(p.mcc[i]) { return None; }
      d[i] := Digit(p.mcc[i]);
    }
    for i := 0 to |p.mnc|
      invariant forall k :: 0 <= k < 3 ==> IsDigit(p.mcc[k]) && d[k] == Digit(p.mcc[k])
      invariant forall k :: 0 <= k < i ==> IsDigit(p.mnc[k]) && d[3 + k] == Digit(p.mnc[k])
    {
      if !IsDigit(p.mnc[i]) { return None; }
      d[3 + i] := Digit(p.mnc[i]);
    }
    if |p.mnc| == 2 {
      return Some([d[1] * 16 + d[0], 15 * 16 + d[2], d[4] * 16 + d[3]]);
    }
    octets := Some([d[1] * 16 + d[0], d[5] * 16 + d[2], d[4] * 16 + d[3]]);
  }

  // The octets of the standard: MCC digits 1 to 3, then MNC digit 3 or the filler 15, then MNC digits 1 and 2,
  // the lower-numbered digit of a pair in the low half.
  function Encoded(p: Id): Option<seq<Octet>> {
    if !WellFormed(p) then None else
      var third := if |p.mnc| == 2 then 15 else Digit(p.mnc[2]);
      Some([Digit(p.mcc[0]) + 16 * Digit(p.mcc[1]), Digit(p.mcc[2]) + 16 * third, Digit(p.mnc[0]) + 16 * Digit(p.mnc[1])])
  }

  // The order of the halves and the place of the filler, on the standard's own layout: MCC 310, MNC 410, and
  // MCC 262, MNC 01.
  lemma EncodedExamples()
    ensures Encoded(Id("310", "410")) == Some([0x13, 0x00, 0x14])
    ensures Encoded(Id("262", "01")) == Some([0x62, 0xF2, 0x10])
  {
  }

  // '0' plus a nibble: a digit up to 9, other characters above.
  function NibbleChar(n: nat): char
    requires n < 16
  {
    '0' + n as char
  }

  // DecodePLMN.
  function Decoded(b: seq<Octet>): Option<Id> {
    if |b| != 3 then None else
      var mcc := [NibbleChar(b[0] % 16), NibbleChar(b[0] / 16), NibbleChar(b[1] % 16)];
      var two := [NibbleChar(b[2] % 16), NibbleChar(b[2] / 16)];
      Some(Id(mcc, if b[1] / 16 == 15 then two else two + [NibbleChar(b[1] / 16)]))
  }

  // Every nibble a digit, but the third MNC digit may be the filler.
  predicate IsBcd(b: seq<Octet>) {
    && |b| == 3
    && b[0] % 16 < 10 && b[0] / 16 < 10 && b[1] % 16 < 10 && b[2] % 16 < 10 && b[2] / 16 < 10
    && (b[1] / 16 < 10 || b[1] / 16 == 15)
  }

  lemma Nibbles(lo: nat, hi: nat)
    requires lo < 16 && hi < 16
    ensures (lo + 16 * hi) % 16 == lo && (lo + 16 * hi) / 16 == hi && lo + 16 * hi < 256
  {
  }

  lemma DigitOfNibble(n: nat)
    requires n < 16
    ensures IsDigit(NibbleChar(n)) <==> n < 10
    ensures n < 10 ==> Digit(NibbleChar(n)) == n
  {
  }

  // Decoding inverts encoding, for two- and three-digit MNCs.
  lemma DecodeEncoded(p: Id)
    requires WellFormed(p)
    ensures Decoded(Encoded(p).value) == Some(p)
  {
    var b := Encoded(p).value;
    Nibbles(Digit(p.mcc[0]), Digit(p.mcc[1]));
    Nibbles(Digit(p.mcc[2]), if |p.mnc| == 2 then 15 else Digit(p.mnc[2]));
    Nibbles(Digit(p.mnc[0]), Digit(p.mnc[1]));
    assert p.mcc == [p.mcc[0], p.mcc[1], p.mcc[2]];
    if |p.mnc| == 2 {
      assert p.mnc == [p.mnc[0], p.mnc[1]];
    } else {
      assert p.mnc == [p.mnc[0], p.mnc[1]] + [p.mnc[2]];
    }
  }

  // Encoding inverts decoding exactly on decimal octets.
  lemma EncodedDecode(b: seq<Octet>)
    requires |b| == 3
    ensures Encoded(Decoded(b).value) == Some(b) <==> IsBcd(b)
  {
    var p := Decoded(b).value;
    var n0, n1, n2, n3, n4, n5 := b[0] % 16, b[0] / 16, b[1] % 16, b[1] / 16, b[2] % 16, b[2] / 16;
    DigitOfNibble(n0);
    DigitOfNibble(n1);
    DigitOfNibble(n2);
    DigitOfNibble(n3);
    DigitOfNibble(n4);
    DigitOfNibble(n5);
    if IsBcd(b) {
      assert IsDigits(p.mcc) && IsDigits(p.mnc);
      assert Encoded(p).value == [n0 + 16 * n1, n2 + 16 * n3, n4 + 16 * n5] == b;
    } else if WellFormed(p) {
      assert IsDigit(p.mcc[0]) && IsDigit(p.mcc[1]) && IsDigit(p.mcc[2]) && IsDigit(p.mnc[0]) && IsDigit(p.mnc[1]);
      assert n3 != 15 ==> IsDigit(p.mnc[2]);
    }
  }

  // ---- The tester's codec ----

  // encode_plmn_id, None for a ValueError.
  function TesterEncode(p: Id): Option<seq<Octet>> {
    if |p.mcc| != 3 || |p.mnc| !in {2, 3} || !IsDigits(p.mcc) || !IsDigits(p.mnc) then None else
      var m, n := p.mcc, p.mnc;
      if |n| == 2 then
        Some([Digit(m[1]) * 16 + Digit(m[0]), 240 + Digit(m[2]), Digit(n[1]) * 16 + Digit(n[0])])
      else
        Some([Digit(m[1]) * 16 + Digit(m[0]), Digit(n[2]) * 16 + Digit(m[2]), Digit(n[1]) * 16 + Digit(n[0])])
  }

  lemma SameOctets(p: Id)
    ensures TesterEncode(p) == Encoded(p)
  {
  }

  // f"{n}": the number in decimal, two digits above nine.
  function NibbleText(n: nat): string
    requires n < 16
  {
    if n < 10 then [NibbleChar(n)] else ['1', NibbleChar(n - 10)]
  }

  // decode_plmn_id, None for a ValueError.
  function TesterDecode(b: seq<Octet>): Option<Id> {
    if |b| != 3 then None else
      var mcc := NibbleText(b[0] % 16) + NibbleText(b[0] / 16) + NibbleText(b[1] % 16);
      var two := NibbleText(b[2] % 16) + NibbleText(b[2] / 16);
      Some(Id(mcc, if b[1] / 16 == 15 then two else two + NibbleText(b[1] / 16)))
  }

  // The two decoders agree exactly on decimal octets.
  lemma DecodersAgreeIff(b: seq<Octet>)
    requires |b| == 3
    ensures TesterDecode(b) == Decoded(b) <==> IsBcd(b)
  {
    var n0, n1, n2, n3, n4, n5 := b[0] % 16, b[0] / 16, b[1] % 16, b[1] / 16, b[2] % 16, b[2] / 16;
    var p, q := Decoded(b).value, TesterDecode(b).value;
    assert |q.mcc| == 3 <==> n0 < 10 && n1 < 10 && n2 < 10;
    if n3 == 15 {
      assert |q.mnc| == 2 <==> n4 < 10 && n5 < 10;
    } else {
      assert |q.mnc| == 3 <==> n4 < 10 && n5 < 10 && n3 < 10;
    }
    if IsBcd(b) {
      assert q.mcc == p.mcc;
      assert NibbleText(n4) + NibbleText(n5) == [NibbleChar(n4), NibbleChar(n5)];
    }
  }

  // ---- The NG Setup check ----

  // An encoding is one PLMN's: the byte comparison is a comparison of (MCC, MNC).
  lemma EncodesIff(p: Id, b: seq<Octet>)
    ensures Encoded(p) == Some(b) <==> |b| == 3 && IsBcd(b) && Decoded(b) == Some(p)
  {
    if Encoded(p) == Some(b) {
      DecodeEncoded(p);
      EncodedDecode(b);
    }
    if |b| == 3 && IsBcd(b) && Decoded(b) == Some(p) {
      EncodedDecode(b);
    }
  }

  // ValidateGnbPLMNs over the enabled PLMNs. An empty list on either side accepts; a configured PLMN that
  // cannot be encoded matches nothing.
  method ValidateGnbPlmns(reported: seq<seq<Octet>>, configured: seq<Id>) returns (ok: bool)
    ensures reported == [] || configured == [] ==> ok
    ensures reported != [] && configured != [] ==>
              (ok <==> exists g, p :: g in reported && p in configured && IsBcd(g) && Decoded(g) == Some(p))
  {
    if |reported| == 0 { return true; }
    if |configured| == 0 { return true; }
    var ours: set<seq<Octet>> := {};
    for i := 0 to |configured|
      invariant forall b :: b in ours <==> exists k :: 0 <= k < i && Encoded(configured[k]) == Some(b)
    {
      var b := EncodePlmn(configured[i]);
      if b.Some? {
        ours := ours + {b.value};
      }
    }
    for i := 0 to |reported|
      invariant forall k :: 0 <= k < i ==> reported[k] !in ours
    {
      if reported[i] in ours {
        var k :| 0 <= k < |configured| && Encoded(configured[k]) == Some(reported[i]);
        EncodesIff(configured[k], reported[i]);
        assert reported[i] in reported && configured[k] in configured;
        return true;
      }
    }
    forall g, p | g in reported && p in configured && IsBcd(g)
      ensures Decoded(g) != Some(p)
    {
      EncodesIff(p, g);
    }
    ok := false;
  }
}
