// Tracking areas at NG Setup (core/infra/tac/tac.go): reported TACs are split by numeric value.
module Tac {
  import opened Wrappers
  import opened Text
  import opened Numbers
  import opened Ordering

  // strconv.ParseInt(tac, 16, 64).
  function NumberOf(tac: string): Option<int> {
    ParseInt(tac, 16)
  }

  // TACs are hexadecimal, in either case, and leading zeros do not count.
  lemma NumberExamples()
    ensures NumberOf("1F") == Some(31) && NumberOf("01f") == Some(31) && NumberOf("G") == None && NumberOf("") == None
  {
    assert NumeralValue("1", 16) == 1 && "1F"[..1] == "1" && "01"[..1] == "0" && "01f"[..2] == "01";
    assert NumeralValue("0", 16) == 0 && NumeralValue("01", 16) == 1;
    assert NumeralValue("1F", 16) == 31 && NumeralValue("01f", 16) == 31;
    assert DigitValue("G"[0]) == None;
  }

  // Some configured TAC has the number.
  ghost predicate Known(configured: seq<string>, n: int) {
    exists k :: 0 <= k < |configured| && NumberOf(configured[k]) == Some(n)
  }

  // The spelling a number is accepted under: the last configured one.
  function Spelling(configured: seq<string>, n: int): Option<string> {
    if configured == [] then None
    else if NumberOf(configured[|configured| - 1]) == Some(n) then Some(configured[|configured| - 1])
    else Spelling(configured[..|configured| - 1], n)
  }

  lemma {:induction false} SpellingMeans(configured: seq<string>, n: int)
    ensures Spelling(configured, n).Some? <==> Known(configured, n)
    ensures Spelling(configured, n).Some? ==>
              Spelling(configured, n).value in configured && NumberOf(Spelling(configured, n).value) == Some(n)
  {
    if configured == [] {
    } else {
      var before := configured[..|configured| - 1];
      SpellingMeans(before, n);
      if k :| 0 <= k < |configured| && NumberOf(configured[k]) == Some(n) && k < |configured| - 1 {
        assert before[k] == configured[k];
      }
    }
  }

  // Of several spellings of a number it is the one configured last.
  lemma {:induction false} SpellingIsLast(configured: seq<string>, n: int, k: nat)
    requires k < |configured| && NumberOf(configured[k]) == Some(n)
    requires forall j :: k < j < |configured| ==> NumberOf(configured[j]) != Some(n)
    ensures Spelling(configured, n) == Some(configured[k])
  {
    if k == |configured| - 1 {
    } else {
      SpellingIsLast(configured[..|configured| - 1], n, k);
    }
  }

  // What becomes of one reported TAC.
  datatype Verdict = Accept(tac: string) | Reject(tac: string)

  function Judge(configured: seq<string>, tac: string): Verdict {
    match NumberOf(tac)
    case None => Reject(tac)
    case Some(n) =>
      match Spelling(configured, n)
      case Some(known) => Accept(known)
      case None => Reject(Upper(tac))
  }

  function Verdicts(configured: seq<string>, reported: seq<string>): (r: seq<Verdict>)
    ensures |r| == |reported| && forall i :: 0 <= i < |r| ==> r[i] == Judge(configured, reported[i])
  {
    seq(|reported|, i requires 0 <= i < |reported| => Judge(configured, reported[i]))
  }

  function Accepted(vs: seq<Verdict>): seq<string> {
    if vs == [] then [] else
      var v := vs[|vs| - 1];
      Accepted(vs[..|vs| - 1]) + if v.Accept? then [v.tac] else []
  }

  function Rejected(vs: seq<Verdict>): seq<string> {
    if vs == [] then [] else
      var v := vs[|vs| - 1];
      Rejected(vs[..|vs| - 1]) + if v.Reject? then [v.tac] else []
  }

  // A TAC is accepted exactly when its number is configured, whatever the spelling, and then under a spelling
  // of the same number; a rejected one keeps its own number, or is passed on as it is when it has none.
  lemma JudgeMeans(configured: seq<string>, tac: string)
    ensures Judge(configured, tac).Accept? <==> NumberOf(tac).Some? && Known(configured, NumberOf(tac).value)
    ensures Judge(configured, tac).Accept? ==>
              Judge(configured, tac).tac in configured && NumberOf(Judge(configured, tac).tac) == NumberOf(tac)
    ensures Judge(configured, tac).Reject? ==> NumberOf(Judge(configured, tac).tac) == NumberOf(tac)
    ensures Judge(configured, tac).Reject? ==> Judge(configured, tac).tac == if NumberOf(tac) == None then tac else Upper(tac)
  {
    if NumberOf(tac).Some? {
      SpellingMeans(configured, NumberOf(tac).value);
      UpperNumber(tac);
    }
  }

  lemma UpperDigit(c: char)
    ensures DigitValue(UpperChar(c)) == DigitValue(c)
  {
  }

  lemma {:induction false} UpperNumeral(s: string)
    requires IsNumeral(s, 16)
    ensures IsNumeral(Upper(s), 16) && NumeralValue(Upper(s), 16) == NumeralValue(s, 16)
  {
    forall i | 0 <= i < |s| ensures DigitValue(Upper(s)[i]) == DigitValue(s[i]) { UpperDigit(s[i]); }
    if |s| > 1 {
      var n := |s| - 1;
      UpperNumeral(s[..n]);
      assert Upper(s)[..n] == Upper(s[..n]);
    }
  }

  lemma UpperUnsigned(s: string)
    requires Unsigned(s, 16).Some?
    ensures Unsigned(Upper(s), 16) == Unsigned(s, 16)
  {
    UpperNumeral(s);
  }

  lemma UpperHead(s: string)
    requires s != []
    ensures Upper(s)[0] == UpperChar(s[0]) && Upper(s)[1..] == Upper(s[1..])
    ensures Upper(s)[0] == '+' <==> s[0] == '+'
    ensures Upper(s)[0] == '-' <==> s[0] == '-'
  {
  }

  // Spelling in upper case does not change the number.
  lemma UpperNumber(tac: string)
    requires NumberOf(tac).Some?
    ensures NumberOf(Upper(tac)) == NumberOf(tac)
  {
    UpperHead(tac);
    if tac[0] == '+' || tac[0] == '-' {
      UpperUnsigned(tac[1..]);
    } else {
      UpperUnsigned(tac);
    }
  }

  function CountAccepts(vs: seq<Verdict>): nat {
    if vs == [] then 0 else CountAccepts(vs[..|vs| - 1]) + if vs[|vs| - 1].Accept? then 1 else 0
  }

  lemma SplitNext(vs: seq<Verdict>, i: nat)
    requires i < |vs|
    ensures Accepted(vs[..i + 1]) == Accepted(vs[..i]) + if vs[i].Accept? then [vs[i].tac] else []
    ensures Rejected(vs[..i + 1]) == Rejected(vs[..i]) + if vs[i].Reject? then [vs[i].tac] else []
  {
    assert vs[..i + 1][..i] == vs[..i];
  }

  // A verdict stands in its list at the place that counts the accepted, or the rejected, before it.
  ghost predicate InPlace(v: Verdict, accepted: seq<string>, rejected: seq<string>, before: int, others: int) {
    match v
    case Accept(tac) => 0 <= before < |accepted| && accepted[before] == tac
    case Reject(tac) => 0 <= others < |rejected| && rejected[others] == tac
  }

  // The two lists are the verdicts split, in order and with nothing lost.
  lemma {:induction false} SplitInOrder(vs: seq<Verdict>, i: nat)
    requires i < |vs|
    ensures |Accepted(vs)| + |Rejected(vs)| == |vs|
    ensures InPlace(vs[i], Accepted(vs), Rejected(vs), CountAccepts(vs[..i]), i - CountAccepts(vs[..i]))
  {
    var n := |vs| - 1;
    SplitLengths(vs);
    SplitLengths(vs[..n]);
    if i == n {
    } else {
      SplitInOrder(vs[..n], i);
      assert vs[..n][..i] == vs[..i];
    }
  }

  lemma {:induction false} SplitLengths(vs: seq<Verdict>)
    ensures |Accepted(vs)| == CountAccepts(vs) && |Rejected(vs)| == |vs| - CountAccepts(vs)
  {
    if vs == [] {
    } else {
      SplitLengths(vs[..|vs| - 1]);
    }
  }

  function UpperAll(tacs: seq<string>): (r: seq<string>)
    ensures |r| == |tacs| && forall i :: 0 <= i < |r| ==> r[i] == Upper(tacs[i])
  {
    seq(|tacs|, i requires 0 <= i < |tacs| => Upper(tacs[i]))
  }

  // The rows that mapping some TACs to a gNB adds.
  function Mapped(gnb: string, tacs: seq<string>, areas: map<string, bool>): set<(string, string)> {
    if tacs == [] then {} else
      var tac := Upper(tacs[|tacs| - 1]);
      Mapped(gnb, tacs[..|tacs| - 1], areas) + if tac in areas then {(gnb, tac)} else {}
  }

  lemma MappedNext(gnb: string, tacs: seq<string>, areas: map<string, bool>, tac: string)
    ensures Mapped(gnb, tacs + [tac], areas) == Mapped(gnb, tacs, areas) + if Upper(tac) in areas then {(gnb, Upper(tac))} else {}
  {
    assert (tacs + [tac])[..|tacs|] == tacs;
  }

  lemma {:induction false} MappedMeans(gnb: string, tacs: seq<string>, areas: map<string, bool>, m: (string, string))
    ensures m in Mapped(gnb, tacs, areas) <==>
            m.0 == gnb && m.1 in areas && exists k :: 0 <= k < |tacs| && m.1 == Upper(tacs[k])
  {
    if tacs == [] {
    } else {
      var n := |tacs| - 1;
      MappedMeans(gnb, tacs[..n], areas, m);
      if k :| 0 <= k < |tacs| && m.1 == Upper(tacs[k]) {
        if k < n { assert tacs[..n][k] == tacs[k]; }
      }
      if k :| 0 <= k < n && m.1 == Upper(tacs[..n][k]) {
        assert tacs[k] == tacs[..n][k];
      }
    }
  }

  // The number of each configured TAC that has one; of two spellings the later.
  method Index(configured: seq<string>) returns (numeric: map<int, string>)
    ensures forall n :: n in numeric <==> Spelling(configured, n).Some?
    ensures forall n :: n in numeric ==> Spelling(configured, n) == Some(numeric[n])
  {
    numeric := map[];
    for i := 0 to |configured|
      invariant forall n :: n in numeric <==> Spelling(configured[..i], n).Some?
      invariant forall n :: n in numeric ==> Spelling(configured[..i], n) == Some(numeric[n])
    {
      assert configured[..i + 1][..i] == configured[..i];
      var n := NumberOf(configured[i]);
      if n.Some? {
        numeric := numeric[n.value := configured[i]];
      }
    }
    assert configured[..|configured|] == configured;
  }

  // One reported TAC against the index.
  method Look(numeric: map<int, string>, ghost configured: seq<string>, tac: string) returns (v: Verdict)
    requires forall n :: n in numeric <==> Spelling(configured, n).Some?
    requires forall n :: n in numeric ==> Spelling(configured, n) == Some(numeric[n])
    ensures v == Judge(configured, tac)
  {
    var n := NumberOf(tac);
    if n.None? {
      v := Reject(tac);
    } else if n.value in numeric {
      v := Accept(numeric[n.value]);
    } else {
      v := Reject(Upper(tac));
    }
  }

  method AcceptAll(reported: seq<string>) returns (accepted: seq<string>)
    ensures accepted == UpperAll(reported)
  {
    accepted := [];
    for i := 0 to |reported|
      invariant accepted == UpperAll(reported)[..i]
    {
      accepted := accepted + [Upper(reported[i])];
    }
  }

  class TrackingAreas {
    // tracking_areas: each TAC and whether it is enabled; ta_gnb_map: the gNB of each mapped TAC.
    var areas: map<string, bool>
    var gnbs: set<(string, string)>

    ghost predicate Valid()
      reads this
    {
      forall m :: m in gnbs ==> m.1 in areas
    }

    constructor ()
      ensures Valid() && areas == map[] && gnbs == {}
    {
      areas, gnbs := map[], {};
    }

    // List(true): the enabled TACs ORDER BY tac.
    method ListEnabled() returns (list: seq<string>)
      ensures Ordered((set t | t in areas && areas[t]), TextLe, list)
    {
      forall a, b ensures TextLe(a, b) || TextLe(b, a) { TextLeTotal(a, b); }
      forall a, b, c | TextLe(a, b) && TextLe(b, c) ensures TextLe(a, c) { TextLeTransitive(a, b, c); }
      list := OrderBy((set t | t in areas && areas[t]), TextLe);
    }

    // MapGnbToTA: INSERT OR IGNORE; the foreign key refuses a TAC that is not in the table in upper case.
    method MapGnbToTa(gnb: string, tac: string) returns (ok: bool)
      requires Valid()
      modifies this`gnbs
      ensures Valid() && (ok <==> Upper(tac) in areas)
      ensures gnbs == old(gnbs) + if ok then {(gnb, Upper(tac))} else {}
    {
      ok := Upper(tac) in areas;
      if ok {
        gnbs := gnbs + {(gnb, Upper(tac))};
      }
    }

    // An accepted TAC is mapped to a named gNB.
    method AutoMap(gnb: string, before: seq<string>, tac: string, ghost base: set<(string, string)>) returns (after: seq<string>)
      requires Valid() && gnbs == base + Mapped(gnb, before, areas)
      modifies this`gnbs
      ensures Valid() && after == if gnb == "" then before else before + [tac]
      ensures gnbs == base + Mapped(gnb, after, areas)
    {
      after := before;
      if gnb != "" {
        var ok := MapGnbToTa(gnb, tac);
        MappedNext(gnb, before, areas, tac);
        after := before + [tac];
      }
    }

    method SplitReported(gnb: string, configured: seq<string>, reported: seq<string>)
      returns (accepted: seq<string>, rejected: seq<string>, autoMapped: seq<string>)
      requires Valid()
      modifies this`gnbs
      ensures Valid()
      ensures accepted == Accepted(Verdicts(configured, reported)) && rejected == Rejected(Verdicts(configured, reported))
      ensures autoMapped == if gnb == "" then [] else accepted
      ensures gnbs == old(gnbs) + Mapped(gnb, autoMapped, areas)
    {
      accepted, rejected, autoMapped := [], [], [];
      var numeric := Index(configured);
      ghost var vs := Verdicts(configured, reported);
      for i := 0 to |reported|
        invariant Valid()
        invariant accepted == Accepted(vs[..i]) && rejected == Rejected(vs[..i])
        invariant autoMapped == if gnb == "" then [] else accepted
        invariant gnbs == old(gnbs) + Mapped(gnb, autoMapped, areas)
      {
        SplitNext(vs, i);
        var v := Look(numeric, configured, reported[i]);
        if v.Reject? {
          rejected := rejected + [v.tac];
        } else {
          accepted := accepted + [v.tac];
          autoMapped := AutoMap(gnb, autoMapped, v.tac, old(gnbs));
        }
      }
      assert vs[..|reported|] == vs;
    }

    // ValidateGnbTACs: with no enabled area every TAC is accepted; otherwise the reported list is split by
    // number. The accepted ones are mapped to a named gNB.
    method ValidateGnbTacs(gnb: string, reported: seq<string>)
      returns (accepted: seq<string>, rejected: seq<string>, autoMapped: seq<string>, ghost enabled: seq<string>)
      requires Valid()
      modifies this`gnbs
      ensures Valid()
      ensures Ordered((set t | t in areas && areas[t]), TextLe, enabled)
      ensures enabled == [] ==> accepted == UpperAll(reported) && rejected == [] && autoMapped == [] && gnbs == old(gnbs)
      ensures enabled != [] ==> accepted == Accepted(Verdicts(enabled, reported))
      ensures enabled != [] ==> rejected == Rejected(Verdicts(enabled, reported))
      ensures enabled != [] ==> autoMapped == if gnb == "" then [] else accepted
      ensures gnbs == old(gnbs) + Mapped(gnb, autoMapped, areas)
    {
      accepted, rejected, autoMapped := [], [], [];
      var configured := ListEnabled();
      enabled := configured;
      if |configured| == 0 {
        accepted := AcceptAll(reported);
        return;
      }
      accepted, rejected, autoMapped := SplitReported(gnb, configured, reported);
    }
  }
}
