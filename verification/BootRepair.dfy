// The boot-time backfills (core/db/engine/schema.go): PLMN slices get their catalog link, and UPFs without
// explicit slices get those of their legacy CSV column.
module BootRepair {
  import opened Wrappers
  import opened Text
  import opened Numbers
  import opened SubscriberTables
  import opened SubscriberSpec

  // PRIMARY KEY (plmn_id, sst, sd) of plmn_nssai, with '' for no SD.
  datatype PlmnSlice = PlmnSlice(plmn: string, sst: int, sd: string)
  // A row of upf_supported_nssai.
  datatype Supports = Supports(upf: string, nssai: int)

  // ---- INSERT OR IGNORE INTO nssai_catalog ----

  // UNIQUE(sst, sd) never holds between two rows without SD, so such a row is always added.
  function InsertOrIgnore(cat: Table<Slice>, row: Slice): Table<Slice> {
    if row.sd.Some? && exists i :: i in cat.rows && cat.rows[i] == row then cat else cat.Add(row)
  }

  ghost predicate Grows(cat: Table<Slice>, cat': Table<Slice>) {
    && cat.next <= cat'.next
    && (forall i :: i in cat.rows ==> i in cat'.rows && cat'.rows[i] == cat.rows[i])
    && (forall i :: i in cat'.rows && i !in cat.rows ==> i >= cat.next)
  }

  lemma InsertGrows(cat: Table<Slice>, row: Slice)
    requires cat.Sound() && CatalogOk(cat.rows)
    ensures var cat' := InsertOrIgnore(cat, row);
      && cat'.Sound() && CatalogOk(cat'.rows) && Grows(cat, cat')
      && (exists i :: i in cat'.rows && cat'.rows[i] == row)
      && (cat' == cat <==> row.sd.Some? && exists i :: i in cat.rows && cat.rows[i] == row)
  {
    var cat' := InsertOrIgnore(cat, row);
    if cat' != cat {
      assert cat'.rows[cat.next] == row;
    }
  }

  // ---- backfillPlmnNssaiID ----

  // A filled link points at a catalog row of the slice's SST and SD, where no SD and an empty one are alike.
  predicate LinkRight(catalog: map<int, Slice>, k: PlmnSlice, id: int) {
    id in catalog && SameSlice(catalog[id], k.sst, k.sd)
  }

  ghost predicate LinksFilled(cat: Table<Slice>, before: map<PlmnSlice, Option<int>>, after: map<PlmnSlice, Option<int>>,
                              left: set<PlmnSlice>) {
    && after.Keys == before.Keys
    && (forall k :: k in before && before[k].Some? ==> after[k] == before[k])
    && (forall k :: k in before && before[k].None? ==>
          if k in left then after[k] == None else after[k].Some? && LinkRight(cat.rows, k, after[k].value))
  }

  lemma LinksStayRight(cat: Table<Slice>, cat': Table<Slice>, before: map<PlmnSlice, Option<int>>,
                       after: map<PlmnSlice, Option<int>>, left: set<PlmnSlice>)
    requires LinksFilled(cat, before, after, left) && Grows(cat, cat')
    ensures LinksFilled(cat', before, after, left)
  {
  }

  lemma LinkFilled(cat: Table<Slice>, before: map<PlmnSlice, Option<int>>, after: map<PlmnSlice, Option<int>>,
                   left: set<PlmnSlice>, p: PlmnSlice, id: int)
    requires LinksFilled(cat, before, after, left) && p in left && p in before && before[p].None? && LinkRight(cat.rows, p, id)
    ensures LinksFilled(cat, before, after[p := Some(id)], left - {p})
  {
  }

  // The catalog id of a slice: insert it if new, then look it up. The lookup has no ORDER BY, so any row of
  // the slice may be read. None when the driver fails.
  method LinkId(cat: Table<Slice>, p: PlmnSlice) returns (cat': Table<Slice>, id: Option<int>)
    requires cat.Sound() && CatalogOk(cat.rows)
    ensures cat'.Sound() && CatalogOk(cat'.rows) && Grows(cat, cat')
    ensures id.Some? ==> LinkRight(cat'.rows, p, id.value)
    ensures id.Some? ==> id.value in cat'.rows && HasColumns(cat'.rows[id.value], p.sst, p.sd)
    ensures id.Some? ==> cat' == InsertOrIgnore(cat, Slice(p.sst, NullIfEmpty(p.sd)))
  {
    cat', id := cat, None;
    if * { return; }
    InsertGrows(cat, Slice(p.sst, NullIfEmpty(p.sd)));
    cat' := InsertOrIgnore(cat, Slice(p.sst, NullIfEmpty(p.sd)));
    if * { return; }
    assert exists i :: i in cat'.rows && LinkRight(cat'.rows, p, i);
    var i :| i in cat'.rows && LinkRight(cat'.rows, p, i);
    id := Some(i);
  }

  // ---- backfillUPFSupportedNSSAI ----

  // A token of two characters is read as hexadecimal where it is one, any other as decimal.
  function ParseSstToken(s: string): Option<int> {
    if |s| == 2 && ParseInt(s, 16).Some? then ParseInt(s, 16) else ParseInt(s, 10)
  }

  // The SSTs of a CSV, in order; blank and unreadable tokens are dropped.
  function ParsedSsts(tokens: seq<string>): seq<int> {
    if tokens == [] then [] else
      var tok := Trim(tokens[0]);
      (if tok != "" && ParseSstToken(tok).Some? then [ParseSstToken(tok).value] else []) + ParsedSsts(tokens[1..])
  }

  lemma {:induction false} ParsedAppend(a: seq<string>, b: seq<string>)
    ensures ParsedSsts(a + b) == ParsedSsts(a) + ParsedSsts(b)
    decreases |a|
  {
    if a == [] {
      assert a + b == b;
    } else {
      assert (a + b)[1..] == a[1..] + b;
      ParsedAppend(a[1..], b);
    }
  }

  // Two characters are hexadecimal first; anything else is decimal.
  lemma TokenExamples()
    ensures ParseSstToken("0A") == Some(10) && ParseSstToken("10") == Some(16)
    ensures ParseSstToken("7") == Some(7) && ParseSstToken("128") == Some(128) && ParseSstToken("x") == None
  {
    assert IsNumeral("0A", 16) && "0A"[..1] == "0" && NumeralValue("0", 16) == 0 && NumeralValue("0A", 16) == 10;
    assert IsNumeral("10", 16) && "10"[..1] == "1" && NumeralValue("1", 16) == 1 && NumeralValue("10", 16) == 16;
    assert IsNumeral("7", 10) && NumeralValue("7", 10) == 7;
    assert IsNumeral("128", 10) && "128"[..2] == "12" && "12"[..1] == "1";
    assert NumeralValue("1", 10) == 1 && NumeralValue("12", 10) == 12 && NumeralValue("128", 10) == 128;
    assert DigitValue("x"[0]) == None;
  }

  predicate Reads(token: string, sst: int) {
    ParseSstToken(Trim(token)) == Some(sst)
  }

  lemma ParsedOne(token: string, sst: int)
    ensures sst in ParsedSsts([token]) <==> Reads(token, sst)
  {
    assert ParseSstToken("") == None && [token][1..] == [];
    assert ParsedSsts([token]) == if ParseSstToken(Trim(token)).Some? then [ParseSstToken(Trim(token)).value] else [];
  }

  // A CSV parses to exactly the numbers of its readable tokens.
  lemma {:induction false} ParsedMeans(tokens: seq<string>, sst: int)
    ensures sst in ParsedSsts(tokens) <==> exists t :: t in tokens && Reads(t, sst)
    decreases |tokens|
  {
    if tokens == [] {
    } else {
      ParsedMeans(tokens[1..], sst);
      ParsedOne(tokens[0], sst);
      assert tokens == [tokens[0]] + tokens[1..];
      ParsedAppend([tokens[0]], tokens[1..]);
    }
  }

  lemma ParsedNext(tokens: seq<string>, t: nat)
    requires t < |tokens|
    ensures var tok := Trim(tokens[t]);
      ParsedSsts(tokens[..t + 1])
      == ParsedSsts(tokens[..t]) + if tok != "" && ParseSstToken(tok).Some? then [ParseSstToken(tok).value] else []
  {
    assert tokens[..t + 1] == tokens[..t] + [tokens[t]];
    ParsedAppend(tokens[..t], [tokens[t]]);
  }

  // A UPF's rows name each of the SSTs once, by the first catalog row of the SST, and nothing else.
  ghost predicate SupportsExactly(catalog: map<int, Slice>, supported: set<Supports>, upf: string, ssts: seq<int>) {
    && (forall r :: r in supported && r.upf == upf ==> r.nssai in catalog && catalog[r.nssai].sst in ssts)
    && (forall s :: s in ssts ==> exists r :: r in supported && r.upf == upf && r.nssai in catalog && catalog[r.nssai].sst == s)
    && (forall r :: r in supported && r.upf == upf && r.nssai in catalog ==>
          forall i :: i in catalog && catalog[i].sst == catalog[r.nssai].sst ==> r.nssai <= i)
  }

  ghost predicate HasRows(supported: set<Supports>, upf: string) {
    exists r :: r in supported && r.upf == upf
  }

  // Rows of other UPFs are as before.
  ghost predicate OtherUpfsKept(before: set<Supports>, after: set<Supports>, upf: string) {
    forall r: Supports :: r.upf != upf ==> (r in after <==> r in before)
  }

  lemma OthersKeptOnward(a: set<Supports>, b: set<Supports>, c: set<Supports>, upf: string)
    requires OtherUpfsKept(a, b, upf) && OtherUpfsKept(b, c, upf)
    ensures OtherUpfsKept(a, c, upf)
  {
  }

  lemma ParsedPrefix(tokens: seq<string>, done: nat)
    requires done <= |tokens|
    ensures ParsedSsts(tokens[..done]) <= ParsedSsts(tokens)
  {
    assert tokens == tokens[..done] + tokens[done..];
    ParsedAppend(tokens[..done], tokens[done..]);
  }

  lemma RowOf(catalog: map<int, Slice>, supported: set<Supports>, upf: string, ssts: seq<int>, sst: int) returns (r: Supports)
    requires SupportsExactly(catalog, supported, upf, ssts) && sst in ssts
    ensures r in supported && r.upf == upf && r.nssai in catalog && catalog[r.nssai].sst == sst
  {
    r :| r in supported && r.upf == upf && r.nssai in catalog && catalog[r.nssai].sst == sst;
  }

  lemma NoneSupported(catalog: map<int, Slice>, supported: set<Supports>, upf: string, ssts: seq<int>)
    requires SupportsExactly(catalog, supported, upf, ssts)
    ensures !HasRows(supported, upf) <==> ssts == []
  {
    if ssts != [] {
      var r := RowOf(catalog, supported, upf, ssts, ssts[0]);
    }
  }

  lemma SupportsMore(catalog: map<int, Slice>, supported: set<Supports>, upf: string, part: seq<int>, all: seq<int>)
    requires SupportsExactly(catalog, supported, upf, part) && part <= all
    ensures SupportsExactly(catalog, supported, upf, all) <==> forall i :: 0 <= i < |all| ==> all[i] in part
  {
    if SupportsExactly(catalog, supported, upf, all) {
      forall i | 0 <= i < |all| ensures all[i] in part {
        var r := RowOf(catalog, supported, upf, all, all[i]);
      }
    } else if forall i :: 0 <= i < |all| ==> all[i] in part {
      SameMembers(part, all);
    }
  }

  lemma SameMembers(part: seq<int>, all: seq<int>)
    requires part <= all && forall i :: 0 <= i < |all| ==> all[i] in part
    ensures forall s :: s in part <==> s in all
  {
    forall s | s in part ensures s in all {
      var i :| 0 <= i < |part| && part[i] == s;
      assert all[i] == s;
    }
  }

  // A UPF whose filling stopped after some tokens: a later run takes it up again exactly when none of those
  // tokens was an SST, and it lacks none of its SSTs exactly when they are all among those tokens.
  lemma HalfFilled(catalog: map<int, Slice>, supported: set<Supports>, upf: string, tokens: seq<string>, done: nat)
    requires done <= |tokens| && SupportsExactly(catalog, supported, upf, ParsedSsts(tokens[..done]))
    ensures !HasRows(supported, upf) <==> ParsedSsts(tokens[..done]) == []
    ensures var part, all := ParsedSsts(tokens[..done]), ParsedSsts(tokens);
      SupportsExactly(catalog, supported, upf, all) <==> forall i :: 0 <= i < |all| ==> all[i] in part
  {
    ParsedPrefix(tokens, done);
    NoneSupported(catalog, supported, upf, ParsedSsts(tokens[..done]));
    SupportsMore(catalog, supported, upf, ParsedSsts(tokens[..done]), ParsedSsts(tokens));
  }

  lemma SupportsGrows(cat: Table<Slice>, cat': Table<Slice>, supported: set<Supports>, upf: string, ssts: seq<int>)
    requires SupportsExactly(cat.rows, supported, upf, ssts) && Grows(cat, cat') && cat.Sound()
    ensures SupportsExactly(cat'.rows, supported, upf, ssts)
  {
    forall r | r in supported && r.upf == upf && r.nssai in cat'.rows
      ensures r.nssai in cat.rows
      ensures forall i :: i in cat'.rows && cat'.rows[i].sst == cat'.rows[r.nssai].sst ==> r.nssai <= i
    {
      assert r.nssai in cat.rows;
    }
    forall s | s in ssts
      ensures exists r :: r in supported && r.upf == upf && r.nssai in cat'.rows && cat'.rows[r.nssai].sst == s
    {
      var r :| r in supported && r.upf == upf && r.nssai in cat.rows && cat.rows[r.nssai].sst == s;
      assert r in supported && r.nssai in cat'.rows;
    }
  }

  // SELECT id ... WHERE sst=? ORDER BY id LIMIT 1, after adding a row without SD when there was none.
  method FirstOfSst(cat: Table<Slice>, sst: int) returns (cat': Table<Slice>, id: int)
    requires cat.Sound() && CatalogOk(cat.rows)
    ensures cat'.Sound() && CatalogOk(cat'.rows) && Grows(cat, cat')
    ensures cat' == if exists i :: i in cat.rows && cat.rows[i].sst == sst then cat else cat.Add(Slice(sst, None))
    ensures id in cat'.rows && cat'.rows[id].sst == sst
    ensures forall i :: i in cat'.rows && cat'.rows[i].sst == sst ==> id <= i
  {
    var ids := set i | i in cat.rows && cat.rows[i].sst == sst;
    if ids != {} {
      ghost var low := LowestExists(ids);
      id :| id in ids && forall j :: j in ids ==> id <= j;
      cat' := cat;
      assert forall i :: i in cat.rows && cat.rows[i].sst == sst ==> i in ids;
    } else {
      forall i | i in cat.rows ensures cat.rows[i].sst != sst { assert i !in ids; }
      InsertGrows(cat, Slice(sst, None));
      cat' := InsertOrIgnore(cat, Slice(sst, None));
      id := cat.next;
    }
  }

  lemma OneMoreSst(catalog: map<int, Slice>, supported: set<Supports>, upf: string, ssts: seq<int>, sst: int, id: int)
    requires SupportsExactly(catalog, supported, upf, ssts) && id in catalog && catalog[id].sst == sst
    requires forall i :: i in catalog && catalog[i].sst == sst ==> id <= i
    ensures SupportsExactly(catalog, supported + {Supports(upf, id)}, upf, ssts + [sst])
  {
    var supported' := supported + {Supports(upf, id)};
    forall s | s in ssts + [sst]
      ensures exists r :: r in supported' && r.upf == upf && r.nssai in catalog && catalog[r.nssai].sst == s
    {
      if s in ssts {
        var r :| r in supported && r.upf == upf && r.nssai in catalog && catalog[r.nssai].sst == s;
        assert r in supported';
      } else {
        assert Supports(upf, id) in supported';
      }
    }
  }

  // A UPF has exactly the SSTs of the first tokens of its CSV, up to some token.
  ghost predicate FilledSome(catalog: map<int, Slice>, supported: set<Supports>, upf: string, tokens: seq<string>) {
    exists k :: 0 <= k <= |tokens| && SupportsExactly(catalog, supported, upf, ParsedSsts(tokens[..k]))
  }

  lemma NoneFilled(catalog: map<int, Slice>, supported: set<Supports>, upf: string, tokens: seq<string>)
    requires !HasRows(supported, upf)
    ensures FilledSome(catalog, supported, upf, tokens)
  {
    assert SupportsExactly(catalog, supported, upf, ParsedSsts(tokens[..0]));
  }

  lemma AllFilled(catalog: map<int, Slice>, supported: set<Supports>, upf: string, tokens: seq<string>)
    requires SupportsExactly(catalog, supported, upf, ParsedSsts(tokens))
    ensures FilledSome(catalog, supported, upf, tokens)
  {
    assert tokens[..|tokens|] == tokens;
  }

  ghost predicate Untouched(before: set<Supports>, now: set<Supports>, upf: string) {
    forall r: Supports :: r.upf == upf ==> (r in now <==> r in before)
  }

  // What holds between two UPFs of a run: those in rest are still to come, those that had rows are passed over.
  ghost predicate Progress(before: set<Supports>, cat: Table<Slice>, now: set<Supports>,
                           upfs: map<string, string>, rest: set<string>) {
    && cat.Sound() && rest <= upfs.Keys
    && (forall u :: u in rest || HasRows(before, u) || u !in upfs ==> Untouched(before, now, u))
    && (forall u :: u in upfs && u !in rest && !HasRows(before, u) ==>
          SupportsExactly(cat.rows, now, u, ParsedSsts(Split(upfs[u]))))
  }

  // UPF u is filled as far as its first `done` tokens.
  ghost predicate FilledTo(cat0: Table<Slice>, sup0: set<Supports>, cat: Table<Slice>, sup: set<Supports>,
                           u: string, tokens: seq<string>, done: nat) {
    && cat.Sound() && Grows(cat0, cat) && OtherUpfsKept(sup0, sup, u) && done <= |tokens|
    && SupportsExactly(cat.rows, sup, u, ParsedSsts(tokens[..done]))
  }

  lemma ProgressFills(before: set<Supports>, cat0: Table<Slice>, sup0: set<Supports>, cat: Table<Slice>, sup: set<Supports>,
                      upfs: map<string, string>, rest: set<string>, u: string)
    requires Progress(before, cat0, sup0, upfs, rest) && u in rest && !HasRows(sup0, u)
    requires FilledTo(cat0, sup0, cat, sup, u, Split(upfs[u]), |Split(upfs[u])|)
    ensures Progress(before, cat, sup, upfs, rest - {u})
  {
    assert Split(upfs[u])[..|Split(upfs[u])|] == Split(upfs[u]);
    assert Untouched(before, sup0, u) && !HasRows(before, u);
    forall x | x in upfs && x !in rest && !HasRows(before, x)
      ensures SupportsExactly(cat.rows, sup, x, ParsedSsts(Split(upfs[x])))
    {
      SupportsGrows(cat0, cat, sup0, x, ParsedSsts(Split(upfs[x])));
    }
  }

  lemma ProgressSkips(before: set<Supports>, cat: Table<Slice>, now: set<Supports>,
                      upfs: map<string, string>, rest: set<string>, u: string)
    requires Progress(before, cat, now, upfs, rest) && u in rest && HasRows(now, u)
    ensures Progress(before, cat, now, upfs, rest - {u})
  {
    assert Untouched(before, now, u) && HasRows(before, u);
  }

  // Where a run leaves the UPFs that had no rows, and those that had.
  ghost predicate Stopped(before: set<Supports>, cat: Table<Slice>, sup: set<Supports>, upfs: map<string, string>) {
    && (forall x :: x in upfs && !HasRows(before, x) ==> FilledSome(cat.rows, sup, x, Split(upfs[x])))
    && (forall x :: HasRows(before, x) || x !in upfs ==> Untouched(before, sup, x))
  }

  lemma StoppedAt(before: set<Supports>, cat0: Table<Slice>, sup0: set<Supports>, cat: Table<Slice>, sup: set<Supports>,
                  upfs: map<string, string>, rest: set<string>, u: string, done: nat)
    requires Progress(before, cat0, sup0, upfs, rest) && u in rest && !HasRows(sup0, u)
    requires FilledTo(cat0, sup0, cat, sup, u, Split(upfs[u]), done)
    ensures Stopped(before, cat, sup, upfs)
  {
    assert Untouched(before, sup0, u) && !HasRows(before, u);
    forall x | x in upfs && !HasRows(before, x)
      ensures FilledSome(cat.rows, sup, x, Split(upfs[x]))
    {
      if x == u {
      } else if x in rest {
        assert Untouched(before, sup0, x);
        NoneFilled(cat.rows, sup, x, Split(upfs[x]));
      } else {
        SupportsGrows(cat0, cat, sup0, x, ParsedSsts(Split(upfs[x])));
        AllFilled(cat.rows, sup, x, Split(upfs[x]));
      }
    }
    forall x | HasRows(before, x) || x !in upfs ensures Untouched(before, sup, x) {
      assert Untouched(before, sup0, x);
    }
  }

  lemma NoneStarted(cat: Table<Slice>, now: set<Supports>, upfs: map<string, string>)
    requires cat.Sound()
    ensures Progress(now, cat, now, upfs, upfs.Keys) && Stopped(now, cat, now, upfs)
  {
    forall u | u in upfs && !HasRows(now, u) ensures FilledSome(cat.rows, now, u, Split(upfs[u])) {
      NoneFilled(cat.rows, now, u, Split(upfs[u]));
    }
  }

  // A UPF the backfill has nothing to do for.
  ghost predicate IsSettled(supported: set<Supports>, upf: string, csv: string) {
    HasRows(supported, upf) || ParsedSsts(Split(csv)) == []
  }

  lemma AllDone(before: set<Supports>, cat: Table<Slice>, now: set<Supports>, upfs: map<string, string>)
    requires Progress(before, cat, now, upfs, {})
    ensures Stopped(before, cat, now, upfs)
    ensures forall u :: u in upfs ==> IsSettled(now, u, upfs[u])
  {
    forall u | u in upfs
      ensures !HasRows(before, u) ==> FilledSome(cat.rows, now, u, Split(upfs[u]))
      ensures IsSettled(now, u, upfs[u])
    {
      if HasRows(before, u) {
        assert Untouched(before, now, u);
      } else {
        AllFilled(cat.rows, now, u, Split(upfs[u]));
        NoneSupported(cat.rows, now, u, ParsedSsts(Split(upfs[u])));
      }
    }
  }

  // One parsed SST of a UPF's CSV: look its first catalog row up, or add one, and insert the row.
  method AddSst(cat: Table<Slice>, supported: set<Supports>, upf: string, ghost ssts: seq<int>, sst: int)
    returns (error: bool, cat': Table<Slice>, supported': set<Supports>)
    requires cat.Sound() && CatalogOk(cat.rows) && SupportsExactly(cat.rows, supported, upf, ssts)
    ensures cat'.Sound() && CatalogOk(cat'.rows) && Grows(cat, cat')
    ensures SupportsExactly(cat'.rows, supported', upf, if error then ssts else ssts + [sst])
    ensures OtherUpfsKept(supported, supported', upf)
  {
    cat', supported' := cat, supported;
    if * { return true, cat', supported'; }
    var id;
    cat', id := FirstOfSst(cat, sst);
    SupportsGrows(cat, cat', supported, upf, ssts);
    if * { return true, cat', supported'; }
    OneMoreSst(cat'.rows, supported, upf, ssts, sst, id);
    supported' := supported + {Supports(upf, id)};
    error := false;
  }

  class BootDb {
    var catalog: Table<Slice>
    var links: map<PlmnSlice, Option<int>>
    var upfs: map<string, string>
    var supported: set<Supports>

    ghost predicate Valid()
      reads this
    {
      catalog.Sound() && CatalogOk(catalog.rows)
    }

    // Every NULL link is filled with a right one, every other link untouched; the catalog only grows. An error
    // stops half way, with the links filled so far right and the others NULL. With no NULL link nothing changes.
    method BackfillPlmnNssaiID() returns (error: bool, ghost left: set<PlmnSlice>)
      requires Valid()
      modifies this`catalog, this`links
      ensures Valid() && Grows(old(catalog), catalog)
      ensures LinksFilled(catalog, old(links), links, left)
      ensures !error ==> left == {} && forall k :: k in links ==> links[k].Some?
      ensures forall k :: k in links && old(links)[k].None? && links[k].Some? ==>
                links[k].value in catalog.rows && HasColumns(catalog.rows[links[k].value], k.sst, k.sd)
      ensures (forall k :: k in old(links) ==> old(links)[k].Some?) ==> links == old(links) && catalog == old(catalog)
    {
      var todo := set k | k in links && links[k].None?;
      left := todo;
      if * { return true, left; }
      var rest := todo;
      while rest != {}
        invariant Valid() && Grows(old(catalog), catalog) && rest <= todo && left == rest
        invariant LinksFilled(catalog, old(links), links, left)
        invariant todo == {} ==> links == old(links) && catalog == old(catalog)
        decreases |rest|
      {
        var p :| p in rest;
        ghost var before := catalog;
        var id;
        catalog, id := LinkId(catalog, p);
        LinksStayRight(before, catalog, old(links), links, left);
        if id.None? { return true, left; }
        if * { return true, left; }
        LinkFilled(catalog, old(links), links, left, p, id.value);
        links := links[p := id];
        rest := rest - {p};
        left := rest;
      }
      forall k | k in links ensures links[k].Some? { if old(links)[k].None? { assert k in todo; } }
      error := false;
    }

    // The row of one token, when it is an SST.
    method FillToken(upf: string, tokens: seq<string>, t: nat) returns (error: bool)
      requires Valid() && t < |tokens| && SupportsExactly(catalog.rows, supported, upf, ParsedSsts(tokens[..t]))
      modifies this`catalog, this`supported
      ensures Valid() && Grows(old(catalog), catalog) && OtherUpfsKept(old(supported), supported, upf)
      ensures SupportsExactly(catalog.rows, supported, upf, ParsedSsts(tokens[..if error then t else t + 1]))
      ensures ParsedSsts(tokens) == [] ==> catalog == old(catalog) && supported == old(supported)
    {
      ParsedNext(tokens, t);
      var tok := Trim(tokens[t]);
      error := false;
      if tok != "" && ParseSstToken(tok).Some? {
        var sst := ParseSstToken(tok).value;
        ParsedSome(tokens, t);
        error, catalog, supported := AddSst(catalog, supported, upf, ParsedSsts(tokens[..t]), sst);
      }
    }

    // The rows of one UPF from its CSV.
    method FillUpf(upf: string, csv: string) returns (error: bool, ghost done: nat)
      requires Valid() && !HasRows(supported, upf)
      modifies this`catalog, this`supported
      ensures Valid() && Grows(old(catalog), catalog)
      ensures done <= |Split(csv)| && (!error ==> done == |Split(csv)|)
      ensures SupportsExactly(catalog.rows, supported, upf, ParsedSsts(Split(csv)[..done]))
      ensures OtherUpfsKept(old(supported), supported, upf)
      ensures ParsedSsts(Split(csv)) == [] ==> catalog == old(catalog) && supported == old(supported)
    {
      var tokens := Split(csv);
      done := 0;
      for t := 0 to |tokens|
        invariant Valid() && Grows(old(catalog), catalog) && done == t
        invariant SupportsExactly(catalog.rows, supported, upf, ParsedSsts(tokens[..t]))
        invariant OtherUpfsKept(old(supported), supported, upf)
        invariant ParsedSsts(tokens) == [] ==> catalog == old(catalog) && supported == old(supported)
      {
        ghost var before := supported;
        var e := FillToken(upf, tokens, t);
        OthersKeptOnward(old(supported), before, supported, upf);
        if e { return true, done; }
        done := t + 1;
      }
      assert tokens[..|tokens|] == tokens;
      error := false;
    }

    ghost predicate Settled(upf: string)
      requires upf in upfs
      reads this
    {
      IsSettled(supported, upf, upfs[upf])
    }

    // One UPF of the loop.
    method BackfillUpf(u: string, ghost before: set<Supports>, ghost rest: set<string>) returns (error: bool)
      requires Valid() && Progress(before, catalog, supported, upfs, rest) && u in rest
      modifies this`catalog, this`supported
      ensures Valid() && Grows(old(catalog), catalog)
      ensures !error ==> Progress(before, catalog, supported, upfs, rest - {u})
      ensures error ==> Stopped(before, catalog, supported, upfs)
      ensures old(Settled(u)) ==> catalog == old(catalog) && supported == old(supported)
    {
      ghost var cat0, sup0 := catalog, supported;
      error := false;
      if !exists r :: r in supported && r.upf == u {
        ghost var done;
        error, done := FillUpf(u, upfs[u]);
        StoppedAt(before, cat0, sup0, catalog, supported, upfs, rest, u, done);
        if !error { ProgressFills(before, cat0, sup0, catalog, supported, upfs, rest, u); }
      } else {
        ProgressSkips(before, catalog, supported, upfs, rest, u);
      }
    }

    // UPFs that have rows are untouched; each other gets exactly the SSTs of its CSV, or, when an error stops
    // the run, those of the first tokens of its CSV. Once it has run without error a second run changes nothing.
    method BackfillUPFSupportedNSSAI() returns (error: bool)
      requires Valid()
      modifies this`catalog, this`supported
      ensures Valid() && Grows(old(catalog), catalog)
      ensures Stopped(old(supported), catalog, supported, upfs)
      ensures !error ==> forall u :: u in upfs && !HasRows(old(supported), u) ==>
                SupportsExactly(catalog.rows, supported, u, ParsedSsts(Split(upfs[u])))
      ensures !error ==> forall u :: u in upfs ==> Settled(u)
      ensures (forall u :: u in upfs ==> old(Settled(u))) ==> catalog == old(catalog) && supported == old(supported)
    {
      NoneStarted(catalog, supported, upfs);
      if * { return true; }
      var rest := upfs.Keys;
      while rest != {}
        invariant Valid() && Grows(old(catalog), catalog)
        invariant Progress(old(supported), catalog, supported, upfs, rest)
        invariant (forall u :: u in upfs ==> old(Settled(u))) ==> catalog == old(catalog) && supported == old(supported)
        decreases |rest|
      {
        var u :| u in rest;
        var e := BackfillUpf(u, old(supported), rest);
        if e { return true; }
        rest := rest - {u};
      }
      AllDone(old(supported), catalog, supported, upfs);
      error := false;
    }
  }

  lemma ParsedSome(tokens: seq<string>, t: nat)
    requires t < |tokens| && Trim(tokens[t]) != "" && ParseSstToken(Trim(tokens[t])).Some?
    ensures ParsedSsts(tokens) != []
  {
    assert tokens == tokens[..t] + tokens[t..];
    ParsedAppend(tokens[..t], tokens[t..]);
  }
}
