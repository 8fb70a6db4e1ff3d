// Saving what was listed, and bulk provisioning as a fold of single saves.
module SubscriberProvisioning {
  import opened Wrappers
  import opened Text
  import opened SubscriberTables
  import opened SubscriberSpec
  import opened SubscriberTrees
  import opened SubscriberTheorems

  // ---- Listing a tree and saving it again ----

  // A DNN or a service of the UE is stored under an empty name.
  ghost predicate HasEmptyName(f: Forest, ue: int) {
    || (exists k :: k in f.dnns && k.Ue() == ue && k.dnn == "")
    || (exists k :: k in f.services && k.Ue() == ue && k.service == "")
  }

  ghost predicate ServicesNamed(services: seq<TreeService>) {
    forall x :: x in services ==> x.serviceName != ""
  }

  ghost predicate DnnsNamed(dnns: seq<TreeDnn>) {
    forall x :: x in dnns ==> x.dnn != "" && ServicesNamed(x.services)
  }

  lemma {:induction false} NamedServiceItems(d: DnnKey, services: seq<TreeService>)
    ensures ServicesNamed(services) ==> ServiceItems(d, services, false) == ServiceItems(d, services, true)
    ensures forall x :: x in ServiceItems(d, services, false) ==> x.0.service != ""
    decreases |services|
  {
    if services == [] {
    } else {
      assert services == [services[0]] + services[1..];
      NamedServiceItems(d, services[1..]);
    }
  }

  lemma {:induction false} NamedDnnItems(s: SliceKey, dnns: seq<TreeDnn>)
    ensures DnnsNamed(dnns) ==> DnnItems(s, dnns, false) == DnnItems(s, dnns, true)
    ensures DnnsNamed(dnns) ==> DnnServiceItems(s, dnns, false) == DnnServiceItems(s, dnns, true)
    ensures forall x :: x in DnnItems(s, dnns, false) ==> x.0.dnn != ""
    ensures forall x :: x in DnnServiceItems(s, dnns, false) ==> x.0.service != ""
    decreases |dnns|
  {
    if dnns == [] {
    } else {
      assert dnns == [dnns[0]] + dnns[1..];
      NamedDnnItems(s, dnns[1..]);
      NamedServiceItems(DnnKey(s, dnns[0].dnn), dnns[0].services);
    }
  }

  lemma {:induction false} NamedTreeItems(ue: int, ids: seq<int>, slices: seq<TreeSlice>)
    requires |ids| == |slices|
    ensures (forall x :: x in slices ==> DnnsNamed(x.dnns)) ==>
              TreeItems(ue, ids, slices, false) == TreeItems(ue, ids, slices, true)
    ensures forall x :: x in TreeItems(ue, ids, slices, false).dnns ==> x.0.dnn != ""
    ensures forall x :: x in TreeItems(ue, ids, slices, false).services ==> x.0.service != ""
    decreases |slices|
  {
    if slices == [] {
    } else {
      assert slices == [slices[0]] + slices[1..];
      NamedTreeItems(ue, ids[1..], slices[1..]);
      NamedDnnItems(SliceKey(ue, ids[0]), slices[0].dnns);
    }
  }

  // Slices listed with their ids resolve to those ids and leave the catalog alone.
  lemma {:induction false} ResolveListed(cat: Table<Slice>, slices: seq<TreeSlice>)
    requires cat.Sound() && forall x :: x in slices ==> x.nssaiId in cat.rows
    ensures ResolveAll(cat, slices) == Some((cat, Ids(slices)))
    decreases |slices|
  {
    if slices == [] {
    } else {
      assert slices[0] in slices;
      ResolveListed(cat, slices[1..]);
      assert Ids(slices) == [slices[0].nssaiId] + Ids(slices[1..]);
    }
  }

  lemma ListedNames(v: View, ue: int, out: seq<TreeSlice>)
    requires ViewSound(v) && ListsSlices(v, ue, out)
    ensures AllKnown(NamesOf(v), out)
    ensures !HasEmptyName(v.forest, ue) ==> forall x :: x in out ==> DnnsNamed(x.dnns)
  {
    forall x | x in out
      ensures NamesKnown(NamesOf(v), x.dnns)
      ensures !HasEmptyName(v.forest, ue) ==> DnnsNamed(x.dnns)
    {
      var s := SliceKey(ue, x.nssaiId);
      assert ListsSlice(v, ue, x);
      forall dn | dn in x.dnns
        ensures NameKnown(NamesOf(v), dn)
        ensures !HasEmptyName(v.forest, ue) ==> dn.dnn != "" && ServicesNamed(dn.services)
      {
        assert ListsDnn(v.forest, s, dn);
        assert DnnKey(s, dn.dnn) in v.forest.dnns;
        forall sv | sv in dn.services
          ensures sv.serviceName in v.services
          ensures !HasEmptyName(v.forest, ue) ==> sv.serviceName != ""
        {
          assert ServiceKey(DnnKey(s, dn.dnn), sv.serviceName) in v.forest.services;
        }
      }
    }
  }

  // Two forests that hold the same list for one UE and agree on the others are equal.
  lemma HeldTreeIsUnique(f: Forest, g: Forest, ue: int, items: Items)
    requires HoldsTree(f, ue, items) && HoldsTree(g, ue, items) && SameOthers(f, g, ue)
    ensures f == g
  {
    forall k: SliceKey ensures Flag(f.slices, k) == Flag(g.slices, k) { if k.ue == ue {} else {} }
    forall k: DnnKey ensures Flag(f.dnns, k) == Flag(g.dnns, k) { if k.Ue() == ue {} else {} }
    forall k: ServiceKey ensures Flag(f.services, k) == Flag(g.services, k) { if k.Ue() == ue {} else {} }
    SameForest(f, g);
  }

  // Saving what a UE's listing shows is accepted, and on any view it changes nothing exactly when no DNN or
  // service of the UE has an empty name.
  lemma GetThenSaveIff(v: View, imsi: string, ue: int, out: seq<TreeSlice>)
    requires ViewSound(v) && FindUe(v.ues.rows, imsi) == Some(ue) && ListsSlices(v, ue, out)
    ensures SaveTree(v, imsi, out).Ok?
    ensures SaveTree(v, imsi, out) == Ok(v) <==> !HasEmptyName(v.forest, ue)
  {
    forall x | x in out ensures x.nssaiId in v.catalog.rows { assert ListsSlice(v, ue, x); }
    ResolveListed(v.catalog, out);
    ListedNames(v, ue, out);
    PutTreeMeans(v.(forest := Without(v.forest, ue)), ue, out);
    var v' := SaveTree(v, imsi, out).value;
    var u, ids := SavedTree(v, imsi, out, v');
    NamedTreeItems(ue, Ids(out), out);
    var t := TreeItems(ue, Ids(out), out, false);
    if HasEmptyName(v.forest, ue) {
      EmptyNameLost(v.forest, v'.forest, ue, t);
    } else {
      ListedTree(v, ue, out);
      HeldTreeIsUnique(v.forest, v'.forest, ue, t);
    }
  }

  // Get, then save: in a store that keeps integrity, where no DNN and no service has an empty name, saving what
  // a UE's listing shows changes nothing.
  lemma GetThenSave(v: View, imsi: string, ue: int, out: seq<TreeSlice>)
    requires ViewOk(v) && FindUe(v.ues.rows, imsi) == Some(ue) && ListsSlices(v, ue, out)
    ensures SaveTree(v, imsi, out) == Ok(v)
  {
    GetThenSaveIff(v, imsi, ue, out);
  }

  lemma EmptyNameLost(f: Forest, g: Forest, ue: int, t: Items)
    requires HasEmptyName(f, ue) && HoldsTree(g, ue, t)
    requires forall x :: x in t.dnns ==> x.0.dnn != ""
    requires forall x :: x in t.services ==> x.0.service != ""
    ensures f != g
  {
    if k :| k in f.dnns && k.Ue() == ue && k.dnn == "" {
      FirstFlagMeans(t.dnns, k);
      assert Flag(g.dnns, k) == None;
    } else {
      var k :| k in f.services && k.Ue() == ue && k.service == "";
      FirstFlagMeans(t.services, k);
      assert Flag(g.services, k) == None;
    }
  }

  // ---- Resolved ids are stable while the catalog grows ----

  ghost predicate Extends(c: Table<Slice>, c': Table<Slice>) {
    && c.Sound() && c'.Sound()
    && (forall i :: i in c.rows ==> i in c'.rows && c'.rows[i] == c.rows[i])
    && (forall i :: i in c'.rows && i !in c.rows ==> i >= c.next)
    && c'.next >= c.next
  }

  lemma ResolveExtends(c: Table<Slice>, sl: TreeSlice)
    requires c.Sound() && Resolve(c, sl).Some?
    ensures Extends(c, Resolve(c, sl).value.0)
  {
  }

  lemma ResolveStable(c: Table<Slice>, sl: TreeSlice, c': Table<Slice>)
    requires c.Sound() && Resolve(c, sl).Some? && Extends(Resolve(c, sl).value.0, c')
    ensures Resolve(c', sl) == Some((c', Resolve(c, sl).value.1))
  {
    var (c1, id) := Resolve(c, sl).value;
    if sl.nssaiId == 0 {
      FindsIfAny(c.rows, sl.sst, Trim(sl.sd));
      assert Finds(c1.rows, sl.sst, Trim(sl.sd), id);
      assert Finds(c'.rows, sl.sst, Trim(sl.sd), id);
    }
  }

  lemma {:induction false} ResolveAllExtends(c: Table<Slice>, slices: seq<TreeSlice>)
    requires c.Sound() && ResolveAll(c, slices).Some?
    ensures Extends(c, ResolveAll(c, slices).value.0)
    decreases |slices|
  {
    if slices == [] {
    } else {
      ResolveExtends(c, slices[0]);
      ResolveAllExtends(Resolve(c, slices[0]).value.0, slices[1..]);
    }
  }

  lemma {:induction false} ResolveAllStable(c: Table<Slice>, slices: seq<TreeSlice>, c': Table<Slice>)
    requires c.Sound() && ResolveAll(c, slices).Some? && Extends(ResolveAll(c, slices).value.0, c')
    ensures ResolveAll(c', slices) == Some((c', ResolveAll(c, slices).value.1))
    decreases |slices|
  {
    if slices == [] {
    } else {
      var c1 := Resolve(c, slices[0]).value.0;
      ResolveExtends(c, slices[0]);
      ResolveAllExtends(c1, slices[1..]);
      ResolveStable(c, slices[0], c');
      ResolveAllStable(c1, slices[1..], c');
    }
  }

  // The row of a listed slice: its own, when it names one, or one with its SST and trimmed SD.
  predicate RowOfSlice(catalog: map<int, Slice>, sl: TreeSlice, id: int) {
    && id in catalog
    && (sl.nssaiId != 0 ==> id == sl.nssaiId)
    && (sl.nssaiId == 0 ==> HasColumns(catalog[id], sl.sst, Trim(sl.sd)))
  }

  lemma {:induction false} ResolvedRows(c: Table<Slice>, slices: seq<TreeSlice>)
    requires c.Sound() && ResolveAll(c, slices).Some?
    ensures var (c', ids) := ResolveAll(c, slices).value;
      forall i :: 0 <= i < |slices| ==> RowOfSlice(c'.rows, slices[i], ids[i])
    decreases |slices|
  {
    if slices == [] {
    } else {
      var (c1, id) := Resolve(c, slices[0]).value;
      GetOrCreateColumns(c, slices[0].sst, slices[0].sd);
      ResolveExtends(c, slices[0]);
      ResolvedRows(c1, slices[1..]);
      ResolveAllExtends(c1, slices[1..]);
    }
  }

  // After a save the UE is subscribed to exactly the rows of the listed slices, each with the flag of the first
  // slice listed for it.
  lemma SavedSlices(v: View, imsi: string, slices: seq<TreeSlice>, v': View) returns (ue: int, ids: seq<int>)
    requires v.catalog.Sound() && SaveTree(v, imsi, slices) == Ok(v')
    ensures ue in v.ues.rows && v.ues.rows[ue].imsi == imsi && |ids| == |slices|
    ensures forall i :: 0 <= i < |slices| ==> RowOfSlice(v'.catalog.rows, slices[i], ids[i])
    ensures forall k: SliceKey :: k.ue == ue ==> (k in v'.forest.slices <==> k.nssai in ids)
    ensures forall i :: 0 <= i < |slices| && ids[i] !in ids[..i] ==>
              SliceKey(ue, ids[i]) in v'.forest.slices && v'.forest.slices[SliceKey(ue, ids[i])] == slices[i].isDefault
  {
    ue, ids := SavedTree(v, imsi, slices, v');
    ResolvedRows(v.catalog, slices);
    var t := TreeItems(ue, ids, slices, false);
    SliceItems(ue, ids, slices);
    forall k: SliceKey | k.ue == ue
      ensures k in v'.forest.slices <==> k.nssai in ids
    {
      assert Flag(v'.forest.slices, k) == FirstFlag(t.slices, k);
      FirstFlagMeans(t.slices, k);
    }
    forall i | 0 <= i < |slices| && ids[i] !in ids[..i]
      ensures SliceKey(ue, ids[i]) in v'.forest.slices && v'.forest.slices[SliceKey(ue, ids[i])] == slices[i].isDefault
    {
      var k := SliceKey(ue, ids[i]);
      assert Flag(v'.forest.slices, k) == FirstFlag(t.slices, k);
      FirstFlagMeans(t.slices, k);
      assert t.slices[i] == (k, slices[i].isDefault);
      forall j | 0 <= j < i ensures t.slices[j].0 != k { assert ids[..i][j] == ids[j]; }
    }
  }

  lemma {:induction false} SliceItems(ue: int, ids: seq<int>, slices: seq<TreeSlice>)
    requires |ids| == |slices|
    ensures var t := TreeItems(ue, ids, slices, false).slices;
      |t| == |slices| && forall i :: 0 <= i < |slices| ==> t[i] == (SliceKey(ue, ids[i]), slices[i].isDefault)
    decreases |slices|
  {
    if slices == [] {
    } else {
      SliceItems(ue, ids[1..], slices[1..]);
    }
  }

  // ---- Bulk provisioning ----

  ghost predicate KeysOk(v: View) {
    v.ues.Sound() && UesOk(v.ues.rows) && v.catalog.Sound()
  }

  // The template's slices and names resolve.
  ghost predicate TreeFits(v: View, slices: seq<TreeSlice>) {
    ResolveAll(v.catalog, slices).Some? && AllKnown(NamesOf(v), slices)
  }

  // The authentication data the template gives an IMSI, column by column.
  predicate AuthOf(a: AuthData, p: BulkTemplate, imsi: string, digest: string -> string) {
    && (a.opType == OP <==> p.opType == "OP")
    && a.op == digest(imsi + "MMT-OPc-" + p.kdfVersion) && a.k == digest(imsi + "MMT-K-" + p.kdfVersion)
    && a.sqn == p.initialSqn
    && a.amf == (if p.amf == "" then None else Some(Lower(p.amf)))
    && a.suciProfile == (if p.suciProfile == "" then None else Some(p.suciProfile))
    && a.hnPrivateKey == if p.hnPrivateKey == "" then None else Some(Lower(p.hnPrivateKey))
  }

  // The UE of an IMSI has the template's data and exactly its tree, on the given catalog ids.
  ghost predicate HasTemplate(v: View, imsi: string, p: BulkTemplate, ids: seq<int>, digest: string -> string)
    requires |ids| == |p.tree|
  {
    && FindUe(v.ues.rows, imsi).Some?
    && var ue := FindUe(v.ues.rows, imsi).value;
       && ue in v.auths && AuthOf(v.auths[ue], p, imsi, digest)
       && v.ues.rows[ue].ambrDl == p.ambrDl && v.ues.rows[ue].ambrUl == p.ambrUl
       && HoldsTree(v.forest, ue, TreeItems(ue, ids, p.tree, false))
  }

  lemma BulkUeUpserts(v: View, p: BulkTemplate, e: BulkEntry)
    requires KeysOk(v)
    ensures var (ues, ue) := BulkUe(v, p, e);
      && ues.Sound() && UesOk(ues.rows) && FindUe(ues.rows, Trim(e.imsi)) == Some(ue)
      && OtherRows(v.ues.rows, ues.rows, Trim(e.imsi), ue)
      && ues.rows[ue].ambrDl == p.ambrDl && ues.rows[ue].ambrUl == p.ambrUl
  {
    Upserted(v.ues, BulkRow(v.ues.rows, p, e));
  }

  lemma ProvisionOneSucceeds(v: View, p: BulkTemplate, e: BulkEntry, digest: string -> string)
    requires KeysOk(v)
    ensures ProvisionOne(v, p, e, digest).Ok? <==> Trim(e.imsi) != "" && TreeFits(v, p.tree)
  {
    BulkUeUpserts(v, p, e);
    var (ues, ue) := BulkUe(v, p, e);
    var w := v.(ues := ues, auths := v.auths[ue := BulkAuth(p, Trim(e.imsi), digest)]);
    PutTreeMeans(w.(forest := Without(w.forest, ue)), ue, p.tree);
  }

  lemma ProvisionOneMeans(v: View, p: BulkTemplate, e: BulkEntry, digest: string -> string, v': View)
    returns (ids: seq<int>)
    requires KeysOk(v) && ProvisionOne(v, p, e, digest) == Ok(v')
    ensures ResolveAll(v.catalog, p.tree) == Some((v'.catalog, ids))
    ensures KeysOk(v') && NamesOf(v') == NamesOf(v)
    ensures HasTemplate(v', Trim(e.imsi), p, ids, digest)
    ensures forall other :: other != Trim(e.imsi) ==> SameImsi(v, v', other)
  {
    BulkUeUpserts(v, p, e);
    var (ues, ue) := BulkUe(v, p, e);
    var w := v.(ues := ues, auths := v.auths[ue := BulkAuth(p, Trim(e.imsi), digest)]);
    var u;
    u, ids := SavedTree(w, Trim(e.imsi), p.tree, v');
    ResolveAllExtends(v.catalog, p.tree);
    forall other | other != Trim(e.imsi)
      ensures SameImsi(v, v', other)
    {
      if FindUe(v.ues.rows, other).Some? {
        assert ues.rows[FindUe(v.ues.rows, other).value].imsi == other;
      }
    }
  }

  // Once resolved, the template resolves to the same ids and creates nothing more.
  lemma ResolveAgain(v: View, slices: seq<TreeSlice>, v': View, ids: seq<int>)
    requires v.catalog.Sound() && ResolveAll(v.catalog, slices) == Some((v'.catalog, ids))
    ensures ResolveAll(v'.catalog, slices) == Some((v'.catalog, ids))
    ensures Extends(v.catalog, v'.catalog)
  {
    ResolveAllExtends(v.catalog, slices);
    ResolveAllStable(v.catalog, slices, v'.catalog);
  }

  predicate Lists(es: seq<BulkEntry>, imsi: string) {
    exists i :: 0 <= i < |es| && Trim(es[i].imsi) == imsi
  }

  lemma SameImsiTemplate(v: View, v': View, imsi: string, p: BulkTemplate, ids: seq<int>, digest: string -> string)
    requires |ids| == |p.tree| && HasTemplate(v, imsi, p, ids, digest) && SameImsi(v, v', imsi)
    ensures HasTemplate(v', imsi, p, ids, digest)
  {
  }

  // Bulk provisioning succeeds exactly when no listed IMSI is blank and the template resolves.
  lemma {:induction false} ProvisionAllSucceeds(v: View, p: BulkTemplate, es: seq<BulkEntry>, digest: string -> string)
    requires KeysOk(v) && es != []
    ensures ProvisionAll(v, p, es, digest).Ok? <==> !Lists(es, "") && TreeFits(v, p.tree)
    decreases |es|
  {
    ProvisionOneSucceeds(v, p, es[0], digest);
    if ProvisionOne(v, p, es[0], digest).Ok? {
      var v1 := ProvisionOne(v, p, es[0], digest).value;
      var ids := ProvisionOneMeans(v, p, es[0], digest, v1);
      ResolveAgain(v, p.tree, v1, ids);
      if es[1..] != [] {
        ProvisionAllSucceeds(v1, p, es[1..], digest);
      }
      assert Lists(es, "") <==> Lists(es[1..], "") by {
        ListsTail(es, "");
      }
    } else if Trim(es[0].imsi) == "" {
      assert Lists(es, "");
    }
  }

  lemma ListsTail(es: seq<BulkEntry>, imsi: string)
    requires es != []
    ensures Lists(es, imsi) <==> Trim(es[0].imsi) == imsi || Lists(es[1..], imsi)
  {
    if Lists(es[1..], imsi) {
      var i :| 0 <= i < |es[1..]| && Trim(es[1..][i].imsi) == imsi;
      assert es[i + 1] == es[1..][i];
    }
    if Lists(es, imsi) && Trim(es[0].imsi) != imsi {
      var i :| 0 <= i < |es| && Trim(es[i].imsi) == imsi;
      assert es[1..][i - 1] == es[i];
    }
  }

  lemma {:induction false} ProvisionAllMeans(v: View, p: BulkTemplate, es: seq<BulkEntry>, digest: string -> string, v': View)
    returns (ids: seq<int>)
    requires KeysOk(v) && es != [] && ProvisionAll(v, p, es, digest) == Ok(v')
    ensures KeysOk(v') && NamesOf(v') == NamesOf(v) && AllKnown(NamesOf(v), p.tree)
    ensures ResolveAll(v.catalog, p.tree) == Some((v'.catalog, ids))
    ensures forall imsi :: Lists(es, imsi) ==> HasTemplate(v', imsi, p, ids, digest)
    ensures forall imsi :: !Lists(es, imsi) ==> SameImsi(v, v', imsi)
    decreases |es|
  {
    ProvisionOneSucceeds(v, p, es[0], digest);
    var v1 := ProvisionOne(v, p, es[0], digest).value;
    ids := ProvisionOneMeans(v, p, es[0], digest, v1);
    ResolveAgain(v, p.tree, v1, ids);
    if es[1..] == [] {
    } else {
      var ids' := ProvisionAllMeans(v1, p, es[1..], digest, v');
    }
    forall imsi
      ensures Lists(es, imsi) ==> HasTemplate(v', imsi, p, ids, digest)
      ensures !Lists(es, imsi) ==> SameImsi(v, v', imsi)
    {
      ListsTail(es, imsi);
      if !Lists(es[1..], imsi) {
        assert SameImsi(v1, v', imsi);
        if Trim(es[0].imsi) == imsi {
          SameImsiTemplate(v1, v', imsi, p, ids, digest);
        } else {
          SameImsiTrans(v, v1, v', imsi);
        }
      }
    }
  }

  // The UE's row: the template's rates, and these.
  ghost predicate HasRow(v: View, imsi: string, p: BulkTemplate, msisdn: string, enabled: bool) {
    && FindUe(v.ues.rows, imsi).Some?
    && v.ues.rows[FindUe(v.ues.rows, imsi).value] == UeRow(imsi, Some(msisdn), enabled, p.ambrDl, p.ambrUl)
  }

  // A UE that is not there yet will be enabled.
  ghost function EnabledOf(v: View, imsi: string): bool {
    match FindUe(v.ues.rows, imsi)
    case Some(ue) => v.ues.rows[ue].enabled
    case None => true
  }

  // The MSISDN of the last entry of an IMSI.
  function LastMsisdn(es: seq<BulkEntry>, imsi: string): string
    requires Lists(es, imsi)
    decreases |es|
  {
    ListsTail(es, imsi);
    if Lists(es[1..], imsi) then LastMsisdn(es[1..], imsi) else es[0].msisdn
  }

  lemma ProvisionOneRow(v: View, p: BulkTemplate, e: BulkEntry, digest: string -> string, v': View)
    requires KeysOk(v) && ProvisionOne(v, p, e, digest) == Ok(v')
    ensures HasRow(v', Trim(e.imsi), p, e.msisdn, EnabledOf(v, Trim(e.imsi)))
    ensures forall imsi :: EnabledOf(v', imsi) == EnabledOf(v, imsi)
  {
    BulkUeUpserts(v, p, e);
    var (ues, ue) := BulkUe(v, p, e);
    var w := v.(ues := ues, auths := v.auths[ue := BulkAuth(p, Trim(e.imsi), digest)]);
    var u, ids := SavedTree(w, Trim(e.imsi), p.tree, v');
    assert v'.ues == ues && ues.rows[ue] == BulkRow(v.ues.rows, p, e);
    var ids' := ProvisionOneMeans(v, p, e, digest, v');
    forall imsi ensures EnabledOf(v', imsi) == EnabledOf(v, imsi) {
      if imsi != Trim(e.imsi) { assert SameImsi(v, v', imsi); }
    }
  }

  lemma {:induction false} ProvisionAllRows(v: View, p: BulkTemplate, es: seq<BulkEntry>, digest: string -> string, v': View)
    requires KeysOk(v) && es != [] && ProvisionAll(v, p, es, digest) == Ok(v')
    ensures forall imsi :: Lists(es, imsi) ==> HasRow(v', imsi, p, LastMsisdn(es, imsi), EnabledOf(v, imsi))
    decreases |es|
  {
    ProvisionOneSucceeds(v, p, es[0], digest);
    var v1 := ProvisionOne(v, p, es[0], digest).value;
    var ids := ProvisionOneMeans(v, p, es[0], digest, v1);
    ProvisionOneRow(v, p, es[0], digest, v1);
    if es[1..] == [] {
    } else {
      ProvisionAllRows(v1, p, es[1..], digest, v');
      var ids' := ProvisionAllMeans(v1, p, es[1..], digest, v');
    }
    forall imsi | Lists(es, imsi)
      ensures HasRow(v', imsi, p, LastMsisdn(es, imsi), EnabledOf(v, imsi))
    {
      ListsTail(es, imsi);
      assert EnabledOf(v1, imsi) == EnabledOf(v, imsi);
      if !Lists(es[1..], imsi) {
        assert SameImsi(v1, v', imsi);
      }
    }
  }

  // Bulk provisioning gives every listed IMSI the template's tree on one shared list of catalog ids, resolved
  // once, with the MSISDN of its last entry and the enabled flag it had, and touches no other IMSI; a single
  // save of the template on a listed IMSI would then change nothing.
  lemma BulkProvisions(v: View, p: BulkTemplate, es: seq<BulkEntry>, digest: string -> string, v': View)
    returns (ids: seq<int>)
    requires KeysOk(v) && Bulk(v, p, es, digest) == Ok(v')
    ensures ResolveAll(v.catalog, p.tree) == Some((v'.catalog, ids))
    ensures forall imsi :: Lists(es, imsi) ==> HasTemplate(v', imsi, p, ids, digest)
    ensures forall imsi :: Lists(es, imsi) ==> HasRow(v', imsi, p, LastMsisdn(es, imsi), EnabledOf(v, imsi))
    ensures forall imsi :: Lists(es, imsi) ==> SaveTree(v', imsi, p.tree) == Ok(v')
    ensures forall imsi :: !Lists(es, imsi) ==> SameImsi(v, v', imsi)
  {
    ids := ProvisionAllMeans(v, p, es, digest, v');
    ProvisionAllRows(v, p, es, digest, v');
    ResolveAgain(v, p.tree, v', ids);
    forall imsi | Lists(es, imsi)
      ensures SaveTree(v', imsi, p.tree) == Ok(v')
    {
      SaveAgain(v', imsi, p.tree, ids);
    }
  }

  // When a bulk provisioning succeeds, in terms of its arguments and the store.
  lemma BulkSucceeds(v: View, p: BulkTemplate, es: seq<BulkEntry>, digest: string -> string)
    requires KeysOk(v)
    ensures Bulk(v, p, es, digest).Ok? <==>
            && es != [] && p.kdfVersion != "" && (p.opType == "" || p.opType == "OP" || p.opType == "OPC")
            && (p.amf == "" || (|p.amf| == 4 && forall c :: c in p.amf ==> IsHexDigit(c)))
            && (p.suciProfile == "" || p.suciProfile == "A" || p.suciProfile == "B")
            && (p.hnPrivateKey == "" || (|p.hnPrivateKey| == 64 && forall c :: c in p.hnPrivateKey ==> IsHexDigit(c)))
            && (forall e :: e in es ==> Trim(e.imsi) != "")
            && TreeFits(v, p.tree)
  {
    if es != [] {
      ProvisionAllSucceeds(v, p, es, digest);
      assert Lists(es, "") <==> !(forall e :: e in es ==> Trim(e.imsi) != "");
    }
  }

  // Saving the tree a UE already has changes nothing.
  lemma SaveAgain(v: View, imsi: string, slices: seq<TreeSlice>, ids: seq<int>)
    requires FindUe(v.ues.rows, imsi).Some? && AllKnown(NamesOf(v), slices)
    requires ResolveAll(v.catalog, slices) == Some((v.catalog, ids))
    requires HoldsTree(v.forest, FindUe(v.ues.rows, imsi).value, TreeItems(FindUe(v.ues.rows, imsi).value, ids, slices, false))
    ensures SaveTree(v, imsi, slices) == Ok(v)
  {
    var ue := FindUe(v.ues.rows, imsi).value;
    PutTreeMeans(v.(forest := Without(v.forest, ue)), ue, slices);
    var v' := SaveTree(v, imsi, slices).value;
    var u, ids' := SavedTree(v, imsi, slices, v');
    HeldTreeIsUnique(v.forest, v'.forest, ue, TreeItems(ue, ids, slices, false));
  }
}
