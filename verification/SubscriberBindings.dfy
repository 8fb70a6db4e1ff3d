// Laws of the single binding upsert and of replacing a UE's DNNs.
module SubscriberBindings {
  import opened Wrappers
  import opened Text
  import opened SubscriberTables
  import opened SubscriberSpec
  import opened SubscriberTrees
  import opened SubscriberTheorems
  import opened SubscriberProvisioning

  // ---- BindingUpsert ----

  // f and g differ at most on one four-row path; in g it is there, with the flag.
  ghost predicate OnlyPath(f: Forest, g: Forest, k: ServiceKey, flag: bool) {
    && Flag(g.services, k) == Some(flag)
    && (forall x :: x != k ==> Flag(g.services, x) == Flag(f.services, x))
    && Flag(g.dnns, k.dnn) == Prefer(Flag(f.dnns, k.dnn), Some(true))
    && (forall x :: x != k.dnn ==> Flag(g.dnns, x) == Flag(f.dnns, x))
    && Flag(g.slices, k.dnn.slice) == Prefer(Flag(f.slices, k.dnn.slice), Some(true))
    && (forall x :: x != k.dnn.slice ==> Flag(g.slices, x) == Flag(f.slices, x))
  }

  lemma PathPut(f: Forest, k: ServiceKey, flag: bool)
    ensures OnlyPath(f, SetFlag(PutParents(f, k.dnn), k, flag), k, flag)
    ensures Closed(f) ==> Closed(SetFlag(PutParents(f, k.dnn), k, flag))
    ensures var g := SetFlag(PutParents(f, k.dnn), k, flag);
      SetFlag(PutParents(g, k.dnn), k, flag) == g
  {
    var g := SetFlag(PutParents(f, k.dnn), k, flag);
    assert g.services[k := flag] == g.services;
  }

  lemma BindUeMeans(v: View, imsi: string)
    requires v.ues.Sound() && UesOk(v.ues.rows)
    ensures var (v1, ue) := BindUe(v, imsi);
      && v1 == v.(ues := v1.ues) && v1.ues.Sound() && UesOk(v1.ues.rows)
      && FindUe(v1.ues.rows, imsi) == Some(ue) && BindUe(v1, imsi) == (v1, ue)
      && OtherRows(v.ues.rows, v1.ues.rows, imsi, ue)
      && (v1 == v <==> FindUe(v.ues.rows, imsi).Some?)
  {
    var (v1, ue) := BindUe(v, imsi);
    if FindUe(v.ues.rows, imsi).None? {
      assert v1.ues.rows[ue].imsi == imsi;
      forall other | other != imsi
        ensures FindUe(v1.ues.rows, other) == FindUe(v.ues.rows, other)
      {
        if FindUe(v.ues.rows, other).Some? {
          assert v1.ues.rows[FindUe(v.ues.rows, other).value].imsi == other;
        }
      }
    }
  }

  lemma GetOrCreateStable(cat: Table<Slice>, sst: int, sd: string)
    requires cat.Sound()
    ensures var (c, id) := GetOrCreate(cat, sst, sd);
      Extends(cat, c) && GetOrCreate(c, sst, sd) == (c, id) && Finds(c.rows, sst, Trim(sd), id)
  {
    var sl := TreeSlice(0, sst, sd, false, []);
    ResolveExtends(cat, sl);
    ResolveStable(cat, sl, GetOrCreate(cat, sst, sd).0);
    FindsIfAny(cat.rows, sst, Trim(sd));
  }

  // The path a successful upsert sets in v', read off v' itself.
  ghost function PathIn(v': View, imsi: string, dnn: string, sst: int, sd: string, svc: string): ServiceKey
    requires FindUe(v'.ues.rows, Trim(imsi)).Some?
  {
    BindKey(v'.catalog, FindUe(v'.ues.rows, Trim(imsi)).value, Trim(dnn), sst, Upper(Trim(sd)), Trim(svc))
  }

  // A binding upsert that succeeds leaves one path with the flag, its parents present, and every flag off the
  // path as it was; doing it again changes nothing.
  lemma BindSetsOnePath(v: View, imsi: string, dnn: string, sst: int, sd: string, svc: string, flag: bool, v': View)
    requires KeysOk(v) && Bind(v, imsi, dnn, sst, sd, svc, flag) == (v', None)
    ensures v' == v.(catalog := v'.catalog, ues := v'.ues, forest := v'.forest) && KeysOk(v')
    ensures FindUe(v'.ues.rows, Trim(imsi)).Some?
    ensures OtherRows(v.ues.rows, v'.ues.rows, Trim(imsi), FindUe(v'.ues.rows, Trim(imsi)).value)
    ensures var k := PathIn(v', imsi, dnn, sst, sd, svc);
      OnlyPath(v.forest, v'.forest, k, flag) && Finds(v'.catalog.rows, sst, Trim(Upper(Trim(sd))), k.dnn.slice.nssai)
    ensures Extends(v.catalog, v'.catalog)
    ensures Closed(v.forest) ==> Closed(v'.forest)
    ensures Bind(v', imsi, dnn, sst, sd, svc, flag) == (v', None)
  {
    BindUeMeans(v, Trim(imsi));
    var (v1, ue) := BindUe(v, Trim(imsi));
    GetOrCreateStable(v.catalog, sst, Upper(Trim(sd)));
    PathPut(v.forest, BindKey(v.catalog, ue, Trim(dnn), sst, Upper(Trim(sd)), Trim(svc)), flag);
    assert PathIn(v', imsi, dnn, sst, sd, svc) == BindKey(v.catalog, ue, Trim(dnn), sst, Upper(Trim(sd)), Trim(svc));
    assert BindUe(v', Trim(imsi)) == (v', ue);
  }

  // When it succeeds, and why it is refused.
  lemma BindSucceeds(v: View, imsi: string, dnn: string, sst: int, sd: string, svc: string, flag: bool)
    ensures Bind(v, imsi, dnn, sst, sd, svc, flag).1 == Some(Invalid) <==>
            || Trim(imsi) == "" || Trim(dnn) == "" || Trim(svc) == ""
            || (flag && (Trim(svc) !in v.services || v.services[Trim(svc)] != NonGBR))
    ensures Bind(v, imsi, dnn, sst, sd, svc, flag).1.None? <==>
            && Trim(imsi) != "" && Trim(dnn) in v.apns && Trim(svc) in v.services
            && Trim(dnn) != "" && Trim(svc) != "" && (flag ==> v.services[Trim(svc)] == NonGBR)
    ensures Bind(v, imsi, dnn, sst, sd, svc, flag).1 in {None, Some(Invalid), Some(Constraint)}
  {
  }

  // Whether and why it is refused depends on the configured names only, not on any UE, slice or path stored.
  lemma BindAnswerIgnoresRows(v: View, w: View, imsi: string, dnn: string, sst: int, sd: string, svc: string, flag: bool)
    requires v.apns == w.apns && v.services == w.services
    ensures Bind(v, imsi, dnn, sst, sd, svc, flag).1 == Bind(w, imsi, dnn, sst, sd, svc, flag).1
  {
    var (v1, w1) := (BindUe(v, Trim(imsi)).0, BindUe(w, Trim(imsi)).0);
    assert v1.apns == w1.apns && v1.services == w1.services;
  }

  // A refused upsert is not always without effect: the UE's row is stored first, on its own. It leaves the
  // store as it was exactly when the arguments are refused outright or the UE is already there.
  lemma BindFailureLeavesStore(v: View, imsi: string, dnn: string, sst: int, sd: string, svc: string, flag: bool,
                               v': View, e: Error)
    requires KeysOk(v) && Bind(v, imsi, dnn, sst, sd, svc, flag) == (v', Some(e))
    ensures v' == v.(ues := v'.ues)
    ensures v' == v <==> !BindArgsOk(v, Trim(imsi), Trim(dnn), Trim(svc), flag) || FindUe(v.ues.rows, Trim(imsi)).Some?
    ensures OtherRows(v.ues.rows, v'.ues.rows, Trim(imsi), BindUe(v, Trim(imsi)).1)
  {
    BindUeMeans(v, Trim(imsi));
  }

  // A new UE bound to a DNN that is not configured stays behind.
  lemma BindFailureLeavesUe()
    ensures var v := View({}, map[], Table(map[], 1), Table(map[], 1), map[], Forest(map[], map[], map[]));
      && Bind(v, "001010000000001", "ims", 1, "", "web", false).1 == Some(Constraint)
      && FindUe(Bind(v, "001010000000001", "ims", 1, "", "web", false).0.ues.rows, "001010000000001") == Some(1)
  {
    var v := View({}, map[], Table(map[], 1), Table(map[], 1), map[], Forest(map[], map[], map[]));
    assert Trim("001010000000001") == "001010000000001" && Trim("ims") == "ims" && Trim("web") == "web";
    assert BindUe(v, "001010000000001").0.ues.rows[1].imsi == "001010000000001";
  }

  // What the columns show of a successful upsert: the UE of the IMSI has the binding, with the flag, to the
  // trimmed service, on the trimmed DNN, of a slice with the SST and the trimmed SD in upper case.
  lemma BindColumns(v: View, imsi: string, dnn: string, sst: int, sd: string, svc: string, flag: bool, v': View)
    returns (ue: int, nssai: int)
    requires KeysOk(v) && Bind(v, imsi, dnn, sst, sd, svc, flag) == (v', None)
    ensures ue in v'.ues.rows && v'.ues.rows[ue].imsi == Trim(imsi)
    ensures nssai in v'.catalog.rows && HasColumns(v'.catalog.rows[nssai], sst, Trim(Upper(Trim(sd))))
    ensures var k := ServiceKey(DnnKey(SliceKey(ue, nssai), Trim(dnn)), Trim(svc));
      && k in v'.forest.services && v'.forest.services[k] == flag
      && k.dnn in v'.forest.dnns && k.dnn.slice in v'.forest.slices
    ensures ue !in v.ues.rows ==> v'.ues.rows[ue] == UeRow(Trim(imsi), None, true, 1000000, 1000000)
    ensures ue in v.ues.rows ==> v'.ues == v.ues
  {
    BindSetsOnePath(v, imsi, dnn, sst, sd, svc, flag, v');
    ue := FindUe(v'.ues.rows, Trim(imsi)).value;
    var k := PathIn(v', imsi, dnn, sst, sd, svc);
    nssai := k.dnn.slice.nssai;
    SameSliceMeans(v'.catalog.rows[nssai], sst, Trim(Upper(Trim(sd))));
    BindUeMeans(v, Trim(imsi));
    var (v1, u) := BindUe(v, Trim(imsi));
    GetOrCreateColumns(v.catalog, sst, Upper(Trim(sd)));
    assert v'.ues == v1.ues && u == ue;
    assert Flag(v'.forest.services, k) == Some(flag);
    assert Flag(v'.forest.dnns, k.dnn).Some? && Flag(v'.forest.slices, k.dnn.slice).Some?;
  }

  // ---- BindingsDelete ----

  // A filter matches a binding of the UE on each of the four columns it names.
  predicate MatchedBy(row: Slice, f: BindingFilter, k: ServiceKey) {
    && (f.dnn == "" || k.dnn.dnn == f.dnn)
    && (f.service == "" || k.service == f.service)
    && (f.sst == None || f.sst == Some(row.sst))
    && (f.sd == "" || row.sd == Some(Upper(f.sd)))
  }

  // Exactly the UE's matched bindings go; every other keeps its flag, and nothing else changes.
  lemma UnbindMeans(v: View, imsi: string, f: BindingFilter)
    requires ViewOk(v)
    ensures Unbind(v, imsi, f) == v.(forest := v.forest.(services := Unbind(v, imsi, f).forest.services))
    ensures forall k: ServiceKey :: k in Unbind(v, imsi, f).forest.services <==>
              && k in v.forest.services
              && !(v.ues.rows[k.Ue()].imsi == imsi && MatchedBy(v.catalog.rows[k.dnn.slice.nssai], f, k))
    ensures forall k: ServiceKey :: k in Unbind(v, imsi, f).forest.services ==>
              Unbind(v, imsi, f).forest.services[k] == v.forest.services[k]
  {
    forall k: ServiceKey | k in v.forest.services
      ensures k.dnn.slice.nssai in v.catalog.rows && k.Ue() in v.ues.rows
      ensures k in Unbind(v, imsi, f).forest.services <==>
              !(v.ues.rows[k.Ue()].imsi == imsi && MatchedBy(v.catalog.rows[k.dnn.slice.nssai], f, k))
    {
      assert k.dnn in v.forest.dnns && k.dnn.slice in v.forest.slices;
    }
  }

  // The number returned is that of the bindings gone.
  lemma UnbindCounts(v: View, imsi: string, f: BindingFilter)
    ensures MatchCount(v, imsi, f) == |v.forest.services| - |Unbind(v, imsi, f).forest.services|
  {
    if FindUe(v.ues.rows, imsi).Some? {
      UnboundSize(v.forest.services, v.catalog.rows, FindUe(v.ues.rows, imsi).value, f);
    }
  }

  // ---- SubscribedNSSAISave ----

  // An item that names a slice, by id or by SST, stands for that slice without DNNs; any other is skipped.
  lemma AsSlicesOne(it: SubscribedItem)
    ensures AsSlices([it]) ==
            if it.nssaiId != 0 then [TreeSlice(it.nssaiId, it.sst.GetOr(0), it.sd, it.isDefault, [])]
            else if it.sst == None then []
            else [TreeSlice(0, it.sst.value, it.sd, it.isDefault, [])]
  {
    assert [it][1..] == [];
  }

  lemma AsSlicesHead(items: seq<SubscribedItem>)
    requires items != []
    ensures AsSlices(items) == AsSlices([items[0]]) + AsSlices(items[1..])
  {
    assert [items[0]][1..] == [];
  }

  lemma {:induction false} AsSlicesAppend(a: seq<SubscribedItem>, b: seq<SubscribedItem>)
    ensures AsSlices(a + b) == AsSlices(a) + AsSlices(b)
    decreases |a|
  {
    if a == [] {
      assert a + b == b;
    } else {
      var ab := a + b;
      assert ab[0] == a[0] && ab[1..] == a[1..] + b;
      AsSlicesHead(a);
      AsSlicesHead(ab);
      AsSlicesAppend(a[1..], b);
    }
  }

  // ---- SliceDNNSave ----

  // The authorisations a request lists, on the slices its names stand for.
  function ListedDnns(ue: int, pick: map<SliceName, int>, items: seq<SliceDnnItem>): seq<(DnnKey, bool)> {
    if items == [] then [] else
      var it := items[0];
      (if ItemName(it) in pick then [(DnnKey(SliceKey(ue, pick[ItemName(it)]), it.dnn), it.isDefault)] else [])
      + ListedDnns(ue, pick, items[1..])
  }

  lemma {:induction false} PutItemsListed(f: Forest, ue: int, pick: map<SliceName, int>, items: seq<SliceDnnItem>)
    ensures PutItems(f, ue, pick, items) == f.(dnns := PutAll(f.dnns, ListedDnns(ue, pick, items)))
    decreases |items|
  {
    if items == [] {
    } else {
      var it := items[0];
      if ItemName(it) in pick {
        var k := DnnKey(SliceKey(ue, pick[ItemName(it)]), it.dnn);
        PutItemsListed(PutDnnKey(f, k, it.isDefault), ue, pick, items[1..]);
        assert ListedDnns(ue, pick, items)[1..] == ListedDnns(ue, pick, items[1..]);
      } else {
        PutItemsListed(f, ue, pick, items[1..]);
        assert ListedDnns(ue, pick, items) == ListedDnns(ue, pick, items[1..]);
      }
    }
  }

  lemma {:induction false} ListedOnPicked(ue: int, pick: map<SliceName, int>, items: seq<SliceDnnItem>)
    ensures forall x :: x in ListedDnns(ue, pick, items) ==> x.0.slice in PickedKeys(ue, pick)
    decreases |items|
  {
    if items == [] {
    } else {
      ListedOnPicked(ue, pick, items[1..]);
    }
  }

  // On a slice its name stands for, the UE has exactly the listed DNNs, the first flag winning, and no
  // bindings; every other path, of this UE and of others, is as it was.
  lemma SaveDnnsReplaces(v: View, ue: int, pick: map<SliceName, int>, items: seq<SliceDnnItem>, v': View)
    requires SaveDnns(v, ue, pick, items) == Ok(v')
    ensures v' == v.(forest := v'.forest) && v'.forest.slices == v.forest.slices
    ensures forall k: DnnKey :: Flag(v'.forest.dnns, k) ==
              if k.slice in PickedKeys(ue, pick) then FirstFlag(ListedDnns(ue, pick, items), k) else Flag(v.forest.dnns, k)
    ensures forall k: ServiceKey :: Flag(v'.forest.services, k) ==
              if k.dnn.slice in PickedKeys(ue, pick) then None else Flag(v.forest.services, k)
  {
    var f := DropDnns(v.forest, PickedKeys(ue, pick));
    PutItemsListed(f, ue, pick, items);
    ListedOnPicked(ue, pick, items);
    var l := ListedDnns(ue, pick, items);
    forall k: DnnKey
      ensures Flag(v'.forest.dnns, k) ==
              if k.slice in PickedKeys(ue, pick) then FirstFlag(l, k) else Flag(v.forest.dnns, k)
    {
      PutAllFlag(f.dnns, l, k);
      FirstFlagMeans(l, k);
    }
  }

  predicate Subscribed(v: View, ue: int, k: SliceKey) {
    k in v.forest.slices && k.ue == ue
  }

  predicate SameName(catalog: map<int, Slice>, a: SliceKey, b: SliceKey) {
    a.nssai in catalog && b.nssai in catalog && NameOf(catalog[a.nssai]) == NameOf(catalog[b.nssai])
  }

  // The slice an item names, column by column: SST and SD, case apart and without blanks around it.
  predicate ItemNames(row: Slice, it: SliceDnnItem) {
    row.sst == it.sst && (match row.sd case None => Upper(Trim(it.sd)) == "" case Some(sd) => Upper(sd) == Upper(Trim(it.sd)))
  }

  lemma {:induction false} ListedMeans(ue: int, pick: map<SliceName, int>, items: seq<SliceDnnItem>, k: DnnKey, flag: bool)
    ensures (k, flag) in ListedDnns(ue, pick, items) <==>
            exists i :: 0 <= i < |items| && ItemName(items[i]) in pick && items[i].isDefault == flag
                        && k == DnnKey(SliceKey(ue, pick[ItemName(items[i])]), items[i].dnn)
    decreases |items|
  {
    if items == [] {
    } else {
      ListedMeans(ue, pick, items[1..], k, flag);
      assert items == [items[0]] + items[1..];
      if i :| 0 <= i < |items[1..]| && ItemName(items[1..][i]) in pick && items[1..][i].isDefault == flag
              && k == DnnKey(SliceKey(ue, pick[ItemName(items[1..][i])]), items[1..][i].dnn) {
        assert items[i + 1] == items[1..][i];
      }
    }
  }

  // What the columns show of an accepted save. Every item that names a subscribed slice has its DNN on one; a
  // DNN of the UE is either of an item that names its slice, or it was there and its slice is one of two of a name.
  lemma SaveDnnsColumns(v: View, ue: int, pick: map<SliceName, int>, items: seq<SliceDnnItem>, v': View)
    requires ViewOk(v) && PicksSlices(v, ue, pick) && SaveDnns(v, ue, pick, items) == Ok(v')
    ensures forall i, s :: 0 <= i < |items| && Subscribed(v, ue, s) && ItemNames(v.catalog.rows[s.nssai], items[i]) ==>
              HoldsItem(v, v', ue, items[i])
    ensures forall k: DnnKey :: k in v'.forest.dnns && k.Ue() == ue ==>
              || (k.slice in v.forest.slices
                  && exists i :: 0 <= i < |items| && items[i].dnn == k.dnn && ItemNames(v.catalog.rows[k.slice.nssai], items[i])
                                 && items[i].isDefault == v'.forest.dnns[k])
              || (k in v.forest.dnns && v.forest.dnns[k] == v'.forest.dnns[k]
                  && exists s :: Subscribed(v, ue, s) && s != k.slice && SameName(v.catalog.rows, s, k.slice))
  {
    SaveDnnsReplaces(v, ue, pick, items, v');
    var l := ListedDnns(ue, pick, items);
    forall i, s | 0 <= i < |items| && Subscribed(v, ue, s) && ItemNames(v.catalog.rows[s.nssai], items[i])
      ensures HoldsItem(v, v', ue, items[i])
    {
      ItemHeld(v, ue, pick, items, v', i, s);
    }
    forall k: DnnKey | k in v'.forest.dnns && k.Ue() == ue
      ensures || (k.slice in v.forest.slices
                  && exists i :: 0 <= i < |items| && items[i].dnn == k.dnn && ItemNames(v.catalog.rows[k.slice.nssai], items[i])
                                 && items[i].isDefault == v'.forest.dnns[k])
              || (k in v.forest.dnns && v.forest.dnns[k] == v'.forest.dnns[k]
                  && exists s :: Subscribed(v, ue, s) && s != k.slice && SameName(v.catalog.rows, s, k.slice))
    {
      if k.slice in PickedKeys(ue, pick) {
        DnnOfItem(v, ue, pick, items, v', k);
      } else {
        assert Flag(v'.forest.dnns, k) == Flag(v.forest.dnns, k);
        assert k.slice in v.forest.slices;
        var n := NameOf(v.catalog.rows[k.slice.nssai]);
        assert Subscribed(v, ue, SliceKey(ue, pick[n])) && SameName(v.catalog.rows, SliceKey(ue, pick[n]), k.slice);
      }
    }
  }

  // The UE has the item's DNN on a subscribed slice the item names.
  ghost predicate HoldsItem(v: View, v': View, ue: int, it: SliceDnnItem) {
    exists k :: k in v'.forest.dnns && k.Ue() == ue && k.dnn == it.dnn && k.slice in v.forest.slices
                && k.slice.nssai in v.catalog.rows && ItemNames(v.catalog.rows[k.slice.nssai], it)
  }

  lemma NameMeans(row: Slice, it: SliceDnnItem)
    ensures NameOf(row) == ItemName(it) <==> ItemNames(row, it)
  {
    assert Upper("") == "";
  }

  lemma ItemHeld(v: View, ue: int, pick: map<SliceName, int>, items: seq<SliceDnnItem>, v': View, i: nat, s: SliceKey)
    requires ViewOk(v) && PicksSlices(v, ue, pick) && SaveDnns(v, ue, pick, items) == Ok(v')
    requires i < |items| && Subscribed(v, ue, s) && ItemNames(v.catalog.rows[s.nssai], items[i])
    ensures HoldsItem(v, v', ue, items[i])
  {
    SaveDnnsReplaces(v, ue, pick, items, v');
    NameMeans(v.catalog.rows[s.nssai], items[i]);
    var n := ItemName(items[i]);
    assert n in pick;
    var k := DnnKey(SliceKey(ue, pick[n]), items[i].dnn);
    NameMeans(v.catalog.rows[pick[n]], items[i]);
    ListedMeans(ue, pick, items, k, items[i].isDefault);
    FirstFlagMeans(ListedDnns(ue, pick, items), k);
    assert Flag(v'.forest.dnns, k).Some?;
  }

  lemma DnnOfItem(v: View, ue: int, pick: map<SliceName, int>, items: seq<SliceDnnItem>, v': View, k: DnnKey)
    requires ViewOk(v) && PicksSlices(v, ue, pick) && SaveDnns(v, ue, pick, items) == Ok(v')
    requires k in v'.forest.dnns && k.Ue() == ue && k.slice in PickedKeys(ue, pick)
    ensures k.slice in v.forest.slices && k.slice.nssai in v.catalog.rows
    ensures exists i :: 0 <= i < |items| && items[i].dnn == k.dnn && ItemNames(v.catalog.rows[k.slice.nssai], items[i])
                        && items[i].isDefault == v'.forest.dnns[k]
  {
    SaveDnnsReplaces(v, ue, pick, items, v');
    var l := ListedDnns(ue, pick, items);
    assert FirstFlag(l, k) == Some(v'.forest.dnns[k]);
    FirstFlagListed(l, k);
    ListedMeans(ue, pick, items, k, v'.forest.dnns[k]);
    var i :| 0 <= i < |items| && ItemName(items[i]) in pick && items[i].isDefault == v'.forest.dnns[k]
             && k == DnnKey(SliceKey(ue, pick[ItemName(items[i])]), items[i].dnn);
    NameMeans(v.catalog.rows[k.slice.nssai], items[i]);
  }

  lemma {:induction false} FirstFlagListed<K>(items: seq<(K, bool)>, k: K)
    requires FirstFlag(items, k).Some?
    ensures (k, FirstFlag(items, k).value) in items
    decreases |items|
  {
    if items[0].0 == k {
      assert items[0] in items;
    } else {
      FirstFlagListed(items[1..], k);
    }
  }

  // The UE's DNNs are exactly the listed ones.
  ghost predicate AllReplaced(v': View, ue: int, pick: map<SliceName, int>, items: seq<SliceDnnItem>) {
    forall k: DnnKey :: k.Ue() == ue ==> Flag(v'.forest.dnns, k) == FirstFlag(ListedDnns(ue, pick, items), k)
  }

  // With a given lookup table, the save replaces all of the UE's DNNs exactly when it has none on a slice that
  // lost its name to another.
  lemma ReplacesAllWith(v: View, ue: int, pick: map<SliceName, int>, items: seq<SliceDnnItem>, v': View)
    requires SaveDnns(v, ue, pick, items) == Ok(v')
    ensures AllReplaced(v', ue, pick, items) <==>
            forall k :: k in v.forest.dnns && k.Ue() == ue ==> k.slice in PickedKeys(ue, pick)
  {
    SaveDnnsReplaces(v, ue, pick, items, v');
    ListedOnPicked(ue, pick, items);
    var l := ListedDnns(ue, pick, items);
    if AllReplaced(v', ue, pick, items) {
      forall k | k in v.forest.dnns && k.Ue() == ue
        ensures k.slice in PickedKeys(ue, pick)
      {
        FirstFlagMeans(l, k);
        assert Flag(v'.forest.dnns, k) == FirstFlag(l, k);
      }
    } else {
      var k: DnnKey :| k.Ue() == ue && Flag(v'.forest.dnns, k) != FirstFlag(l, k);
      FirstFlagMeans(l, k);
      assert k in v.forest.dnns && k.slice !in PickedKeys(ue, pick);
    }
  }

  // No slice loses its name when the UE's subscribed slices have distinct names.
  lemma DistinctNamesArePicked(v: View, ue: int, pick: map<SliceName, int>)
    requires ViewOk(v) && PicksSlices(v, ue, pick)
    requires forall a, b :: Subscribed(v, ue, a) && Subscribed(v, ue, b) && SameName(v.catalog.rows, a, b) ==> a == b
    ensures forall k :: k in v.forest.slices && k.ue == ue ==> k in PickedKeys(ue, pick)
    ensures forall k :: k in v.forest.dnns && k.Ue() == ue ==> k.slice in PickedKeys(ue, pick)
  {
    forall k | k in v.forest.slices && k.ue == ue
      ensures k in PickedKeys(ue, pick)
    {
      var n := NameOf(v.catalog.rows[k.nssai]);
      assert n in pick;
      assert Subscribed(v, ue, SliceKey(ue, pick[n])) && SameName(v.catalog.rows, SliceKey(ue, pick[n]), k);
    }
  }

  // No subscribed slice of the UE shares the name of one that has a DNN.
  ghost predicate NamesOwned(v: View, ue: int) {
    forall k, b :: k in v.forest.dnns && k.Ue() == ue && Subscribed(v, ue, b) && SameName(v.catalog.rows, b, k.slice)
      ==> b == k.slice
  }

  ghost predicate DnnsPicked(v: View, ue: int, pick: map<SliceName, int>) {
    forall k :: k in v.forest.dnns && k.Ue() == ue ==> k.slice in PickedKeys(ue, pick)
  }

  function NamesSubscribed(v: View, ue: int): set<SliceName> {
    set k | k in v.forest.slices && k.ue == ue && k.nssai in v.catalog.rows :: NameOf(v.catalog.rows[k.nssai])
  }

  // Every name can be looked up.
  lemma SomePick(v: View, ue: int) returns (pick: map<SliceName, int>)
    ensures PicksSlices(v, ue, pick)
  {
    pick := map n | n in NamesSubscribed(v, ue) ::
      var k :| k in v.forest.slices && k.ue == ue && k.nssai in v.catalog.rows && NameOf(v.catalog.rows[k.nssai]) == n;
      k.nssai;
  }

  lemma OwnedNamesArePicked(v: View, ue: int, pick: map<SliceName, int>)
    requires ViewOk(v) && PicksSlices(v, ue, pick) && NamesOwned(v, ue)
    ensures DnnsPicked(v, ue, pick)
  {
    forall k | k in v.forest.dnns && k.Ue() == ue
      ensures k.slice in PickedKeys(ue, pick)
    {
      var n := NameOf(v.catalog.rows[k.slice.nssai]);
      assert k.slice in v.forest.slices && n in pick;
      assert Subscribed(v, ue, SliceKey(ue, pick[n])) && SameName(v.catalog.rows, SliceKey(ue, pick[n]), k.slice);
    }
  }

  // A slice b of the same name can be the one looked up.
  lemma SharedNameMissed(v: View, ue: int, k: DnnKey, b: SliceKey) returns (pick: map<SliceName, int>)
    requires k in v.forest.dnns && k.Ue() == ue
    requires Subscribed(v, ue, b) && SameName(v.catalog.rows, b, k.slice) && b != k.slice
    ensures PicksSlices(v, ue, pick) && k.slice !in PickedKeys(ue, pick)
  {
    var any := SomePick(v, ue);
    var n := NameOf(v.catalog.rows[b.nssai]);
    pick := any[n := b.nssai];
    assert SliceKey(ue, b.nssai) == b;
    forall m | m in pick ensures SliceKey(ue, pick[m]) != k.slice {
      if m != n { assert pick[m] == any[m]; }
    }
  }

  // Whatever slice each name is looked up as, every DNN of the UE lies on a slice that is looked up: exactly
  // when no slice of the UE shares the name of one that has a DNN.
  lemma AllPickedIff(v: View, ue: int)
    requires ViewOk(v)
    ensures (forall pick :: PicksSlices(v, ue, pick) ==> DnnsPicked(v, ue, pick)) <==> NamesOwned(v, ue)
  {
    if NamesOwned(v, ue) {
      forall pick | PicksSlices(v, ue, pick) ensures DnnsPicked(v, ue, pick) {
        OwnedNamesArePicked(v, ue, pick);
      }
    } else {
      var k, b :| k in v.forest.dnns && k.Ue() == ue && Subscribed(v, ue, b) && SameName(v.catalog.rows, b, k.slice)
        && b != k.slice;
      var pick := SharedNameMissed(v, ue, k, b);
      assert !DnnsPicked(v, ue, pick);
    }
  }

  // The items on subscribed slices name configured DNNs.
  ghost predicate ItemsFit(v: View, ue: int, items: seq<SliceDnnItem>) {
    forall i :: 0 <= i < |items| && ItemName(items[i]) in NamesSubscribed(v, ue) ==> items[i].dnn in v.apns
  }

  // Whether the save is accepted does not depend on the lookup.
  lemma SaveDnnsSucceeds(v: View, ue: int, pick: map<SliceName, int>, items: seq<SliceDnnItem>)
    requires PicksSlices(v, ue, pick)
    ensures SaveDnns(v, ue, pick, items).Ok? <==> ItemsFit(v, ue, items)
  {
    forall n ensures n in pick <==> n in NamesSubscribed(v, ue) {
      if n in pick { assert SliceKey(ue, pick[n]) in v.forest.slices; }
    }
  }

  ghost predicate SavesAll(v: View, ue: int, pick: map<SliceName, int>, items: seq<SliceDnnItem>) {
    SaveDnns(v, ue, pick, items).Ok? && AllReplaced(SaveDnns(v, ue, pick, items).value, ue, pick, items)
  }

  // An accepted save is sure to replace all of the UE's DNNs exactly when no subscribed slice of the UE shares
  // the name of one that has a DNN.
  lemma ReplacesAllIff(v: View, ue: int, items: seq<SliceDnnItem>)
    requires ViewOk(v) && ItemsFit(v, ue, items)
    ensures (forall pick :: PicksSlices(v, ue, pick) ==> SavesAll(v, ue, pick, items)) <==> NamesOwned(v, ue)
  {
    forall pick | PicksSlices(v, ue, pick)
      ensures SavesAll(v, ue, pick, items) <==> DnnsPicked(v, ue, pick)
    {
      SaveDnnsSucceeds(v, ue, pick, items);
      ReplacesAllWith(v, ue, pick, items, SaveDnns(v, ue, pick, items).value);
    }
    AllPickedIff(v, ue);
  }

  // Two subscribed slices of one name: the DNN on the one that is not looked up stays, though no DNN is listed.
  lemma SameNameKeepsDnn(pick: map<SliceName, int>)
    requires PicksSlices(TwoOfAName(), 1, pick)
    ensures SaveDnns(TwoOfAName(), 1, pick, []).Ok?
    ensures !AllReplaced(SaveDnns(TwoOfAName(), 1, pick, []).value, 1, pick, [])
  {
    var v, n := TwoOfAName(), SliceName(1, "ABCDEF");
    assert Upper("abcdef") == "ABCDEF";
    assert SliceKey(1, 1) in v.forest.slices && SliceKey(1, 2) in v.forest.slices;
    assert n in pick;
    ReplacesAllWith(v, 1, pick, [], SaveDnns(v, 1, pick, []).value);
    var other := SliceKey(1, 3 - pick[n]);
    assert DnnKey(other, "ims") in v.forest.dnns;
    forall m | m in pick ensures SliceKey(1, pick[m]) != other { assert m == n; }
  }

  function TwoOfAName(): View {
    View({"ims"}, map[], Table(map[1 := Slice(1, Some("abcdef")), 2 := Slice(1, Some("ABCDEF"))], 3),
         Table(map[1 := UeRow("001010000000001", None, true, 0, 0)], 2), map[],
         Forest(map[SliceKey(1, 1) := true, SliceKey(1, 2) := true],
                map[DnnKey(SliceKey(1, 1), "ims") := true, DnnKey(SliceKey(1, 2), "ims") := true], map[]))
  }
}
