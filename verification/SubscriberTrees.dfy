// A UE's subscription tree, and what saving and listing a tree mean in terms of it: a saved list is
// resolved to catalog ids and merged, the first flag of a path winning, with empty names dropped.
module SubscriberTrees {
  import opened Wrappers
  import opened SubscriberTables
  import opened SubscriberSpec
  import opened Ordering

  function Flag<K>(m: map<K, bool>, k: K): Option<bool> {
    if k in m then Some(m[k]) else None
  }

  // ---- The first occurrence of a path in a list ----

  function FirstFlag<K(==)>(items: seq<(K, bool)>, k: K): Option<bool> {
    if items == [] then None
    else if items[0].0 == k then Some(items[0].1)
    else FirstFlag(items[1..], k)
  }

  // FirstFlag is the flag of the least index at which the path occurs.
  lemma {:induction false} FirstFlagMeans<K>(items: seq<(K, bool)>, k: K)
    ensures FirstFlag(items, k).None? <==> forall i :: 0 <= i < |items| ==> items[i].0 != k
    ensures forall i :: 0 <= i < |items| && items[i].0 == k && (forall j :: 0 <= j < i ==> items[j].0 != k) ==>
              FirstFlag(items, k) == Some(items[i].1)
  {
    if items != [] && items[0].0 != k {
      FirstFlagMeans(items[1..], k);
      forall i | 0 <= i < |items| && items[i].0 == k && forall j :: 0 <= j < i ==> items[j].0 != k
        ensures FirstFlag(items, k) == Some(items[i].1)
      {
        assert items[1..][i - 1] == items[i];
        assert forall j :: 0 <= j < i - 1 ==> items[1..][j] == items[j + 1];
      }
      if FirstFlag(items, k).None? {
        forall i | 0 <= i < |items|
          ensures items[i].0 != k
        {
          if i > 0 { assert items[1..][i - 1] == items[i]; }
        }
      }
    }
  }

  lemma {:induction false} FirstFlagAppend<K>(a: seq<(K, bool)>, b: seq<(K, bool)>, k: K)
    ensures FirstFlag(a + b, k) == if FirstFlag(a, k).Some? then FirstFlag(a, k) else FirstFlag(b, k)
  {
    if a == [] {
      assert a + b == b;
    } else {
      assert (a + b)[1..] == a[1..] + b;
      FirstFlagAppend(a[1..], b, k);
    }
  }

  // A map and a list agree on a path when the list's entries are entries of the map and the path is listed
  // if it is in the map.
  lemma {:induction false} FirstFlagAgrees<K>(items: seq<(K, bool)>, m: map<K, bool>, k: K)
    requires forall i :: 0 <= i < |items| ==> Flag(m, items[i].0) == Some(items[i].1)
    requires k in m ==> exists i :: 0 <= i < |items| && items[i].0 == k
    ensures FirstFlag(items, k) == Flag(m, k)
  {
    if items != [] && items[0].0 != k {
      if k in m {
        var i :| 0 <= i < |items| && items[i].0 == k;
        assert items[1..][i - 1] == items[i];
      }
      FirstFlagAgrees(items[1..], m, k);
    }
  }

  // ---- The paths of a list, in order; with `all` also those with an empty name ----

  function ServiceItems(d: DnnKey, services: seq<TreeService>, all: bool): seq<(ServiceKey, bool)> {
    if services == [] then [] else
      var sv := services[0];
      (if all || sv.serviceName != "" then [(ServiceKey(d, sv.serviceName), sv.isDefault)] else [])
      + ServiceItems(d, services[1..], all)
  }

  function DnnItems(s: SliceKey, dnns: seq<TreeDnn>, all: bool): seq<(DnnKey, bool)> {
    if dnns == [] then [] else
      var dn := dnns[0];
      (if all || dn.dnn != "" then [(DnnKey(s, dn.dnn), dn.isDefault)] else []) + DnnItems(s, dnns[1..], all)
  }

  function DnnServiceItems(s: SliceKey, dnns: seq<TreeDnn>, all: bool): seq<(ServiceKey, bool)> {
    if dnns == [] then [] else
      var dn := dnns[0];
      (if all || dn.dnn != "" then ServiceItems(DnnKey(s, dn.dnn), dn.services, all) else [])
      + DnnServiceItems(s, dnns[1..], all)
  }

  // The paths of a tree whose slices have the catalog ids `ids`.
  datatype Items = Items(slices: seq<(SliceKey, bool)>, dnns: seq<(DnnKey, bool)>, services: seq<(ServiceKey, bool)>)

  function TreeItems(ue: int, ids: seq<int>, slices: seq<TreeSlice>, all: bool): Items
    requires |ids| == |slices|
  {
    if slices == [] then Items([], [], []) else
      var s, sl := SliceKey(ue, ids[0]), slices[0];
      var rest := TreeItems(ue, ids[1..], slices[1..], all);
      Items([(s, sl.isDefault)] + rest.slices,
            DnnItems(s, sl.dnns, all) + rest.dnns,
            DnnServiceItems(s, sl.dnns, all) + rest.services)
  }

  // The forest holds, for one UE, exactly the listed paths, each with the flag of its first occurrence.
  ghost predicate HoldsTree(f: Forest, ue: int, items: Items) {
    && (forall k: SliceKey :: k.ue == ue ==> Flag(f.slices, k) == FirstFlag(items.slices, k))
    && (forall k: DnnKey :: k.Ue() == ue ==> Flag(f.dnns, k) == FirstFlag(items.dnns, k))
    && (forall k: ServiceKey :: k.Ue() == ue ==> Flag(f.services, k) == FirstFlag(items.services, k))
  }

  // Two forests agree on every UE but one.
  ghost predicate SameOthers(f: Forest, g: Forest, ue: int) {
    && (forall k: SliceKey :: k.ue != ue ==> Flag(f.slices, k) == Flag(g.slices, k))
    && (forall k: DnnKey :: k.Ue() != ue ==> Flag(f.dnns, k) == Flag(g.dnns, k))
    && (forall k: ServiceKey :: k.Ue() != ue ==> Flag(f.services, k) == Flag(g.services, k))
  }

  // ---- Saving puts the listed paths ----

  function PutAll<K>(m: map<K, bool>, items: seq<(K, bool)>): map<K, bool>
    decreases |items|
  {
    if items == [] then m else PutAll(PutNew(m, items[0].0, items[0].1), items[1..])
  }

  lemma {:induction false} PutAllFlag<K>(m: map<K, bool>, items: seq<(K, bool)>, k: K)
    ensures Flag(PutAll(m, items), k) == if k in m then Flag(m, k) else FirstFlag(items, k)
    decreases |items|
  {
    if items == [] {
    } else {
      PutAllFlag(PutNew(m, items[0].0, items[0].1), items[1..], k);
    }
  }

  lemma {:induction false} PutAllAppend<K>(m: map<K, bool>, a: seq<(K, bool)>, b: seq<(K, bool)>)
    ensures PutAll(m, a + b) == PutAll(PutAll(m, a), b)
    decreases |a|
  {
    if a == [] {
      assert a + b == b;
    } else {
      assert (a + b)[1..] == a[1..] + b;
      PutAllAppend(PutNew(m, a[0].0, a[0].1), a[1..], b);
    }
  }

  lemma {:induction false} PutServicesItems(f: Forest, d: DnnKey, services: seq<TreeService>)
    ensures PutServices(f, d, services) == f.(services := PutAll(f.services, ServiceItems(d, services, false)))
    decreases |services|
  {
    if services == [] {
    } else {
      var sv := services[0];
      var f' := if sv.serviceName == "" then f else PutServiceKey(f, ServiceKey(d, sv.serviceName), sv.isDefault);
      PutServicesItems(f', d, services[1..]);
      if sv.serviceName != "" {
        var first := [(ServiceKey(d, sv.serviceName), sv.isDefault)];
        assert ServiceItems(d, services, false)[1..] == ServiceItems(d, services[1..], false);
      } else {
        assert ServiceItems(d, services, false) == ServiceItems(d, services[1..], false);
      }
    }
  }

  lemma {:induction false} PutDnnsItems(f: Forest, s: SliceKey, dnns: seq<TreeDnn>)
    ensures PutDnns(f, s, dnns) ==
      Forest(f.slices, PutAll(f.dnns, DnnItems(s, dnns, false)), PutAll(f.services, DnnServiceItems(s, dnns, false)))
    decreases |dnns|
  {
    if dnns == [] {
    } else {
      var dn := dnns[0];
      PutDnnsItems(PutDnn(f, s, dn), s, dnns[1..]);
      if dn.dnn != "" {
        var k := DnnKey(s, dn.dnn);
        PutServicesItems(PutDnnKey(f, k, dn.isDefault), k, dn.services);
        assert DnnItems(s, dnns, false)[1..] == DnnItems(s, dnns[1..], false);
        PutAllAppend(f.services, ServiceItems(k, dn.services, false), DnnServiceItems(s, dnns[1..], false));
      } else {
        assert DnnItems(s, dnns, false) == DnnItems(s, dnns[1..], false);
        assert DnnServiceItems(s, dnns, false) == DnnServiceItems(s, dnns[1..], false);
      }
    }
  }

  // The catalog after resolving every slice in turn, and their ids.
  ghost function ResolveAll(cat: Table<Slice>, slices: seq<TreeSlice>): (r: Option<(Table<Slice>, seq<int>)>)
    ensures r.Some? ==> |r.value.1| == |slices|
    decreases |slices|
  {
    if slices == [] then Some((cat, [])) else
      match Resolve(cat, slices[0])
      case None => None
      case Some((c, id)) =>
        match ResolveAll(c, slices[1..])
        case None => None
        case Some((c', ids)) => Some((c', [id] + ids))
  }

  function PutSlices(f: Forest, ue: int, ids: seq<int>, slices: seq<TreeSlice>): Forest
    requires |ids| == |slices|
    decreases |slices|
  {
    if slices == [] then f else PutSlices(PutSlice(f, SliceKey(ue, ids[0]), slices[0]), ue, ids[1..], slices[1..])
  }

  predicate AllKnown(n: Names, slices: seq<TreeSlice>) {
    forall i :: 0 <= i < |slices| ==> NamesKnown(n, slices[i].dnns)
  }

  // Saving is resolving the slices, checking the names, and putting the paths: it fails exactly when a
  // slice id or a name is unknown.
  lemma {:induction false} PutTreeMeans(v: View, ue: int, slices: seq<TreeSlice>)
    ensures PutTree(v, ue, slices).Some? <==> ResolveAll(v.catalog, slices).Some? && AllKnown(NamesOf(v), slices)
    ensures PutTree(v, ue, slices).Some? ==>
              var (cat, ids) := ResolveAll(v.catalog, slices).value;
              PutTree(v, ue, slices).value == v.(catalog := cat, forest := PutSlices(v.forest, ue, ids, slices))
    decreases |slices|
  {
    if slices == [] {
    } else {
      if StoreSlice(v, ue, slices[0]).Some? {
        var v' := StoreSlice(v, ue, slices[0]).value;
        PutTreeMeans(v', ue, slices[1..]);
        if AllKnown(NamesOf(v), slices[1..]) {
          forall i | 0 <= i < |slices|
            ensures NamesKnown(NamesOf(v), slices[i].dnns)
          {
            if i > 0 { assert slices[1..][i - 1] == slices[i]; }
          }
        }
      }
    }
  }

  // Every DNN and service named in the list is configured; empty names are passed over.
  ghost predicate Configured(apns: set<string>, services: set<string>, slices: seq<TreeSlice>) {
    forall sl, dn :: sl in slices && dn in sl.dnns && dn.dnn != "" ==>
                       dn.dnn in apns && forall sv :: sv in dn.services && sv.serviceName != "" ==> sv.serviceName in services
  }

  lemma KnownMeans(n: Names, slices: seq<TreeSlice>)
    ensures AllKnown(n, slices) <==> Configured(n.apns, n.services, slices)
  {
    if Configured(n.apns, n.services, slices) {
      forall i | 0 <= i < |slices|
        ensures NamesKnown(n, slices[i].dnns)
      {
        forall j | 0 <= j < |slices[i].dnns|
          ensures NameKnown(n, slices[i].dnns[j])
        {
          assert slices[i] in slices && slices[i].dnns[j] in slices[i].dnns;
        }
      }
    }
    if AllKnown(n, slices) {
      forall sl, dn | sl in slices && dn in sl.dnns && dn.dnn != ""
        ensures dn.dnn in n.apns && forall sv :: sv in dn.services && sv.serviceName != "" ==> sv.serviceName in n.services
      {
        assert NamesKnown(n, sl.dnns) && NameKnown(n, dn);
      }
    }
  }

  lemma {:induction false} StoredIdsResolve(cat: Table<Slice>, slices: seq<TreeSlice>)
    requires forall sl :: sl in slices && sl.nssaiId != 0 ==> sl.nssaiId in cat.rows
    ensures ResolveAll(cat, slices).Some?
    decreases |slices|
  {
    if slices == [] {
    } else {
      StoredIdsResolve(Resolve(cat, slices[0]).value.0, slices[1..]);
    }
  }

  // How a save is answered: refused without a UE of the IMSI or with a name that is not configured, accepted
  // otherwise when every id it lists is stored.
  lemma SaveAnswers(v: View, imsi: string, slices: seq<TreeSlice>)
    ensures SaveTree(v, imsi, slices) == Err(NotFound) <==> forall u :: u in v.ues.rows ==> v.ues.rows[u].imsi != imsi
    ensures SaveTree(v, imsi, slices).Ok? ==> Configured(v.apns, v.services.Keys, slices)
    ensures (forall sl :: sl in slices && sl.nssaiId != 0 ==> sl.nssaiId in v.catalog.rows)
            && Configured(v.apns, v.services.Keys, slices) && (exists u :: u in v.ues.rows && v.ues.rows[u].imsi == imsi) ==>
              SaveTree(v, imsi, slices).Ok?
  {
    KnownMeans(NamesOf(v), slices);
    if FindUe(v.ues.rows, imsi).Some? {
      var ue := FindUe(v.ues.rows, imsi).value;
      PutTreeMeans(v.(forest := Without(v.forest, ue)), ue, slices);
      if forall sl :: sl in slices && sl.nssaiId != 0 ==> sl.nssaiId in v.catalog.rows { StoredIdsResolve(v.catalog, slices); }
    }
  }

  lemma {:induction false} PutSlicesItems(f: Forest, ue: int, ids: seq<int>, slices: seq<TreeSlice>)
    requires |ids| == |slices|
    ensures var items := TreeItems(ue, ids, slices, false);
      PutSlices(f, ue, ids, slices) ==
      Forest(PutAll(f.slices, items.slices), PutAll(f.dnns, items.dnns), PutAll(f.services, items.services))
    decreases |slices|
  {
    if slices == [] {
    } else {
      var s, sl := SliceKey(ue, ids[0]), slices[0];
      var f' := PutSlice(f, s, sl);
      PutSlicesItems(f', ue, ids[1..], slices[1..]);
      PutDnnsItems(PutSliceKey(f, s, sl.isDefault), s, sl.dnns);
      var rest := TreeItems(ue, ids[1..], slices[1..], false);
      assert ([(s, sl.isDefault)] + rest.slices)[1..] == rest.slices;
      PutAllAppend(f.dnns, DnnItems(s, sl.dnns, false), rest.dnns);
      PutAllAppend(f.services, DnnServiceItems(s, sl.dnns, false), rest.services);
    }
  }

  // A list names only paths of its UE.
  lemma {:induction false} ItemsOfUe(ue: int, ids: seq<int>, slices: seq<TreeSlice>, all: bool)
    requires |ids| == |slices|
    ensures var t := TreeItems(ue, ids, slices, all);
      && (forall x :: x in t.slices ==> x.0.ue == ue)
      && (forall x :: x in t.dnns ==> x.0.Ue() == ue)
      && (forall x :: x in t.services ==> x.0.Ue() == ue)
    decreases |slices|
  {
    if slices == [] {
    } else {
      ItemsOfUe(ue, ids[1..], slices[1..], all);
      ItemsOfSlice(SliceKey(ue, ids[0]), slices[0].dnns, all);
    }
  }

  lemma {:induction false} ItemsOfSlice(s: SliceKey, dnns: seq<TreeDnn>, all: bool)
    ensures forall x :: x in DnnItems(s, dnns, all) ==> x.0.slice == s
    ensures forall x :: x in DnnServiceItems(s, dnns, all) ==> x.0.dnn.slice == s
    decreases |dnns|
  {
    if dnns == [] {
    } else {
      ItemsOfSlice(s, dnns[1..], all);
      ItemsOfDnn(DnnKey(s, dnns[0].dnn), dnns[0].services, all);
    }
  }

  lemma {:induction false} ItemsOfDnn(d: DnnKey, services: seq<TreeService>, all: bool)
    ensures forall x :: x in ServiceItems(d, services, all) ==> x.0.dnn == d
    decreases |services|
  {
    if services == [] {
    } else {
      ItemsOfDnn(d, services[1..], all);
    }
  }

  // After a save the UE's tree is the listed one, resolved and merged with the first flag winning and empty
  // names dropped; every other UE's tree is unchanged.
  lemma SavedTree(v: View, imsi: string, slices: seq<TreeSlice>, v': View) returns (ue: int, ids: seq<int>)
    requires SaveTree(v, imsi, slices) == Ok(v')
    ensures FindUe(v.ues.rows, imsi) == Some(ue)
    ensures ResolveAll(v.catalog, slices) == Some((v'.catalog, ids))
    ensures v' == v.(catalog := v'.catalog, forest := v'.forest)
    ensures HoldsTree(v'.forest, ue, TreeItems(ue, ids, slices, false))
    ensures SameOthers(v.forest, v'.forest, ue)
  {
    ue := FindUe(v.ues.rows, imsi).value;
    var f := Without(v.forest, ue);
    PutTreeMeans(v.(forest := f), ue, slices);
    ids := ResolveAll(v.catalog, slices).value.1;
    PutSlicesItems(f, ue, ids, slices);
    var t := TreeItems(ue, ids, slices, false);
    ItemsOfUe(ue, ids, slices, false);
    forall k: SliceKey
      ensures k.ue == ue ==> Flag(v'.forest.slices, k) == FirstFlag(t.slices, k)
      ensures k.ue != ue ==> Flag(v.forest.slices, k) == Flag(v'.forest.slices, k)
    {
      PutAllFlag(f.slices, t.slices, k);
      FirstFlagMeans(t.slices, k);
    }
    forall k: DnnKey
      ensures k.Ue() == ue ==> Flag(v'.forest.dnns, k) == FirstFlag(t.dnns, k)
      ensures k.Ue() != ue ==> Flag(v.forest.dnns, k) == Flag(v'.forest.dnns, k)
    {
      PutAllFlag(f.dnns, t.dnns, k);
      FirstFlagMeans(t.dnns, k);
    }
    forall k: ServiceKey
      ensures k.Ue() == ue ==> Flag(v'.forest.services, k) == FirstFlag(t.services, k)
      ensures k.Ue() != ue ==> Flag(v.forest.services, k) == Flag(v'.forest.services, k)
    {
      PutAllFlag(f.services, t.services, k);
      FirstFlagMeans(t.services, k);
    }
  }

  // ---- Listing a tree ----

  // ORDER BY is_default DESC, name.
  predicate ListedBefore(da: bool, a: string, db: bool, b: string) {
    if da == db then TextLe(a, b) else da
  }

  // ORDER BY sst, sd, with NULL first.
  predicate SliceBefore(a: Slice, b: Slice) {
    if a.sst != b.sst then a.sst < b.sst
    else if a.sd.None? || b.sd.None? then a.sd.None?
    else TextLe(a.sd.value, b.sd.value)
  }

  ghost predicate ServicesOrdered(out: seq<TreeService>) {
    && (forall i, j :: 0 <= i < j < |out| ==> out[i].serviceName != out[j].serviceName)
    && (forall i, j :: 0 <= i < j < |out| ==>
          ListedBefore(out[i].isDefault, out[i].serviceName, out[j].isDefault, out[j].serviceName))
  }

  ghost predicate DnnsOrdered(out: seq<TreeDnn>) {
    && (forall i, j :: 0 <= i < j < |out| ==> out[i].dnn != out[j].dnn)
    && (forall i, j :: 0 <= i < j < |out| ==> ListedBefore(out[i].isDefault, out[i].dnn, out[j].isDefault, out[j].dnn))
  }

  ghost predicate SlicesOrdered(catalog: map<int, Slice>, out: seq<TreeSlice>) {
    && (forall i, j :: 0 <= i < j < |out| ==> out[i].nssaiId != out[j].nssaiId)
    && (forall i :: 0 <= i < |out| ==> out[i].nssaiId in catalog)
    && (forall i, j :: 0 <= i < j < |out| ==> SliceBefore(catalog[out[i].nssaiId], catalog[out[j].nssaiId]))
  }

  // The services of a DNN: each binding once, the default ones first and then by name.
  ghost predicate ListsServices(f: Forest, d: DnnKey, out: seq<TreeService>) {
    && (forall x :: x in out ==> Flag(f.services, ServiceKey(d, x.serviceName)) == Some(x.isDefault))
    && (forall k :: k in f.services && k.dnn == d ==> TreeService(k.service, f.services[k]) in out)
    && ServicesOrdered(out)
  }

  ghost predicate ListsDnn(f: Forest, s: SliceKey, x: TreeDnn) {
    Flag(f.dnns, DnnKey(s, x.dnn)) == Some(x.isDefault) && ListsServices(f, DnnKey(s, x.dnn), x.services)
  }

  ghost predicate ListsDnns(f: Forest, s: SliceKey, out: seq<TreeDnn>) {
    && (forall x :: x in out ==> ListsDnn(f, s, x))
    && (forall k :: k in f.dnns && k.slice == s ==> exists x :: x in out && x.dnn == k.dnn)
    && DnnsOrdered(out)
  }

  ghost predicate ListsSlice(v: View, ue: int, x: TreeSlice) {
    && Flag(v.forest.slices, SliceKey(ue, x.nssaiId)) == Some(x.isDefault)
    && x.nssaiId in v.catalog.rows
    && x.sst == v.catalog.rows[x.nssaiId].sst && x.sd == v.catalog.rows[x.nssaiId].sd.GetOr("")
    && ListsDnns(v.forest, SliceKey(ue, x.nssaiId), x.dnns)
  }

  // The tree of a UE: every slice, DNN and binding once, in the order of the queries.
  ghost predicate ListsSlices(v: View, ue: int, out: seq<TreeSlice>) {
    && (forall x :: x in out ==> ListsSlice(v, ue, x))
    && (forall k :: k in v.forest.slices && k.ue == ue ==> exists x :: x in out && x.nssaiId == k.nssai)
    && SlicesOrdered(v.catalog.rows, out)
  }

  function Ids(slices: seq<TreeSlice>): (r: seq<int>)
    ensures |r| == |slices|
    ensures forall i :: 0 <= i < |r| ==> r[i] == slices[i].nssaiId
  {
    seq(|slices|, i requires 0 <= i < |slices| => slices[i].nssaiId)
  }

  lemma {:induction false} ServiceItemsIn(d: DnnKey, services: seq<TreeService>, x: (ServiceKey, bool))
    ensures x in ServiceItems(d, services, true) <==> x.0.dnn == d && TreeService(x.0.service, x.1) in services
    decreases |services|
  {
    if services == [] {
    } else {
      ServiceItemsIn(d, services[1..], x);
      assert services == [services[0]] + services[1..];
    }
  }

  lemma {:induction false} DnnItemsIn(s: SliceKey, dnns: seq<TreeDnn>, x: (DnnKey, bool))
    ensures x in DnnItems(s, dnns, true) <==>
            x.0.slice == s && exists dn :: dn in dnns && dn.dnn == x.0.dnn && dn.isDefault == x.1
    decreases |dnns|
  {
    if dnns == [] {
    } else {
      DnnItemsIn(s, dnns[1..], x);
      assert dnns == [dnns[0]] + dnns[1..];
    }
  }

  lemma {:induction false} DnnServiceItemsIn(s: SliceKey, dnns: seq<TreeDnn>, x: (ServiceKey, bool))
    ensures x in DnnServiceItems(s, dnns, true) <==>
            x.0.dnn.slice == s
            && exists dn :: dn in dnns && dn.dnn == x.0.dnn.dnn && TreeService(x.0.service, x.1) in dn.services
    decreases |dnns|
  {
    if dnns == [] {
    } else {
      DnnServiceItemsIn(s, dnns[1..], x);
      ServiceItemsIn(DnnKey(s, dnns[0].dnn), dnns[0].services, x);
      assert dnns == [dnns[0]] + dnns[1..];
    }
  }

  ghost predicate SliceIn(slices: seq<TreeSlice>, k: SliceKey, flag: bool) {
    exists sl :: sl in slices && sl.nssaiId == k.nssai && sl.isDefault == flag
  }

  ghost predicate DnnIn(slices: seq<TreeSlice>, x: (DnnKey, bool)) {
    exists sl :: sl in slices && sl.nssaiId == x.0.slice.nssai && x in DnnItems(x.0.slice, sl.dnns, true)
  }

  ghost predicate ServiceIn(slices: seq<TreeSlice>, x: (ServiceKey, bool)) {
    exists sl :: sl in slices && sl.nssaiId == x.0.dnn.slice.nssai && x in DnnServiceItems(x.0.dnn.slice, sl.dnns, true)
  }

  // Which paths a list of slices with ids names.
  lemma {:induction false} TreeItemsIn(ue: int, slices: seq<TreeSlice>)
    ensures var t := TreeItems(ue, Ids(slices), slices, true);
      && (forall x :: x in t.slices <==> x.0.ue == ue && SliceIn(slices, x.0, x.1))
      && (forall x :: x in t.dnns <==> x.0.Ue() == ue && DnnIn(slices, x))
      && (forall x :: x in t.services <==> x.0.Ue() == ue && ServiceIn(slices, x))
    decreases |slices|
  {
    if slices == [] {
    } else {
      TreeItemsIn(ue, slices[1..]);
      assert Ids(slices)[1..] == Ids(slices[1..]);
      assert slices == [slices[0]] + slices[1..];
      ItemsOfSlice(SliceKey(ue, slices[0].nssaiId), slices[0].dnns, true);
    }
  }

  lemma ListedDnn(v: View, ue: int, out: seq<TreeSlice>, x: (DnnKey, bool))
    requires ListsSlices(v, ue, out) && x.0.Ue() == ue && DnnIn(out, x)
    ensures Flag(v.forest.dnns, x.0) == Some(x.1)
  {
    var sl :| sl in out && sl.nssaiId == x.0.slice.nssai && x in DnnItems(x.0.slice, sl.dnns, true);
    DnnItemsIn(x.0.slice, sl.dnns, x);
    assert ListsSlice(v, ue, sl);
    var dn :| dn in sl.dnns && dn.dnn == x.0.dnn && dn.isDefault == x.1;
    assert ListsDnn(v.forest, x.0.slice, dn);
  }

  lemma DnnListed(v: View, ue: int, out: seq<TreeSlice>, k: DnnKey) returns (sl: TreeSlice, dn: TreeDnn)
    requires ListsSlices(v, ue, out) && Closed(v.forest) && k in v.forest.dnns && k.Ue() == ue
    ensures sl in out && sl.nssaiId == k.slice.nssai && dn in sl.dnns && dn.dnn == k.dnn && dn.isDefault == v.forest.dnns[k]
    ensures ListsServices(v.forest, k, dn.services)
    ensures DnnIn(out, (k, v.forest.dnns[k]))
  {
    assert k.slice in v.forest.slices;
    sl :| sl in out && sl.nssaiId == k.slice.nssai;
    assert ListsSlice(v, ue, sl) && SliceKey(ue, sl.nssaiId) == k.slice;
    dn :| dn in sl.dnns && dn.dnn == k.dnn;
    assert ListsDnn(v.forest, k.slice, dn);
    DnnItemsIn(k.slice, sl.dnns, (k, v.forest.dnns[k]));
  }

  lemma ListedService(v: View, ue: int, out: seq<TreeSlice>, x: (ServiceKey, bool))
    requires ListsSlices(v, ue, out) && x.0.Ue() == ue && ServiceIn(out, x)
    ensures Flag(v.forest.services, x.0) == Some(x.1)
  {
    var sl :| sl in out && sl.nssaiId == x.0.dnn.slice.nssai && x in DnnServiceItems(x.0.dnn.slice, sl.dnns, true);
    DnnServiceItemsIn(x.0.dnn.slice, sl.dnns, x);
    assert ListsSlice(v, ue, sl);
    var dn :| dn in sl.dnns && dn.dnn == x.0.dnn.dnn && TreeService(x.0.service, x.1) in dn.services;
    assert ListsDnn(v.forest, x.0.dnn.slice, dn);
  }

  lemma ServiceListed(v: View, ue: int, out: seq<TreeSlice>, k: ServiceKey)
    requires ListsSlices(v, ue, out) && Closed(v.forest) && k in v.forest.services && k.Ue() == ue
    ensures ServiceIn(out, (k, v.forest.services[k]))
  {
    assert k.dnn in v.forest.dnns;
    var sl, dn := DnnListed(v, ue, out, k.dnn);
    DnnServiceItemsIn(k.dnn.slice, sl.dnns, (k, v.forest.services[k]));
  }

  // A listed tree is the stored one.
  lemma ListedTree(v: View, ue: int, out: seq<TreeSlice>)
    requires ListsSlices(v, ue, out) && Closed(v.forest)
    ensures HoldsTree(v.forest, ue, TreeItems(ue, Ids(out), out, true))
  {
    var t := TreeItems(ue, Ids(out), out, true);
    TreeItemsIn(ue, out);
    forall k: SliceKey | k.ue == ue
      ensures Flag(v.forest.slices, k) == FirstFlag(t.slices, k)
    {
      forall i | 0 <= i < |t.slices|
        ensures Flag(v.forest.slices, t.slices[i].0) == Some(t.slices[i].1)
      {
        assert t.slices[i] in t.slices;
        var sl :| sl in out && sl.nssaiId == t.slices[i].0.nssai && sl.isDefault == t.slices[i].1;
        assert ListsSlice(v, ue, sl) && SliceKey(ue, sl.nssaiId) == t.slices[i].0;
      }
      if k in v.forest.slices {
        var sl :| sl in out && sl.nssaiId == k.nssai;
        assert ListsSlice(v, ue, sl) && (k, v.forest.slices[k]) in t.slices;
      }
      FirstFlagAgrees(t.slices, v.forest.slices, k);
    }
    forall k: DnnKey | k.Ue() == ue
      ensures Flag(v.forest.dnns, k) == FirstFlag(t.dnns, k)
    {
      forall i | 0 <= i < |t.dnns|
        ensures Flag(v.forest.dnns, t.dnns[i].0) == Some(t.dnns[i].1)
      {
        assert t.dnns[i] in t.dnns;
        ListedDnn(v, ue, out, t.dnns[i]);
      }
      if k in v.forest.dnns {
        var sl, dn := DnnListed(v, ue, out, k);
        assert (k, v.forest.dnns[k]) in t.dnns;
      }
      FirstFlagAgrees(t.dnns, v.forest.dnns, k);
    }
    forall k: ServiceKey | k.Ue() == ue
      ensures Flag(v.forest.services, k) == FirstFlag(t.services, k)
    {
      forall i | 0 <= i < |t.services|
        ensures Flag(v.forest.services, t.services[i].0) == Some(t.services[i].1)
      {
        assert t.services[i] in t.services;
        ListedService(v, ue, out, t.services[i]);
      }
      if k in v.forest.services {
        ServiceListed(v, ue, out, k);
        assert (k, v.forest.services[k]) in t.services;
      }
      FirstFlagAgrees(t.services, v.forest.services, k);
    }
  }

  // Two lists name the same tree of one UE.
  ghost predicate SameTree(ue: int, a: Items, b: Items) {
    && (forall k: SliceKey :: k.ue == ue ==> FirstFlag(a.slices, k) == FirstFlag(b.slices, k))
    && (forall k: DnnKey :: k.Ue() == ue ==> FirstFlag(a.dnns, k) == FirstFlag(b.dnns, k))
    && (forall k: ServiceKey :: k.Ue() == ue ==> FirstFlag(a.services, k) == FirstFlag(b.services, k))
  }

  // Save, then get: what is listed is what was saved, with slices resolved to ids, repeated paths merged
  // (the first flag wins) and empty names dropped.
  lemma SaveThenGet(v: View, imsi: string, slices: seq<TreeSlice>, v': View, out: seq<TreeSlice>)
    returns (ue: int, ids: seq<int>)
    requires SaveTree(v, imsi, slices) == Ok(v') && Closed(v'.forest)
    requires FindUe(v'.ues.rows, imsi).Some? && ListsSlices(v', FindUe(v'.ues.rows, imsi).value, out)
    ensures FindUe(v.ues.rows, imsi) == Some(ue) && ResolveAll(v.catalog, slices) == Some((v'.catalog, ids))
    ensures SameTree(ue, TreeItems(ue, Ids(out), out, true), TreeItems(ue, ids, slices, false))
  {
    ue, ids := SavedTree(v, imsi, slices, v');
    ListedTree(v', ue, out);
  }
}
