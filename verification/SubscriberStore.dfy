// The subscriber store: transactions of SQL statements over the tables, each proved to compute the
// function of SubscriberSpec.dfy on the view, or to leave the tables as they were.
module SubscriberStore {
  import opened Wrappers
  import opened Text
  import opened Decimal
  import opened SubscriberTables
  import opened SubscriberSpec
  import opened SubscriberSql
  import opened SubscriberClone
  import opened SubscriberListing
  import opened SubscriberTrees

  // ---- The nested insert loops shared by a single save and a bulk save ----

  // Any statement may fail in the driver: every method below may give up at any point with Err(Driver).

  function NamesIn(w: Tables): Names {
    Names(w.apns, w.services.Keys)
  }

  method InsertService(w: Tables, usd: int, sv: TreeService) returns (r: Result<Tables>)
    requires Integrity(w) && usd in w.usds.rows
    ensures r.Err? ==> r.error == Driver || (r.error == Constraint && sv.serviceName != "" && sv.serviceName !in w.services)
    ensures r.Ok? ==> sv.serviceName == "" || sv.serviceName in w.services
    ensures r.Ok? ==> Integrity(r.value) && r.value == w.(sbs := r.value.sbs) && Within(w.sbs.rows, r.value.sbs.rows)
    ensures r.Ok? ==> ViewOf(r.value) == ViewOf(w).(forest :=
                        PutService(ForestOf(w), UsdKey(w.usns.rows, w.usds.rows, usd), sv))
  {
    if sv.serviceName == "" { return Ok(w); }
    if * { return Err(Driver); }
    var x := InsertSb(w, usd, sv.serviceName, sv.isDefault);
    r := if x.Some? then Ok(x.value) else Err(Constraint);
  }

  method InsertServices(w0: Tables, usd: int, services: seq<TreeService>) returns (r: Result<Tables>)
    requires Integrity(w0) && usd in w0.usds.rows
    ensures r.Err? ==> r.error == Driver || (r.error == Constraint && !ServicesKnown(NamesIn(w0), services))
    ensures r.Ok? ==> ServicesKnown(NamesIn(w0), services)
    ensures r.Ok? ==> Integrity(r.value) && RowsKept(w0, r.value) && r.value.usns == w0.usns && r.value.usds == w0.usds
    ensures r.Ok? ==> ViewOf(r.value) == ViewOf(w0).(forest :=
                        PutServices(ForestOf(w0), UsdKey(w0.usns.rows, w0.usds.rows, usd), services))
  {
    var w := w0;
    ghost var d := UsdKey(w0.usns.rows, w0.usds.rows, usd);
    ghost var v0, goal := ViewOf(w0), PutServices(ForestOf(w0), d, services);
    for k := 0 to |services|
      invariant Integrity(w) && w == w0.(sbs := w.sbs) && Within(w0.sbs.rows, w.sbs.rows)
      invariant ViewOf(w) == v0.(forest := ForestOf(w))
      invariant forall n :: 0 <= n < k && services[n].serviceName != "" ==> services[n].serviceName in w0.services
      invariant PutServices(ForestOf(w), d, services[k..]) == goal
    {
      assert services[k..][1..] == services[k + 1..];
      var x := InsertService(w, usd, services[k]);
      if x.Err? { return x; }
      w := x.value;
    }
    r := Ok(w);
  }

  method InsertDnn(w: Tables, usn: int, dn: TreeDnn) returns (r: Result<Tables>)
    requires Integrity(w) && usn in w.usns.rows
    ensures r.Err? ==> r.error == Driver || (r.error == Constraint && !NameKnown(NamesIn(w), dn))
    ensures r.Ok? ==> NameKnown(NamesIn(w), dn)
    ensures r.Ok? ==> Integrity(r.value) && RowsKept(w, r.value) && r.value.usns == w.usns
    ensures r.Ok? ==> ViewOf(r.value) == ViewOf(w).(forest := PutDnn(ForestOf(w), UsnKey(w.usns.rows, usn), dn))
  {
    if dn.dnn == "" { return Ok(w); }
    if * { return Err(Driver); }
    var x := InsertUsd(w, usn, dn.dnn, dn.isDefault);
    if x.None? { return Err(Constraint); }
    var usd := FindUsd(x.value, usn, dn.dnn);
    r := InsertServices(x.value, usd.value, dn.services);
  }

  method InsertDnns(w0: Tables, usn: int, dnns: seq<TreeDnn>) returns (r: Result<Tables>)
    requires Integrity(w0) && usn in w0.usns.rows
    ensures r.Err? ==> r.error == Driver || (r.error == Constraint && !NamesKnown(NamesIn(w0), dnns))
    ensures r.Ok? ==> NamesKnown(NamesIn(w0), dnns)
    ensures r.Ok? ==> Integrity(r.value) && RowsKept(w0, r.value) && r.value.usns == w0.usns
    ensures r.Ok? ==> ViewOf(r.value) == ViewOf(w0).(forest := PutDnns(ForestOf(w0), UsnKey(w0.usns.rows, usn), dnns))
  {
    var w := w0;
    ghost var s := UsnKey(w0.usns.rows, usn);
    ghost var names, v0, goal := NamesIn(w0), ViewOf(w0), PutDnns(ForestOf(w0), s, dnns);
    for j := 0 to |dnns|
      invariant Integrity(w) && RowsKept(w0, w) && w.usns == w0.usns
      invariant ViewOf(w) == v0.(forest := ForestOf(w))
      invariant forall n :: 0 <= n < j ==> NameKnown(names, dnns[n])
      invariant PutDnns(ForestOf(w), s, dnns[j..]) == goal
    {
      assert dnns[j..][1..] == dnns[j + 1..];
      var x := InsertDnn(w, usn, dnns[j]);
      if x.Err? { return x; }
      w := x.value;
    }
    r := Ok(w);
  }

  method ResolveSlice(w: Tables, sl: TreeSlice) returns (r: Option<(Tables, int)>)
    requires Integrity(w)
    ensures r.None? <==> Resolve(w.catalog, sl).None?
    ensures r.Some? ==> Integrity(r.value.0) && RowsKept(w, r.value.0) && r.value.0.ues == w.ues
    ensures r.Some? ==> Resolve(w.catalog, sl) == Some((r.value.0.catalog, r.value.1))
    ensures r.Some? ==> ViewOf(r.value.0) == ViewOf(w).(catalog := r.value.0.catalog)
    ensures r.Some? ==> r.value.1 in r.value.0.catalog.rows
  {
    if sl.nssaiId == 0 {
      var w', id := CatalogGetOrCreate(w, sl.sst, sl.sd);
      r := Some((w', id));
    } else if sl.nssaiId in w.catalog.rows {
      r := Some((w, sl.nssaiId));
    } else {
      r := None;
    }
  }

  // The slice row of a catalog id, inserted if missing, and its row id.
  method LinkSlice(w: Tables, ue: int, nssai: int, flag: bool) returns (w': Tables, usn: int)
    requires Integrity(w) && ue in w.ues.rows && nssai in w.catalog.rows
    ensures Integrity(w') && RowsKept(w, w') && w' == w.(usns := w'.usns)
    ensures usn in w'.usns.rows && UsnKey(w'.usns.rows, usn) == SliceKey(ue, nssai)
    ensures ViewOf(w') == ViewOf(w).(forest := PutSliceKey(ForestOf(w), SliceKey(ue, nssai), flag))
  {
    var x := InsertUsn(w, ue, nssai, flag);
    var found := FindUsn(x.value, SliceKey(ue, nssai));
    w', usn := x.value, found.value;
  }

  method InsertSlice(w: Tables, ue: int, sl: TreeSlice) returns (r: Result<Tables>)
    requires Integrity(w) && ue in w.ues.rows
    ensures r.Err? ==> r.error == Driver || (r.error == Constraint && StoreSlice(ViewOf(w), ue, sl) == None)
    ensures r.Ok? ==> Integrity(r.value) && RowsKept(w, r.value)
    ensures r.Ok? ==> StoreSlice(ViewOf(w), ue, sl) == Some(ViewOf(r.value))
  {
    if * { return Err(Driver); }
    var id := ResolveSlice(w, sl);
    if id.None? { return Err(Constraint); }
    var w1, nssai := id.value.0, id.value.1;
    if * { return Err(Driver); }
    var w2, usn := LinkSlice(w1, ue, nssai, sl.isDefault);
    r := InsertDnns(w2, usn, sl.dnns);
    if r.Ok? {
      KeptOnward(w, w1, w2);
      KeptOnward(w, w2, r.value);
    }
  }

  method InsertTree(w0: Tables, ue: int, slices: seq<TreeSlice>) returns (r: Result<Tables>)
    requires Integrity(w0) && ue in w0.ues.rows
    ensures r.Err? ==> r.error == Driver || (r.error == Constraint && PutTree(ViewOf(w0), ue, slices) == None)
    ensures r.Ok? ==> Integrity(r.value) && RowsKept(w0, r.value)
    ensures r.Ok? ==> PutTree(ViewOf(w0), ue, slices) == Some(ViewOf(r.value))
  {
    var w := w0;
    for i := 0 to |slices|
      invariant Integrity(w) && RowsKept(w0, w) && w.ues == w0.ues
      invariant PutTree(ViewOf(w), ue, slices[i..]) == PutTree(ViewOf(w0), ue, slices)
    {
      assert slices[i..][1..] == slices[i + 1..];
      var x := InsertSlice(w, ue, slices[i]);
      if x.Err? { return x; }
      assert ViewOf(x.value).ues == ViewOf(w).ues;
      w := x.value;
    }
    r := Ok(w);
  }

  // ---- One UE of a bulk save ----

  method BulkOne(w0: Tables, p: BulkTemplate, e: BulkEntry, digest: string -> string) returns (r: Result<Tables>)
    requires Integrity(w0)
    ensures r.Err? ==> r.error == Driver || ProvisionOne(ViewOf(w0), p, e, digest) == Err(r.error)
    ensures r.Ok? ==> Integrity(r.value) && ProvisionOne(ViewOf(w0), p, e, digest) == Ok(ViewOf(r.value))
  {
    var imsi := Trim(e.imsi);
    if imsi == "" { return Err(Invalid); }
    if * { return Err(Driver); }
    var w, ue;
    var found := FindUeRow(w0, imsi);
    if found.Some? {
      ue := found.value;
      w := UpdateUe(w0, ue, w0.ues.rows[ue].(msisdn := Some(e.msisdn), ambrDl := p.ambrDl, ambrUl := p.ambrUl));
    } else {
      w, ue := InsertUe(w0, UeRow(imsi, Some(e.msisdn), true, p.ambrDl, p.ambrUl));
    }
    if * { return Err(Driver); }
    w := UpsertAuth(w, ue, BulkAuth(p, imsi, digest));
    if * { return Err(Driver); }
    w := DeleteSubscriptions(w, ue);
    r := InsertTree(w, ue, p.tree);
  }

  method InsertItems(w0: Tables, ue: int, items: seq<SubscribedItem>) returns (r: Result<Tables>)
    requires Integrity(w0) && ue in w0.ues.rows
    ensures r.Err? ==> r.error == Driver || (r.error == Constraint && PutTree(ViewOf(w0), ue, AsSlices(items)) == None)
    ensures r.Ok? ==> Integrity(r.value) && PutTree(ViewOf(w0), ue, AsSlices(items)) == Some(ViewOf(r.value))
  {
    var w := w0;
    ghost var goal := PutTree(ViewOf(w0), ue, AsSlices(items));
    for i := 0 to |items|
      invariant Integrity(w) && w.ues == w0.ues
      invariant PutTree(ViewOf(w), ue, AsSlices(items[i..])) == goal
    {
      assert items[i..][1..] == items[i + 1..];
      var it := items[i];
      if !(it.nssaiId == 0 && it.sst.None?) {
        ghost var sl := TreeSlice(it.nssaiId, it.sst.GetOr(0), it.sd, it.isDefault, []);
        assert AsSlices(items[i..])[1..] == AsSlices(items[i + 1..]);
        var x := InsertSlice(w, ue, TreeSlice(it.nssaiId, it.sst.GetOr(0), it.sd, it.isDefault, []));
        if x.Err? { return x; }
        assert ViewOf(x.value).ues == ViewOf(w).ues;
        w := x.value;
      } else {
        assert AsSlices(items[i..]) == AsSlices(items[i + 1..]);
      }
    }
    r := Ok(w);
  }

  // ---- Replacing the DNNs of a UE ----

  // SELECT the UE's slices, in any order, into a table by name: a later row of the same name replaces an earlier one.
  method NamedSlices(w: Tables, ue: int) returns (m: map<SliceName, int>)
    requires Integrity(w)
    ensures NamesUsns(w, ue, m)
    ensures forall u :: u in w.usns.rows && w.usns.rows[u].ueId == ue ==> NameOf(w.catalog.rows[w.usns.rows[u].nssaiId]) in m
  {
    m := map[];
    var rows := set u | u in w.usns.rows && w.usns.rows[u].ueId == ue;
    var left := rows;
    while left != {}
      invariant left <= rows
      invariant NamesUsns(w, ue, m)
      invariant forall u :: u in rows - left ==> NameOf(w.catalog.rows[w.usns.rows[u].nssaiId]) in m
      decreases left
    {
      ghost var some := LowestExists(left);
      var u :| u in left;
      m := m[NameOf(w.catalog.rows[w.usns.rows[u].nssaiId]) := u];
      left := left - {u};
    }
  }

  ghost predicate NamedUsn(w: Tables, ue: int, n: SliceName, u: int) {
    && u in w.usns.rows && w.usns.rows[u].ueId == ue
    && w.usns.rows[u].nssaiId in w.catalog.rows && NameOf(w.catalog.rows[w.usns.rows[u].nssaiId]) == n
  }

  ghost predicate NamesUsns(w: Tables, ue: int, m: map<SliceName, int>) {
    && (forall u :: u in m.Values ==> u in w.usns.rows)
    && (forall n :: n in m ==> m[n] in w.usns.rows && NamedUsn(w, ue, n, m[n]))
  }

  // The slice each name stands for.
  ghost function PickOf(w: Tables, ue: int, m: map<SliceName, int>): map<SliceName, int>
    requires NamesUsns(w, ue, m)
  {
    map n | n in m :: w.usns.rows[m[n]].nssaiId
  }

  lemma PicksAreSlices(w: Tables, ue: int, m: map<SliceName, int>)
    requires Integrity(w) && NamesUsns(w, ue, m)
    requires forall u :: u in w.usns.rows && w.usns.rows[u].ueId == ue ==> NameOf(w.catalog.rows[w.usns.rows[u].nssaiId]) in m
    ensures PicksSlices(ViewOf(w), ue, PickOf(w, ue, m))
    ensures KeysOf(w.usns.rows, m.Values) == PickedKeys(ue, PickOf(w, ue, m))
  {
    var pick := PickOf(w, ue, m);
    PathsAreUnique(w);
    var e := UsnEntries(w.usns.rows);
    forall k | k in SliceLevel(w.usns.rows) && k.ue == ue
      ensures k.nssai in w.catalog.rows && NameOf(w.catalog.rows[k.nssai]) in pick
    {
      var u :| u in e && e[u].key == k;
    }
    forall n | n in pick
      ensures SliceKey(ue, pick[n]) in SliceLevel(w.usns.rows)
    {
      assert e[m[n]].key == SliceKey(ue, pick[n]);
    }
    forall k | k in PickedKeys(ue, pick)
      ensures k in KeysOf(w.usns.rows, m.Values)
    {
      var n :| n in pick && k == SliceKey(ue, pick[n]);
      assert m[n] in m.Values && UsnKey(w.usns.rows, m[n]) == k;
    }
    forall k | k in KeysOf(w.usns.rows, m.Values)
      ensures k in PickedKeys(ue, pick)
    {
      var u :| u in m.Values && UsnKey(w.usns.rows, u) == k;
      var n :| n in m && m[n] == u;
      assert n in pick && k == SliceKey(ue, pick[n]);
    }
  }

  // One listed DNN, on the slice row its name stands for.
  method InsertItem(w: Tables, ue: int, m: map<SliceName, int>, it: SliceDnnItem) returns (r: Result<Tables>)
    requires Integrity(w) && NamesUsns(w, ue, m)
    ensures r.Err? ==> r.error == Driver || (r.error == Constraint && ItemName(it) in m && it.dnn !in w.apns)
    ensures r.Ok? ==> ItemName(it) in m ==> it.dnn in w.apns
    ensures r.Ok? ==> Integrity(r.value) && r.value == w.(usds := r.value.usds)
    ensures r.Ok? ==> ViewOf(r.value) == ViewOf(w).(forest := PutItem(ForestOf(w), ue, PickOf(w, ue, m), it))
  {
    if ItemName(it) !in m { return Ok(w); }
    if * { return Err(Driver); }
    var x := InsertUsd(w, m[ItemName(it)], it.dnn, it.isDefault);
    r := if x.Some? then Ok(x.value) else Err(Constraint);
  }

  method InsertItemsNamed(w0: Tables, ue: int, m: map<SliceName, int>, items: seq<SliceDnnItem>) returns (r: Result<Tables>)
    requires Integrity(w0) && NamesUsns(w0, ue, m)
    ensures r.Err? ==> r.error == Driver || (r.error == Constraint && !ItemsKnown(w0.apns, PickOf(w0, ue, m), items))
    ensures r.Ok? ==> ItemsKnown(w0.apns, PickOf(w0, ue, m), items) && Integrity(r.value)
    ensures r.Ok? ==> ViewOf(r.value) == ViewOf(w0).(forest := PutItems(ForestOf(w0), ue, PickOf(w0, ue, m), items))
  {
    var w := w0;
    ghost var pick, v0 := PickOf(w0, ue, m), ViewOf(w0);
    ghost var goal := PutItems(ForestOf(w0), ue, pick, items);
    for i := 0 to |items|
      invariant Integrity(w) && w == w0.(usds := w.usds)
      invariant ViewOf(w) == v0.(forest := ForestOf(w))
      invariant PutItems(ForestOf(w), ue, pick, items[i..]) == goal
      invariant forall n :: 0 <= n < i && ItemName(items[n]) in pick ==> items[n].dnn in w0.apns
    {
      assert items[i..][1..] == items[i + 1..];
      var x := InsertItem(w, ue, m, items[i]);
      if x.Err? { return x; }
      w := x.value;
    }
    r := Ok(w);
  }

  lemma SameNames(w: Tables, w': Tables, ue: int, m: map<SliceName, int>)
    requires NamesUsns(w, ue, m) && w'.usns == w.usns && w'.catalog == w.catalog
    ensures NamesUsns(w', ue, m) && PickOf(w', ue, m) == PickOf(w, ue, m)
  {
  }

  method ReplaceDnns(w: Tables, ue: int, m: map<SliceName, int>, items: seq<SliceDnnItem>) returns (r: Result<Tables>)
    requires Integrity(w) && NamesUsns(w, ue, m)
    requires KeysOf(w.usns.rows, m.Values) == PickedKeys(ue, PickOf(w, ue, m))
    ensures r.Err? ==> r.error == Driver || SaveDnns(ViewOf(w), ue, PickOf(w, ue, m), items) == Err(r.error)
    ensures r.Ok? ==> Integrity(r.value) && SaveDnns(ViewOf(w), ue, PickOf(w, ue, m), items) == Ok(ViewOf(r.value))
  {
    var cleared := DeleteDnns(w, m.Values);
    SameNames(w, cleared, ue, m);
    r := InsertItemsNamed(cleared, ue, m, items);
  }

  // ---- The path of one binding ----

  // resolveSliceDNNID: the rows above a binding, selected or inserted. LinkSlice is the first.
  method EnsureUsd(w: Tables, usn: int, dnn: string) returns (r: Option<Tables>, usd: int)
    requires Integrity(w) && usn in w.usns.rows
    ensures r.Some? <==> dnn in w.apns
    ensures r.Some? ==> Integrity(r.value) && RowsKept(w, r.value) && r.value.usns == w.usns && r.value.sbs == w.sbs
    ensures r.Some? ==> usd in r.value.usds.rows && r.value.usds.rows[usd].usnId == usn && r.value.usds.rows[usd].dnn == dnn
    ensures r.Some? ==> ViewOf(r.value) ==
                        ViewOf(w).(forest := PutDnnKey(ForestOf(w), DnnKey(UsnKey(w.usns.rows, usn), dnn), true))
  {
    usd := 0;
    r := InsertUsd(w, usn, dnn, true);
    if r.Some? {
      var found := FindUsd(r.value, usn, dnn);
      usd := found.value;
    }
  }

  // UPDATE the flag, or INSERT the row when the update touched none.
  method SetBinding(w: Tables, usd: int, service: string, flag: bool) returns (r: Option<Tables>)
    requires Integrity(w) && usd in w.usds.rows
    ensures r.Some? <==> service in w.services
    ensures r.Some? ==> Integrity(r.value) && r.value.usns == w.usns && r.value.usds == w.usds
    ensures r.Some? ==> ViewOf(r.value) == ViewOf(w).(forest :=
                          SetFlag(ForestOf(w), ServiceKey(UsdKey(w.usns.rows, w.usds.rows, usd), service), flag))
    ensures r.Some? ==> OthersKept(w.sbs.rows, r.value.sbs.rows, usd, service)
  {
    var b := FindSb(w, usd, service);
    if b.Some? {
      var x := UpdateSb(w, b.value, flag);
      r := Some(x);
    } else {
      r := InsertSb(w, usd, service, flag);
    }
  }

  // Binding rows other than the one of this DNN row and service are as they were.
  ghost predicate OthersKept(a: map<int, SbRow>, b: map<int, SbRow>, usd: int, service: string) {
    forall i :: i in a ==> i in b && (b[i] == a[i] || (a[i].usdId == usd && a[i].service == service))
  }

  // Every row off the path k is as it was; the row on it may only have its flag changed.
  ghost predicate OffPathKept(a: Tables, b: Tables, k: ServiceKey)
    requires Integrity(a)
  {
    && Within(a.usns.rows, b.usns.rows) && Within(a.usds.rows, b.usds.rows)
    && forall i :: i in a.sbs.rows ==> i in b.sbs.rows
                                       && (b.sbs.rows[i] == a.sbs.rows[i] || SbKey(a.usns.rows, a.usds.rows, a.sbs.rows, i) == k)
  }

  lemma OnlyThePath(a: Tables, b: Tables, c: Tables, usd: int, service: string)
    requires Integrity(a) && Integrity(b) && RowsKept(a, b) && b.sbs == a.sbs
    requires usd in b.usds.rows && c.usns == b.usns && c.usds == b.usds
    requires OthersKept(b.sbs.rows, c.sbs.rows, usd, service)
    ensures OffPathKept(a, c, ServiceKey(UsdKey(b.usns.rows, b.usds.rows, usd), service))
  {
  }

  method BindRows(w: Tables, ue: int, dnn: string, sst: int, sd: string, service: string, flag: bool)
    returns (r: Result<Tables>)
    requires Integrity(w) && ue in w.ues.rows
    ensures r.Err? ==> r.error == Driver || BindPath(ViewOf(w), ue, dnn, sst, sd, service, flag) == Err(r.error)
    ensures r.Ok? ==> Integrity(r.value) && BindPath(ViewOf(w), ue, dnn, sst, sd, service, flag) == Ok(ViewOf(r.value))
    ensures r.Ok? ==> OffPathKept(w, r.value, BindKey(w.catalog, ue, dnn, sst, sd, service))
  {
    if * { return Err(Driver); }
    var w1, nssai := CatalogGetOrCreate(w, sst, sd);
    assert w1.ues == w.ues && w1.apns == w.apns && w1.services == w.services && w1.sbs == w.sbs;
    ghost var v1 := ViewOf(w1);
    if * { return Err(Driver); }
    var w2, usn := LinkSlice(w1, ue, nssai, true);
    assert ViewOf(w2).apns == v1.apns && ViewOf(w2).services == v1.services;
    if * { return Err(Driver); }
    var x, usd := EnsureUsd(w2, usn, dnn);
    if x.None? { return Err(Constraint); }
    if * { return Err(Driver); }
    assert ViewOf(x.value).services == v1.services;
    var y := SetBinding(x.value, usd, service, flag);
    if y.None? { return Err(Constraint); }
    if * { return Err(Driver); }
    OnlyThePath(w, x.value, y.value, usd, service);
    r := Ok(y.value);
  }

  // Updates the row of the IMSI, or inserts one.
  method PutUe(w: Tables, row: UeRow) returns (w': Tables, ue: int)
    requires Integrity(w)
    ensures Integrity(w') && w' == w.(ues := w'.ues) && (w'.ues, ue) == UpsertUe(w.ues, row)
    ensures ue in w'.ues.rows && ViewOf(w') == ViewOf(w).(ues := w'.ues)
  {
    var found := FindUeRow(w, row.imsi);
    if found.Some? {
      ue := found.value;
      w' := UpdateUe(w, ue, row);
    } else {
      w', ue := InsertUe(w, row);
    }
  }

  // The outcome of a transaction: it commits the specified view, or reports the specified error, or the
  // driver gave up. Only a commit changes the tables.
  ghost predicate Commits(spec: Result<View>, now: View, error: Option<Error>) {
    match error
    case None => spec == Ok(now)
    case Some(e) => e == Driver || spec == Err(e)
  }

  // A range loop that made `done` rounds ends without error only when all count rounds are made and the
  // counter still fits the width; it reports overflow when the counter left the width.
  ghost predicate Counts(start: string, count: int, error: Option<Error>, done: nat)
    requires IsDigits(start)
  {
    && done <= count
    && (error == None ==> done == count && Value(start) + done < Pow10(|start|))
    && (error == Some(Overflow) ==> done > 0 && Value(start) + done == Pow10(|start|))
    && (error.Some? && error != Some(Overflow) ==> Value(start) + done < Pow10(|start|))
  }

  lemma CloneTraceGrows(src: string, r: Rounds, imsi: string, now: View)
    requires CloneTrace(src, r.imsis, r.views) && Cloned(src, imsi, r.views[|r.imsis|], now)
    ensures CloneTrace(src, r.Add(imsi, now).imsis, r.Add(imsi, now).views)
  {
    var r' := r.Add(imsi, now);
    forall i | 0 <= i < |r'.imsis|
      ensures Cloned(src, r'.imsis[i], r'.views[i], r'.views[i + 1])
    {
      if i == |r.imsis| {
      } else {
        assert Cloned(src, r.imsis[i], r.views[i], r.views[i + 1]);
        assert r'.imsis[i] == r.imsis[i] && r'.views[i] == r.views[i] && r'.views[i + 1] == r.views[i + 1];
      }
    }
  }

  lemma DeleteTraceGrows(r: Rounds, imsi: string, now: View)
    requires DeleteTrace(r.imsis, r.views) && Deleted(imsi, r.views[|r.imsis|], now)
    ensures DeleteTrace(r.Add(imsi, now).imsis, r.Add(imsi, now).views)
  {
    var r' := r.Add(imsi, now);
    forall i | 0 <= i < |r'.imsis|
      ensures Deleted(r'.imsis[i], r'.views[i], r'.views[i + 1])
    {
      if i < |r.imsis| { assert Deleted(r.imsis[i], r.views[i], r.views[i + 1]); }
    }
  }

  lemma {:induction false} FoundPrefix(r: Rounds, imsi: string, now: View, n: nat)
    requires n <= |r.imsis| < |r.views|
    ensures r.Add(imsi, now).Found(n) == r.Found(n)
  {
    if n == 0 {
    } else {
      FoundPrefix(r, imsi, now, n - 1);
    }
  }

  lemma SpanGrows(r: Rounds, start: string, before: View, now: View, imsi: string, next: View)
    requires r.Span(start, before, now) && IsNth(imsi, start, |r.imsis|)
    ensures r.Add(imsi, next).Span(start, before, next)
  {
  }

  lemma FoundGrows(r: Rounds, imsi: string, now: View)
    requires |r.views| == |r.imsis| + 1
    ensures r.Add(imsi, now).Found(|r.imsis| + 1)
            == r.Found(|r.imsis|) + if FindUe(r.views[|r.imsis|].ues.rows, imsi).Some? then 1 else 0
  {
    FoundPrefix(r, imsi, now, |r.imsis|);
  }

  ghost predicate Clones(src: string, r: Rounds, start: string, before: View, now: View) {
    r.Span(start, before, now) && CloneTrace(src, r.imsis, r.views)
  }

  lemma ClonesGrow(src: string, r: Rounds, start: string, before: View, now: View, imsi: string, next: View)
    requires Clones(src, r, start, before, now) && IsNth(imsi, start, |r.imsis|) && Cloned(src, imsi, now, next)
    ensures Clones(src, r.Add(imsi, next), start, before, next)
  {
    CloneTraceGrows(src, r, imsi, next);
    SpanGrows(r, start, before, now, imsi, next);
  }

  // The rounds of a range delete, with the count of the UEs that were there.
  ghost predicate Deletes(r: Rounds, start: string, before: View, now: View, deleted: nat) {
    && r.Span(start, before, now) && DeleteTrace(r.imsis, r.views)
    && deleted == r.Found(|r.imsis|)
  }

  lemma DeletesGrow(r: Rounds, start: string, before: View, now: View, imsi: string, next: View, deleted: nat)
    requires Deletes(r, start, before, now, deleted) && IsNth(imsi, start, |r.imsis|) && Deleted(imsi, now, next)
    ensures Deletes(r.Add(imsi, next), start, before, next,
                    deleted + if FindUe(now.ues.rows, imsi).Some? then 1 else 0)
  {
    DeleteTraceGrows(r, imsi, next);
    SpanGrows(r, start, before, now, imsi, next);
    FoundGrows(r, imsi, next);
  }

  // []byte(start): the mutable counter of a range loop.
  method Digits(start: string) returns (cur: array<char>)
    requires IsDigits(start)
    ensures fresh(cur) && IsNth(cur[..], start, 0)
    ensures Value(start) < Pow10(|start|)
  {
    cur := new char[|start|](i requires 0 <= i < |start| => start[i]);
    assert cur[..] == start;
    ValueBound(start);
  }

  function EmptyTables(apns: set<string>, services: map<string, Resource>): Tables {
    Tables(apns, services, Table(map[], 1), Table(map[], 1), Table(map[], 1), Table(map[], 1), Table(map[], 1), Table(map[], 1))
  }

  lemma EmptyForest(t: Tables)
    requires Integrity(t) && t.usns.rows == map[] && t.usds.rows == map[] && t.sbs.rows == map[]
    ensures ForestOf(t) == Forest(map[], map[], map[])
  {
    PathsAreUnique(t);
    assert SliceLevel(t.usns.rows) == map[];
    assert DnnLevel(t.usns.rows, t.usds.rows) == map[];
    assert ServiceLevel(t.usns.rows, t.usds.rows, t.sbs.rows) == map[];
  }

  lemma EmptyIntegrity(apns: set<string>, services: map<string, Resource>)
    requires NamesOk(apns, services)
    ensures Integrity(EmptyTables(apns, services))
  {
  }

  lemma EmptyAuths()
    ensures AuthsOf(map[], map[]) == map[]
  {
  }

  lemma EmptyTablesOk(apns: set<string>, services: map<string, Resource>)
    requires NamesOk(apns, services)
    ensures var t := EmptyTables(apns, services);
      Integrity(t) && ViewOf(t) == View(apns, services, Table(map[], 1), Table(map[], 1), map[], Forest(map[], map[], map[]))
  {
    EmptyIntegrity(apns, services);
    EmptyForest(EmptyTables(apns, services));
    EmptyAuths();
  }

  class SubscriberDb {
    var db: Tables
    const digest: string -> string

    ghost predicate Valid()
      reads this
    {
      Integrity(db)
    }

    ghost function Now(): View
      requires Valid()
      reads this
    {
      ViewOf(db)
    }

    constructor (apns: set<string>, services: map<string, Resource>, digest: string -> string)
      requires NamesOk(apns, services)
      ensures Valid()
      ensures Now() == View(apns, services, Table(map[], 1), Table(map[], 1), map[], Forest(map[], map[], map[]))
    {
      this.digest := digest;
      this.db := EmptyTables(apns, services);
      EmptyTablesOk(apns, services);
    }

    // SubscriptionTreeSave: wipe and re-insert one UE's tree.
    method SubscriptionTreeSave(imsi: string, slices: seq<TreeSlice>) returns (error: Option<Error>)
      requires Valid()
      modifies this`db
      ensures Valid()
      ensures Commits(SaveTree(old(Now()), imsi, slices), Now(), error)
      ensures error.Some? ==> db == old(db)
    {
      if * { return Some(Driver); }
      var ue := FindUeRow(db, imsi);
      if ue.None? { return Some(NotFound); }
      var w := DeleteSubscriptions(db, ue.value);
      var r := InsertTree(w, ue.value, slices);
      if r.Err? { return Some(r.error); }
      if * { return Some(Driver); }
      db := r.value;
      error := None;
    }

    // SubscriptionTreeGet: the listed tree, or None when there is no such UE.
    method SubscriptionTreeGet(imsi: string) returns (error: Option<Error>, tree: Option<seq<TreeSlice>>)
      requires Valid()
      ensures error.Some? ==> error == Some(Driver)
      ensures error.None? ==> (tree.None? <==> FindUe(Now().ues.rows, imsi).None?)
      ensures error.None? && tree.Some? ==> ListsSlices(Now(), FindUe(Now().ues.rows, imsi).value, tree.value)
    {
      if * { return Some(Driver), None; }
      error, tree := None, None;
      var ue := FindUeRow(db, imsi);
      if ue.Some? {
        var slices := ListSlices(db, ue.value);
        tree := Some(slices);
      }
    }

    // UEDeleteByIMSI: one DELETE, cascading. The number of UE rows removed.
    method UEDeleteByIMSI(imsi: string) returns (error: Option<Error>, removed: nat)
      requires Valid()
      modifies this`db
      ensures Valid()
      ensures error.Some? ==> error == Some(Driver) && db == old(db)
      ensures error.None? ==> Now() == Delete(old(Now()), imsi)
      ensures error.None? ==> db == match FindUe(old(db).ues.rows, imsi)
                                    case None => old(db)
                                    case Some(ue) => UeDeleted(old(db), ue)
      ensures removed == if error.None? && FindUe(old(db).ues.rows, imsi).Some? then 1 else 0
    {
      removed := 0;
      if * { return Some(Driver), 0; }
      var ue := FindUeRow(db, imsi);
      if ue.Some? {
        db := DeleteUe(db, ue.value);
        removed := 1;
      }
      error := None;
    }

    // UEBulkProvision: every listed UE in one transaction.
    method UEBulkProvision(p: BulkTemplate, es: seq<BulkEntry>) returns (error: Option<Error>)
      requires Valid()
      modifies this`db
      ensures Valid()
      ensures Commits(Bulk(old(Now()), p, es, digest), Now(), error)
      ensures error.Some? ==> db == old(db)
    {
      if es == [] || !TemplateOk(p) { return Some(Invalid); }
      if * { return Some(Driver); }
      var w := db;
      ghost var goal := ProvisionAll(Now(), p, es, digest);
      for i := 0 to |es|
        invariant Integrity(w) && db == old(db)
        invariant ProvisionAll(ViewOf(w), p, es[i..], digest) == goal
      {
        assert es[i..][1..] == es[i + 1..];
        var r := BulkOne(w, p, es[i], digest);
        if r.Err? { return Some(r.error); }
        w := r.value;
      }
      if * { return Some(Driver); }
      db := w;
      error := None;
    }

    // UECloneDeep: the UE row, its authentication data, then the three levels of its tree.
    method UECloneDeep(srcImsi: string, dstImsi: string, dstMsisdn: string) returns (error: Option<Error>)
      requires Valid()
      modifies this`db
      ensures Valid()
      ensures Commits(Clone(old(Now()), srcImsi, dstImsi, dstMsisdn), Now(), error)
      ensures error.Some? ==> db == old(db)
      ensures RowsKept(old(db), db)
    {
      var s, d := Trim(srcImsi), Trim(dstImsi);
      if s == "" || d == "" { return Some(Invalid); }
      if * { return Some(Driver); }
      var src := FindUeRow(db, s);
      if src.None? { return Some(NotFound); }
      var auth := FindAuth(db, src.value);
      if auth.None? { return Some(NotFound); }
      var from := db.ues.rows[src.value];
      var msisdn := if dstMsisdn == "" then from.msisdn.GetOr("") else dstMsisdn;
      var w, dst := PutUe(db, UeRow(d, Some(msisdn), from.enabled, from.ambrDl, from.ambrUl));
      if * { return Some(Driver); }
      w := UpsertAuth(w, dst, CopyAuth(auth.value));
      if * { return Some(Driver); }
      w := CloneTree(w, src.value, dst);
      if * { return Some(Driver); }
      db := w;
      error := None;
    }

    // One round of the clone loop: clone, then count.
    method CloneNext(src: string, cur: array<char>, ghost start: string, ghost before: View, ghost r: Rounds)
      returns (error: Option<Error>, fits: bool, ghost r': Rounds)
      requires Valid() && Clones(src, r, start, before, Now()) && IsNth(cur[..], start, |r.imsis|)
      modifies this`db, cur
      ensures Valid() && Clones(src, r', start, before, Now())
      ensures error.None? ==> |r'.imsis| == |r.imsis| + 1
      ensures error.None? ==> (fits <==> Value(start) + |r'.imsis| < Pow10(|start|))
      ensures error.None? && fits ==> IsNth(cur[..], start, |r'.imsis|)
      ensures error.Some? ==> error.value != Overflow && r' == r
      ensures error.Some? ==> exists imsi :: IsNth(imsi, start, |r.imsis|) && CloneFails(src, imsi, Now(), error.value)
    {
      ghost var v := Now();
      IncrementCounts(cur[..], start, |r.imsis|);
      fits, r' := true, r;
      var imsi := cur[..];
      error := UECloneDeep(src, imsi, MsisdnOf(imsi));
      if error.None? {
        ClonesGrow(src, r, start, before, v, imsi, Now());
        r' := r.Add(imsi, Now());
        fits := Increment(cur);
      }
    }

    method CloneLoop(src: string, start: string, count: nat)
      returns (error: Option<Error>, created: nat, ghost r: Rounds)
      requires Valid() && RangeArgsOk(start, count)
      modifies this`db
      ensures Valid()
      ensures created == |r.imsis| && Counts(start, count, error, created)
      ensures Clones(src, r, start, old(Now()), Now())
      ensures error.Some? && error != Some(Overflow) ==>
                exists imsi :: IsNth(imsi, start, created) && CloneFails(src, imsi, Now(), error.value)
    {
      created := 0;
      var cur := Digits(start);
      r := Rounds([], [Now()]);
      while created < count
        invariant Valid() && fresh(cur)
        invariant created == |r.imsis| <= count && Value(start) + created < Pow10(|start|)
        invariant Clones(src, r, start, old(Now()), Now())
        invariant IsNth(cur[..], start, created)
      {
        var e, fits;
        e, fits, r := CloneNext(src, cur, start, old(Now()), r);
        if e.Some? { return e, created, r; }
        created := created + 1;
        if !fits { return Some(Overflow), created, r; }
      }
      error := None;
    }

    // UECloneRange: consecutive IMSIs, each cloned in its own transaction, until one fails.
    method UECloneRange(srcImsi: string, startImsi: string, count: int)
      returns (error: Option<Error>, created: nat, ghost r: Rounds)
      requires Valid()
      modifies this`db
      ensures Valid()
      ensures Trim(srcImsi) == "" || !RangeArgsOk(Trim(startImsi), count) ==>
                error == Some(Invalid) && created == 0 && db == old(db)
      ensures Trim(srcImsi) != "" && RangeArgsOk(Trim(startImsi), count) ==>
                && created == |r.imsis| && Counts(Trim(startImsi), count, error, created)
                && r.Span(Trim(startImsi), old(Now()), Now()) && CloneTrace(Trim(srcImsi), r.imsis, r.views)
                && (error.Some? && error != Some(Overflow) ==>
                    exists imsi :: IsNth(imsi, Trim(startImsi), created)
                                   && CloneFails(Trim(srcImsi), imsi, Now(), error.value))
    {
      var src, start := Trim(srcImsi), Trim(startImsi);
      if src == "" || !RangeArgsOk(start, count) { return Some(Invalid), 0, Rounds([], []); }
      error, created, r := CloneLoop(src, start, count);
    }

    method DeleteNext(cur: array<char>, ghost start: string, ghost before: View, ghost r: Rounds, deleted: nat)
      returns (error: Option<Error>, deleted': nat, fits: bool, ghost r': Rounds)
      requires Valid() && Deletes(r, start, before, Now(), deleted) && IsNth(cur[..], start, |r.imsis|)
      modifies this`db, cur
      ensures Valid() && Deletes(r', start, before, Now(), deleted')
      ensures error.None? ==> |r'.imsis| == |r.imsis| + 1
      ensures error.None? ==> (fits <==> Value(start) + |r'.imsis| < Pow10(|start|))
      ensures error.None? && fits ==> IsNth(cur[..], start, |r'.imsis|)
      ensures error.Some? ==> error == Some(Driver) && r' == r && deleted' == deleted
    {
      ghost var v := Now();
      IncrementCounts(cur[..], start, |r.imsis|);
      fits, r', deleted' := true, r, deleted;
      var n;
      error, n := UEDeleteByIMSI(cur[..]);
      if error.None? {
        DeletesGrow(r, start, before, v, cur[..], Now(), deleted);
        r', deleted' := r.Add(cur[..], Now()), deleted + n;
        fits := Increment(cur);
      }
    }

    method DeleteLoop(start: string, count: nat)
      returns (error: Option<Error>, deleted: nat, ghost r: Rounds)
      requires Valid() && RangeArgsOk(start, count)
      modifies this`db
      ensures Valid()
      ensures Counts(start, count, error, |r.imsis|)
      ensures Deletes(r, start, old(Now()), Now(), deleted)
      ensures error.Some? ==> error.value in {Overflow, Driver}
    {
      deleted := 0;
      var cur := Digits(start);
      r := Rounds([], [Now()]);
      for i := 0 to count
        invariant Valid() && fresh(cur)
        invariant i == |r.imsis| && Value(start) + i < Pow10(|start|)
        invariant Deletes(r, start, old(Now()), Now(), deleted)
        invariant IsNth(cur[..], start, i)
      {
        var e, fits;
        e, deleted, fits, r := DeleteNext(cur, start, old(Now()), r, deleted);
        if e.Some? { return e, deleted, r; }
        if !fits { return Some(Overflow), deleted, r; }
      }
      error := None;
    }

    // UEDeleteRange: the same walk, deleting what is there.
    method UEDeleteRange(startImsi: string, count: int)
      returns (error: Option<Error>, deleted: nat, ghost r: Rounds)
      requires Valid()
      modifies this`db
      ensures Valid()
      ensures !RangeArgsOk(Trim(startImsi), count) ==> error == Some(Invalid) && deleted == 0 && db == old(db)
      ensures RangeArgsOk(Trim(startImsi), count) ==>
                && Counts(Trim(startImsi), count, error, |r.imsis|)
                && Deletes(r, Trim(startImsi), old(Now()), Now(), deleted)
                && (error.Some? ==> error.value in {Overflow, Driver})
    {
      var start := Trim(startImsi);
      if !RangeArgsOk(start, count) { return Some(Invalid), 0, Rounds([], []); }
      error, deleted, r := DeleteLoop(start, count);
    }

    // BindingUpsert: the path of one binding, created where missing, and its flag. The UE row is committed
    // on its own before the transaction.
    method BindingUpsert(imsi: string, dnn: string, sst: int, sd: string, service: string, isDefault: bool)
      returns (error: Option<Error>)
      requires Valid()
      modifies this`db
      ensures Valid()
      ensures error == Some(Driver) ==> Now() == old(Now()) || Now() == BindUe(old(Now()), Trim(imsi)).0
      ensures error != Some(Driver) ==> (Now(), error) == Bind(old(Now()), imsi, dnn, sst, sd, service, isDefault)
      ensures error == None ==>
                OffPathKept(old(db), db, BindKey(old(db).catalog, BindUe(old(Now()), Trim(imsi)).1, Trim(dnn), sst,
                                                 Upper(Trim(sd)), Trim(service)))
    {
      var i, d, s := Trim(imsi), Trim(dnn), Trim(service);
      if i == "" || d == "" || s == "" { return Some(Invalid); }
      if isDefault && !(s in db.services && db.services[s] == NonGBR) { return Some(Invalid); }
      if * { return Some(Driver); }
      var ue;
      var found := FindUeRow(db, i);
      if found.Some? {
        ue := found.value;
      } else {
        var w;
        w, ue := InsertUe(db, UeRow(i, None, true, 1000000, 1000000));
        db := w;
      }
      var r := BindRows(db, ue, d, sst, Upper(Trim(sd)), s, isDefault);
      if r.Err? { return Some(r.error); }
      db := r.value;
      error := None;
    }

    // BindingsDelete: the bindings of one UE that a filter matches.
    method BindingsDelete(imsi: string, f: BindingFilter) returns (error: Option<Error>, deleted: nat)
      requires Valid()
      modifies this`db
      ensures Valid()
      ensures error == Some(Invalid) <==> Trim(imsi) == ""
      ensures error.Some? ==> db == old(db) && error.value in {Invalid, Driver}
      ensures error.None? ==> Now() == Unbind(old(Now()), imsi, f)
      ensures deleted == if error.None? then MatchCount(old(Now()), imsi, f) else 0
      ensures db == old(db).(sbs := db.sbs) && Within(db.sbs.rows, old(db).sbs.rows)
    {
      deleted := 0;
      if Trim(imsi) == "" { return Some(Invalid), 0; }
      if * { return Some(Driver), 0; }
      var ue := FindUeRow(db, imsi);
      if ue.Some? {
        var w, n := DeleteBindings(db, ue.value, f);
        db, deleted := w, n;
      }
      error := None;
    }

    // SubscribedNSSAISave: wipe the tree and insert only its slices.
    method SubscribedNSSAISave(imsi: string, items: seq<SubscribedItem>) returns (error: Option<Error>)
      requires Valid()
      modifies this`db
      ensures Valid()
      ensures Commits(SaveTree(old(Now()), imsi, AsSlices(items)), Now(), error)
      ensures error.Some? ==> db == old(db)
    {
      if * { return Some(Driver); }
      var ue := FindUeRow(db, imsi);
      if ue.None? { return Some(NotFound); }
      var w := DeleteSubscriptions(db, ue.value);
      var r := InsertItems(w, ue.value, items);
      if r.Err? { return Some(r.error); }
      if * { return Some(Driver); }
      db := r.value;
      error := None;
    }

    // SliceDNNSave: wipe the DNNs of the named slices and insert the listed ones. `pick` is the slice each
    // name stands for: two slices of one UE may share a name, and then only one of them is looked up.
    method SliceDNNSave(imsi: string, items: seq<SliceDnnItem>) returns (error: Option<Error>, ghost pick: map<SliceName, int>)
      requires Valid()
      modifies this`db
      ensures Valid()
      ensures error.Some? ==> db == old(db)
      ensures error == Some(NotFound) ==> FindUe(old(Now()).ues.rows, imsi) == None
      ensures error !in {Some(NotFound), Some(Driver)} ==>
                && FindUe(old(Now()).ues.rows, imsi).Some?
                && var ue := FindUe(old(Now()).ues.rows, imsi).value;
                   PicksSlices(old(Now()), ue, pick) && Commits(SaveDnns(old(Now()), ue, pick, items), Now(), error)
    {
      pick := map[];
      if * { return Some(Driver), pick; }
      var found := FindUeRow(db, imsi);
      if found.None? { return Some(NotFound), pick; }
      var ue := found.value;
      var m := NamedSlices(db, ue);
      pick := PickOf(db, ue, m);
      PicksAreSlices(db, ue, m);
      if * { return Some(Driver), pick; }
      var r := ReplaceDnns(db, ue, m, items);
      if r.Err? { return Some(r.error), pick; }
      if * { return Some(Driver), pick; }
      db := r.value;
      error := None;
    }
  }
}
