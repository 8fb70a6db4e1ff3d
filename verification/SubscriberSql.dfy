// The SQL statements the store runs, on a copy of the tables. Each is stated by what it does to the view.
module SubscriberSql {
  import opened Wrappers
  import opened Text
  import opened SubscriberTables
  import opened SubscriberSpec

  ghost predicate Within<T>(a: map<int, T>, b: map<int, T>) {
    forall i :: i in a ==> i in b && b[i] == a[i]
  }

  // No row below a UE is lost or altered.
  ghost predicate RowsKept(a: Tables, b: Tables) {
    Within(a.usns.rows, b.usns.rows) && Within(a.usds.rows, b.usds.rows) && Within(a.sbs.rows, b.sbs.rows)
  }

  lemma KeptOnward(a: Tables, b: Tables, c: Tables)
    requires RowsKept(a, b) && RowsKept(b, c)
    ensures RowsKept(a, c)
  {
  }

  // ---- ue_subscribed_nssai ----

  // The UNIQUE index on (ue_id, nssai_id) reads the flag of the path.
  method FindUsn(w: Tables, key: SliceKey) returns (r: Option<int>)
    requires Integrity(w)
    ensures r.Some? ==> r.value in w.usns.rows && UsnKey(w.usns.rows, r.value) == key
    ensures r.Some? <==> key in ForestOf(w).slices
  {
    PathsAreUnique(w);
    ghost var m := UsnEntries(w.usns.rows);
    if u :| u in w.usns.rows && UsnKey(w.usns.rows, u) == key {
      assert m[u].key == key;
      r := Some(u);
    } else {
      assert forall i :: i in m ==> m[i].key != key;
      r := None;
    }
  }

  lemma UsnLevel(ues: map<int, UeRow>, catalog: map<int, Slice>, usns: map<int, UsnRow>, id: int, row: UsnRow)
    requires UsnsOk(ues, catalog, usns) && id !in usns
    requires row.ueId in ues && row.nssaiId in catalog
    requires SliceKey(row.ueId, row.nssaiId) !in SliceLevel(usns)
    ensures UsnsOk(ues, catalog, usns[id := row])
    ensures SliceLevel(usns[id := row]) == SliceLevel(usns)[SliceKey(row.ueId, row.nssaiId) := row.isDefault]
  {
    var e := Entry(SliceKey(row.ueId, row.nssaiId), row.isDefault);
    IndexAdd(UsnEntries(usns), id, e);
    assert UsnEntries(usns[id := row]) == UsnEntries(usns)[id := e];
  }

  lemma BelowUsn(usns: map<int, UsnRow>, usds: map<int, UsdRow>, sbs: map<int, SbRow>, id: int, row: UsnRow)
    requires UsdParents(usns, usds) && SbParents(usds, sbs) && id !in usns
    ensures UsdParents(usns[id := row], usds)
    ensures UsdEntries(usns[id := row], usds) == UsdEntries(usns, usds)
    ensures SbEntries(usns[id := row], usds, sbs) == SbEntries(usns, usds, sbs)
  {
  }

  lemma UsnInserted(w: Tables, row: UsnRow)
    requires Integrity(w)
    requires row.ueId in w.ues.rows && row.nssaiId in w.catalog.rows
    requires SliceKey(row.ueId, row.nssaiId) !in ForestOf(w).slices
    ensures Integrity(w.(usns := w.usns.Add(row)))
    ensures ForestOf(w.(usns := w.usns.Add(row))) ==
      ForestOf(w).(slices := ForestOf(w).slices[SliceKey(row.ueId, row.nssaiId) := row.isDefault])
  {
    UsnLevel(w.ues.rows, w.catalog.rows, w.usns.rows, w.usns.next, row);
    BelowUsn(w.usns.rows, w.usds.rows, w.sbs.rows, w.usns.next, row);
  }

  // INSERT OR IGNORE INTO ue_subscribed_nssai. None when the foreign key fails.
  method InsertUsn(w: Tables, ue: int, nssai: int, flag: bool) returns (r: Option<Tables>)
    requires Integrity(w) && ue in w.ues.rows
    ensures r.Some? <==> nssai in w.catalog.rows
    ensures r.Some? ==> Integrity(r.value) && RowsKept(w, r.value) && r.value == w.(usns := r.value.usns)
    ensures r.Some? ==> ViewOf(r.value) == ViewOf(w).(forest := PutSliceKey(ForestOf(w), SliceKey(ue, nssai), flag))
  {
    var found := FindUsn(w, SliceKey(ue, nssai));
    if found.Some? {
      r := Some(w);
    } else if nssai !in w.catalog.rows {
      r := None;
    } else {
      UsnInserted(w, UsnRow(ue, nssai, flag));
      r := Some(w.(usns := w.usns.Add(UsnRow(ue, nssai, flag))));
    }
  }

  // ---- ue_slice_dnn ----

  method FindUsd(w: Tables, usn: int, dnn: string) returns (r: Option<int>)
    requires Integrity(w) && usn in w.usns.rows
    ensures r.Some? ==> r.value in w.usds.rows && w.usds.rows[r.value].usnId == usn && w.usds.rows[r.value].dnn == dnn
    ensures r.Some? <==> DnnKey(UsnKey(w.usns.rows, usn), dnn) in ForestOf(w).dnns
  {
    PathsAreUnique(w);
    if d :| d in w.usds.rows && w.usds.rows[d].usnId == usn && w.usds.rows[d].dnn == dnn {
      assert UsdEntries(w.usns.rows, w.usds.rows)[d].key == DnnKey(UsnKey(w.usns.rows, usn), dnn);
      r := Some(d);
    } else {
      UsdAbsent(w.usns.rows, w.usds.rows, usn, dnn);
      r := None;
    }
  }

  lemma UsdAbsent(usns: map<int, UsnRow>, usds: map<int, UsdRow>, usn: int, dnn: string)
    requires Injective(UsnEntries(usns)) && UsdParents(usns, usds) && Injective(UsdEntries(usns, usds)) && usn in usns
    requires forall d :: d in usds ==> !(usds[d].usnId == usn && usds[d].dnn == dnn)
    ensures DnnKey(UsnKey(usns, usn), dnn) !in DnnLevel(usns, usds)
  {
    var m := UsdEntries(usns, usds);
    forall d | d in m
      ensures m[d].key != DnnKey(UsnKey(usns, usn), dnn)
    {
      assert UsnEntries(usns)[usds[d].usnId].key == m[d].key.slice;
      assert UsnEntries(usns)[usn].key == UsnKey(usns, usn);
    }
  }

  lemma UsdLevel(usns: map<int, UsnRow>, usds: map<int, UsdRow>, id: int, row: UsdRow)
    requires UsdParents(usns, usds) && Injective(UsdEntries(usns, usds)) && id !in usds && row.usnId in usns
    requires DnnKey(UsnKey(usns, row.usnId), row.dnn) !in DnnLevel(usns, usds)
    ensures UsdParents(usns, usds[id := row]) && Injective(UsdEntries(usns, usds[id := row]))
    ensures forall i :: i in usds ==> !SameUsd(usds[i], row)
    ensures DnnLevel(usns, usds[id := row]) ==
      DnnLevel(usns, usds)[DnnKey(UsnKey(usns, row.usnId), row.dnn) := row.isDefault]
  {
    var m := UsdEntries(usns, usds);
    var e := Entry(DnnKey(UsnKey(usns, row.usnId), row.dnn), row.isDefault);
    forall i | i in usds
      ensures !SameUsd(usds[i], row)
    {
      assert m[i].key in DnnLevel(usns, usds);
    }
    IndexAdd(m, id, e);
    assert UsdEntries(usns, usds[id := row]) == m[id := e];
  }

  lemma BelowUsd(usns: map<int, UsnRow>, usds: map<int, UsdRow>, sbs: map<int, SbRow>, id: int, row: UsdRow)
    requires UsdParents(usns, usds) && SbParents(usds, sbs) && id !in usds && row.usnId in usns
    ensures SbParents(usds[id := row], sbs)
    ensures SbEntries(usns, usds[id := row], sbs) == SbEntries(usns, usds, sbs)
  {
  }

  lemma UsdInserted(w: Tables, row: UsdRow)
    requires Integrity(w)
    requires row.usnId in w.usns.rows && row.dnn in w.apns
    requires DnnKey(UsnKey(w.usns.rows, row.usnId), row.dnn) !in ForestOf(w).dnns
    ensures Integrity(w.(usds := w.usds.Add(row)))
    ensures ForestOf(w.(usds := w.usds.Add(row))) ==
      ForestOf(w).(dnns := ForestOf(w).dnns[DnnKey(UsnKey(w.usns.rows, row.usnId), row.dnn) := row.isDefault])
  {
    PathsAreUnique(w);
    UsdLevel(w.usns.rows, w.usds.rows, w.usds.next, row);
    BelowUsd(w.usns.rows, w.usds.rows, w.sbs.rows, w.usds.next, row);
  }

  // INSERT OR IGNORE INTO ue_slice_dnn. None when the foreign key fails.
  method InsertUsd(w: Tables, usn: int, dnn: string, flag: bool) returns (r: Option<Tables>)
    requires Integrity(w) && usn in w.usns.rows
    ensures r.Some? <==> dnn in w.apns
    ensures r.Some? ==> Integrity(r.value) && RowsKept(w, r.value) && r.value == w.(usds := r.value.usds)
    ensures r.Some? ==> ViewOf(r.value) ==
                        ViewOf(w).(forest := PutDnnKey(ForestOf(w), DnnKey(UsnKey(w.usns.rows, usn), dnn), flag))
  {
    var found := FindUsd(w, usn, dnn);
    if found.Some? {
      r := Some(w);
    } else if dnn !in w.apns {
      r := None;
    } else {
      UsdInserted(w, UsdRow(usn, dnn, flag));
      r := Some(w.(usds := w.usds.Add(UsdRow(usn, dnn, flag))));
    }
  }

  // ---- service_bindings ----

  method FindSb(w: Tables, usd: int, service: string) returns (r: Option<int>)
    requires Integrity(w) && usd in w.usds.rows
    ensures r.Some? ==> r.value in w.sbs.rows && w.sbs.rows[r.value].usdId == usd && w.sbs.rows[r.value].service == service
    ensures r.Some? <==> ServiceKey(UsdKey(w.usns.rows, w.usds.rows, usd), service) in ForestOf(w).services
  {
    PathsAreUnique(w);
    if b :| b in w.sbs.rows && w.sbs.rows[b].usdId == usd && w.sbs.rows[b].service == service {
      assert SbEntries(w.usns.rows, w.usds.rows, w.sbs.rows)[b].key ==
             ServiceKey(UsdKey(w.usns.rows, w.usds.rows, usd), service);
      r := Some(b);
    } else {
      SbAbsent(w.usns.rows, w.usds.rows, w.sbs.rows, usd, service);
      r := None;
    }
  }

  lemma SbAbsent(usns: map<int, UsnRow>, usds: map<int, UsdRow>, sbs: map<int, SbRow>, usd: int, service: string)
    requires UsdParents(usns, usds) && Injective(UsdEntries(usns, usds)) && usd in usds
    requires SbParents(usds, sbs) && Injective(SbEntries(usns, usds, sbs))
    requires forall b :: b in sbs ==> !(sbs[b].usdId == usd && sbs[b].service == service)
    ensures ServiceKey(UsdKey(usns, usds, usd), service) !in ServiceLevel(usns, usds, sbs)
  {
    var m := SbEntries(usns, usds, sbs);
    forall b | b in m
      ensures m[b].key != ServiceKey(UsdKey(usns, usds, usd), service)
    {
      assert UsdEntries(usns, usds)[sbs[b].usdId].key == m[b].key.dnn;
      assert UsdEntries(usns, usds)[usd].key == UsdKey(usns, usds, usd);
    }
  }

  lemma SbLevel(usns: map<int, UsnRow>, usds: map<int, UsdRow>, sbs: map<int, SbRow>, id: int, row: SbRow)
    requires UsdParents(usns, usds) && SbParents(usds, sbs) && Injective(SbEntries(usns, usds, sbs))
    requires id !in sbs && row.usdId in usds
    requires ServiceKey(UsdKey(usns, usds, row.usdId), row.service) !in ServiceLevel(usns, usds, sbs)
    ensures SbParents(usds, sbs[id := row]) && Injective(SbEntries(usns, usds, sbs[id := row]))
    ensures forall i :: i in sbs ==> !SameSb(sbs[i], row)
    ensures ServiceLevel(usns, usds, sbs[id := row]) ==
      ServiceLevel(usns, usds, sbs)[ServiceKey(UsdKey(usns, usds, row.usdId), row.service) := row.isDefault]
  {
    var m := SbEntries(usns, usds, sbs);
    var e := Entry(ServiceKey(UsdKey(usns, usds, row.usdId), row.service), row.isDefault);
    forall i | i in sbs
      ensures !SameSb(sbs[i], row)
    {
      assert m[i].key in ServiceLevel(usns, usds, sbs);
    }
    IndexAdd(m, id, e);
    assert SbEntries(usns, usds, sbs[id := row]) == m[id := e];
  }

  lemma SbInserted(w: Tables, row: SbRow)
    requires Integrity(w)
    requires row.usdId in w.usds.rows && row.service in w.services
    requires ServiceKey(UsdKey(w.usns.rows, w.usds.rows, row.usdId), row.service) !in ForestOf(w).services
    ensures Integrity(w.(sbs := w.sbs.Add(row)))
    ensures ForestOf(w.(sbs := w.sbs.Add(row))) ==
      ForestOf(w).(services := ForestOf(w).services[ServiceKey(UsdKey(w.usns.rows, w.usds.rows, row.usdId), row.service) := row.isDefault])
  {
    PathsAreUnique(w);
    SbLevel(w.usns.rows, w.usds.rows, w.sbs.rows, w.sbs.next, row);
  }

  // INSERT OR IGNORE INTO service_bindings. None when the foreign key fails.
  method InsertSb(w: Tables, usd: int, service: string, flag: bool) returns (r: Option<Tables>)
    requires Integrity(w) && usd in w.usds.rows
    ensures r.Some? <==> service in w.services
    ensures r.Some? ==> Integrity(r.value) && RowsKept(w, r.value) && r.value == w.(sbs := r.value.sbs)
    ensures r.Some? ==> ViewOf(r.value) ==
                        ViewOf(w).(forest := PutServiceKey(ForestOf(w), ServiceKey(UsdKey(w.usns.rows, w.usds.rows, usd), service), flag))
  {
    var found := FindSb(w, usd, service);
    if found.Some? {
      r := Some(w);
    } else if service !in w.services {
      r := None;
    } else {
      SbInserted(w, SbRow(usd, service, flag));
      r := Some(w.(sbs := w.sbs.Add(SbRow(usd, service, flag))));
    }
  }

  lemma SbFlagged(usns: map<int, UsnRow>, usds: map<int, UsdRow>, sbs: map<int, SbRow>, b: int, flag: bool)
    requires UsdParents(usns, usds) && SbParents(usds, sbs) && Injective(SbEntries(usns, usds, sbs)) && b in sbs
    ensures var sbs' := sbs[b := sbs[b].(isDefault := flag)];
      && SbParents(usds, sbs') && Injective(SbEntries(usns, usds, sbs'))
      && ServiceLevel(usns, usds, sbs') == ServiceLevel(usns, usds, sbs)[SbKey(usns, usds, sbs, b) := flag]
  {
    var sbs' := sbs[b := sbs[b].(isDefault := flag)];
    IndexSet(SbEntries(usns, usds, sbs), b, flag);
    assert SbEntries(usns, usds, sbs') == SbEntries(usns, usds, sbs)[b := Entry(SbKey(usns, usds, sbs, b), flag)];
  }

  // UPDATE service_bindings SET is_default WHERE slice_dnn_id AND service_name: at most the one row b.
  method UpdateSb(w: Tables, b: int, flag: bool) returns (w': Tables)
    requires Integrity(w) && b in w.sbs.rows
    ensures w' == w.(sbs := w.sbs.(rows := w.sbs.rows[b := w.sbs.rows[b].(isDefault := flag)]))
    ensures Integrity(w')
    ensures ViewOf(w') == ViewOf(w).(forest :=
      ForestOf(w).(services := ForestOf(w).services[SbKey(w.usns.rows, w.usds.rows, w.sbs.rows, b) := flag]))
  {
    PathsAreUnique(w);
    SbFlagged(w.usns.rows, w.usds.rows, w.sbs.rows, b, flag);
    w' := w.(sbs := w.sbs.(rows := w.sbs.rows[b := w.sbs.rows[b].(isDefault := flag)]));
  }

  // ---- nssai_catalog ----

  lemma GetOrCreateFound(cat: Table<Slice>, sst: int, sd: string, id: int)
    requires Finds(cat.rows, sst, Trim(sd), id)
    ensures GetOrCreate(cat, sst, sd) == (cat, id)
  {
  }

  // getOrCreateNSSAICatalog: SELECT the id, or INSERT the row.
  method CatalogGetOrCreate(w: Tables, sst: int, sd: string) returns (w': Tables, id: int)
    requires Integrity(w)
    ensures Integrity(w') && RowsKept(w, w')
    ensures (w'.catalog, id) == GetOrCreate(w.catalog, sst, sd)
    ensures w' == w.(catalog := w'.catalog) && ViewOf(w') == ViewOf(w).(catalog := w'.catalog)
    ensures id in w'.catalog.rows && w'.catalog.rows[id].sst == sst
    ensures if Trim(sd) == "" then w'.catalog.rows[id].sd in {None, Some("")} else w'.catalog.rows[id].sd == Some(Trim(sd))
    ensures w'.catalog == w.catalog <==>
            exists i :: i in w.catalog.rows && HasColumns(w.catalog.rows[i], sst, Trim(sd))
  {
    GetOrCreateColumns(w.catalog, sst, sd);
    var d := Trim(sd);
    var ids := set i | i in w.catalog.rows && SameSlice(w.catalog.rows[i], sst, d);
    if ids != {} {
      ghost var low := LowestExists(ids);
      id :| id in ids && forall j :: j in ids ==> id <= j;
      assert forall j :: j in w.catalog.rows && SameSlice(w.catalog.rows[j], sst, d) ==> j in ids;
      GetOrCreateFound(w.catalog, sst, sd, id);
      w' := w;
    } else {
      forall i | i in w.catalog.rows
        ensures !SameSlice(w.catalog.rows[i], sst, d)
      {
        assert i !in ids;
      }
      id := w.catalog.next;
      w' := w.(catalog := w.catalog.Add(Slice(sst, NullIfEmpty(d))));
      CatalogGrows(w, Slice(sst, NullIfEmpty(d)));
    }
  }

  lemma CatalogGrows(w: Tables, row: Slice)
    requires Integrity(w)
    requires forall i :: i in w.catalog.rows ==> w.catalog.rows[i] != row || row.sd.None?
    ensures Integrity(w.(catalog := w.catalog.Add(row)))
  {
  }

  // ---- ue and ue_auth_data ----

  method FindUeRow(w: Tables, imsi: string) returns (r: Option<int>)
    requires UesOk(w.ues.rows)
    ensures r == FindUe(w.ues.rows, imsi)
  {
    if u :| u in w.ues.rows && w.ues.rows[u].imsi == imsi {
      r := Some(u);
    } else {
      r := None;
    }
  }

  lemma UeStored(rows: map<int, UeRow>, u: int, row: UeRow)
    requires UesOk(rows)
    requires if u in rows then rows[u].imsi == row.imsi else forall i :: i in rows ==> rows[i].imsi != row.imsi
    ensures UesOk(rows[u := row]) && FindUe(rows[u := row], row.imsi) == Some(u)
  {
    var rows' := rows[u := row];
    assert rows'[u].imsi == row.imsi;
    forall i | i in rows' && rows'[i].imsi == row.imsi
      ensures i == u
    {
    }
  }

  lemma UesStored(w: Tables, ues: Table<UeRow>)
    requires Integrity(w) && ues.Sound() && UesOk(ues.rows)
    requires forall u :: u in w.ues.rows ==> u in ues.rows
    ensures Integrity(w.(ues := ues)) && ViewOf(w.(ues := ues)) == ViewOf(w).(ues := ues)
  {
  }

  // INSERT INTO ue, for an IMSI that has no row.
  method InsertUe(w: Tables, row: UeRow) returns (w': Tables, id: int)
    requires Integrity(w) && FindUe(w.ues.rows, row.imsi) == None
    ensures w' == w.(ues := w.ues.Add(row)) && id == w.ues.next
    ensures Integrity(w') && ViewOf(w') == ViewOf(w).(ues := w'.ues)
    ensures id in w'.ues.rows && FindUe(w'.ues.rows, row.imsi) == Some(id)
  {
    id := w.ues.next;
    w' := w.(ues := w.ues.Add(row));
    UeStored(w.ues.rows, id, row);
    UesStored(w, w'.ues);
  }

  // UPDATE ue WHERE id, keeping the IMSI.
  method UpdateUe(w: Tables, u: int, row: UeRow) returns (w': Tables)
    requires Integrity(w) && u in w.ues.rows && row.imsi == w.ues.rows[u].imsi
    ensures w' == w.(ues := w.ues.(rows := w.ues.rows[u := row]))
    ensures Integrity(w') && ViewOf(w') == ViewOf(w).(ues := w'.ues)
    ensures FindUe(w'.ues.rows, row.imsi) == Some(u)
  {
    w' := w.(ues := w.ues.(rows := w.ues.rows[u := row]));
    UeStored(w.ues.rows, u, row);
    UesStored(w, w'.ues);
  }

  method FindAuth(w: Tables, ue: int) returns (r: Option<AuthData>)
    requires Integrity(w)
    ensures r.Some? <==> ue in ViewOf(w).auths
    ensures r.Some? ==> r.value == ViewOf(w).auths[ue]
  {
    if a :| a in w.auths.rows && w.auths.rows[a].ueId == ue {
      assert AuthEntries(w.auths.rows)[a].key == ue;
      r := Some(w.auths.rows[a].data);
    } else {
      assert forall a :: a in AuthEntries(w.auths.rows) ==> AuthEntries(w.auths.rows)[a].key != ue;
      r := None;
    }
  }

  // UPDATE or INSERT the one authentication row of a UE.
  method UpsertAuth(w: Tables, ue: int, data: AuthData) returns (w': Tables)
    requires Integrity(w) && ue in w.ues.rows
    ensures Integrity(w') && w' == w.(auths := w'.auths)
    ensures ViewOf(w') == ViewOf(w).(auths := ViewOf(w).auths[ue := data])
    ensures (forall a :: a in w.auths.rows ==> w.auths.rows[a].ueId != ue) ==> Within(w.auths.rows, w'.auths.rows)
  {
    var auths := w.auths;
    if a :| a in auths.rows && auths.rows[a].ueId == ue {
      auths := auths.(rows := auths.rows[a := AuthRow(ue, data)]);
      AuthReplaced(w.ues.rows, w.auths.rows, a, data);
    } else {
      AuthAdded(w.ues.rows, w.auths.rows, auths.next, ue, data);
      auths := auths.Add(AuthRow(ue, data));
    }
    w' := w.(auths := auths);
  }

  lemma AuthReplaced(ues: map<int, UeRow>, rows: map<int, AuthRow>, a: int, data: AuthData)
    requires AuthsOk(ues, rows) && a in rows
    ensures AuthsOk(ues, rows[a := AuthRow(rows[a].ueId, data)])
    ensures AuthsOf(ues, rows[a := AuthRow(rows[a].ueId, data)]) == AuthsOf(ues, rows)[rows[a].ueId := data]
  {
    IndexSet(AuthEntries(rows), a, data);
    assert AuthEntries(rows[a := AuthRow(rows[a].ueId, data)]) == AuthEntries(rows)[a := Entry(rows[a].ueId, data)];
  }

  lemma AuthAdded(ues: map<int, UeRow>, rows: map<int, AuthRow>, id: int, ue: int, data: AuthData)
    requires AuthsOk(ues, rows) && id !in rows && ue in ues
    requires forall a :: a in rows ==> rows[a].ueId != ue
    ensures AuthsOk(ues, rows[id := AuthRow(ue, data)])
    ensures AuthsOf(ues, rows[id := AuthRow(ue, data)]) == AuthsOf(ues, rows)[ue := data]
  {
    assert forall a :: a in AuthEntries(rows) ==> AuthEntries(rows)[a].key != ue;
    IndexAdd(AuthEntries(rows), id, Entry(ue, data));
    assert AuthEntries(rows[id := AuthRow(ue, data)]) == AuthEntries(rows)[id := Entry(ue, data)];
  }

  // ---- Deletes, with ON DELETE CASCADE ----

  function UsnsWithout(usns: map<int, UsnRow>, ue: int): map<int, UsnRow> {
    map i | i in usns && usns[i].ueId != ue :: usns[i]
  }

  function UsdsUnder(usns: map<int, UsnRow>, usds: map<int, UsdRow>): map<int, UsdRow> {
    map i | i in usds && usds[i].usnId in usns :: usds[i]
  }

  function SbsUnder(usds: map<int, UsdRow>, sbs: map<int, SbRow>): map<int, SbRow> {
    map i | i in sbs && sbs[i].usdId in usds :: sbs[i]
  }

  // DELETE FROM ue_subscribed_nssai WHERE ue_id, cascading to DNN and binding rows.
  function SubscriptionsDeleted(w: Tables, ue: int): Tables {
    var usns := UsnsWithout(w.usns.rows, ue);
    var usds := UsdsUnder(usns, w.usds.rows);
    w.(usns := w.usns.(rows := usns), usds := w.usds.(rows := usds), sbs := w.sbs.(rows := SbsUnder(usds, w.sbs.rows)))
  }

  lemma UsnsDropped(ues: map<int, UeRow>, catalog: map<int, Slice>, usns: map<int, UsnRow>, ue: int)
    requires UsnsOk(ues, catalog, usns)
    ensures UsnsOk(ues, catalog, UsnsWithout(usns, ue))
    ensures SliceLevel(UsnsWithout(usns, ue)) == map k | k in SliceLevel(usns) && k.ue != ue :: SliceLevel(usns)[k]
  {
    IndexDrop(UsnEntries(usns), UsnEntries(UsnsWithout(usns, ue)), (k: SliceKey) => k.ue == ue);
  }

  lemma UsdsLeft(apns: set<string>, usns: map<int, UsnRow>, usds: map<int, UsdRow>, ue: int)
    requires UsdsOk(apns, usns, usds)
    ensures var usns' := UsnsWithout(usns, ue);
      UsdsOk(apns, usns', UsdsUnder(usns', usds))
  {
    var usns' := UsnsWithout(usns, ue);
    var usds' := UsdsUnder(usns', usds);
    assert forall i :: i in usds' ==> i in usds && usds'[i] == usds[i];
  }

  lemma UsdEntriesLeft(usns: map<int, UsnRow>, usds: map<int, UsdRow>, ue: int)
    requires UsdParents(usns, usds)
    ensures var usns' := UsnsWithout(usns, ue); var usds' := UsdsUnder(usns', usds);
      var m := UsdEntries(usns, usds); var m' := UsdEntries(usns', usds');
      && (forall i :: i in m' <==> i in m && m[i].key.Ue() != ue)
      && (forall i :: i in m' ==> m'[i] == m[i])
  {
  }

  lemma UsdsDropped(usns: map<int, UsnRow>, usds: map<int, UsdRow>, ue: int)
    requires UsdParents(usns, usds) && Injective(UsdEntries(usns, usds))
    ensures var usns' := UsnsWithout(usns, ue); var usds' := UsdsUnder(usns', usds);
      && UsdParents(usns', usds') && Injective(UsdEntries(usns', usds'))
      && DnnLevel(usns', usds') == map k | k in DnnLevel(usns, usds) && k.Ue() != ue :: DnnLevel(usns, usds)[k]
  {
    var usns' := UsnsWithout(usns, ue);
    UsdEntriesLeft(usns, usds, ue);
    IndexDrop(UsdEntries(usns, usds), UsdEntries(usns', UsdsUnder(usns', usds)), (k: DnnKey) => k.Ue() == ue);
  }

  lemma SbsLeft(services: map<string, Resource>, usds: map<int, UsdRow>, usds': map<int, UsdRow>, sbs: map<int, SbRow>)
    requires SbsOk(services, usds, sbs)
    ensures SbsOk(services, usds', SbsUnder(usds', sbs))
  {
    assert forall i :: i in SbsUnder(usds', sbs) ==> i in sbs && SbsUnder(usds', sbs)[i] == sbs[i];
  }

  lemma SbEntriesLeft(usns: map<int, UsnRow>, usds: map<int, UsdRow>, sbs: map<int, SbRow>, ue: int)
    requires UsdParents(usns, usds) && SbParents(usds, sbs)
    ensures var usns' := UsnsWithout(usns, ue); var usds' := UsdsUnder(usns', usds); var sbs' := SbsUnder(usds', sbs);
      var m := SbEntries(usns, usds, sbs); var m' := SbEntries(usns', usds', sbs');
      && (forall i :: i in m' <==> i in m && m[i].key.Ue() != ue)
      && (forall i :: i in m' ==> m'[i] == m[i])
  {
  }

  lemma SbsDropped(usns: map<int, UsnRow>, usds: map<int, UsdRow>, sbs: map<int, SbRow>, ue: int)
    requires UsdParents(usns, usds) && SbParents(usds, sbs) && Injective(SbEntries(usns, usds, sbs))
    ensures var usns' := UsnsWithout(usns, ue); var usds' := UsdsUnder(usns', usds); var sbs' := SbsUnder(usds', sbs);
      && UsdParents(usns', usds') && SbParents(usds', sbs') && Injective(SbEntries(usns', usds', sbs'))
      && ServiceLevel(usns', usds', sbs') ==
         map k | k in ServiceLevel(usns, usds, sbs) && k.Ue() != ue :: ServiceLevel(usns, usds, sbs)[k]
  {
    var usns' := UsnsWithout(usns, ue);
    var usds' := UsdsUnder(usns', usds);
    SbEntriesLeft(usns, usds, sbs, ue);
    IndexDrop(SbEntries(usns, usds, sbs), SbEntries(usns', usds', SbsUnder(usds', sbs)), (k: ServiceKey) => k.Ue() == ue);
  }

  method DeleteSubscriptions(w: Tables, ue: int) returns (w': Tables)
    requires Integrity(w)
    ensures w' == SubscriptionsDeleted(w, ue)
    ensures Integrity(w')
    ensures ViewOf(w') == ViewOf(w).(forest := Without(ForestOf(w), ue))
  {
    SubscriptionsGone(w, ue);
    w' := SubscriptionsDeleted(w, ue);
  }

  lemma SubscriptionsGone(w: Tables, ue: int)
    requires Integrity(w)
    ensures Integrity(SubscriptionsDeleted(w, ue))
    ensures ViewOf(SubscriptionsDeleted(w, ue)) == ViewOf(w).(forest := Without(ForestOf(w), ue))
  {
    UsnsDropped(w.ues.rows, w.catalog.rows, w.usns.rows, ue);
    PathsAreUnique(w);
    UsdsLeft(w.apns, w.usns.rows, w.usds.rows, ue);
    UsdsDropped(w.usns.rows, w.usds.rows, ue);
    SbsLeft(w.services, w.usds.rows, UsdsUnder(UsnsWithout(w.usns.rows, ue), w.usds.rows), w.sbs.rows);
    SbsDropped(w.usns.rows, w.usds.rows, w.sbs.rows, ue);
  }

  // DELETE FROM ue WHERE imsi, cascading to everything the UE owns.
  function UeDeleted(w: Tables, ue: int): Tables {
    var w1 := SubscriptionsDeleted(w, ue);
    w1.(ues := w.ues.(rows := w.ues.rows - {ue}),
        auths := w.auths.(rows := map a | a in w.auths.rows && w.auths.rows[a].ueId != ue :: w.auths.rows[a]))
  }

  lemma AuthsDropped(ues: map<int, UeRow>, rows: map<int, AuthRow>, ue: int)
    requires AuthsOk(ues, rows)
    ensures var rows' := map a | a in rows && rows[a].ueId != ue :: rows[a];
      && AuthsOk(ues - {ue}, rows')
      && AuthsOf(ues - {ue}, rows') == AuthsOf(ues, rows) - {ue}
  {
    var rows' := map a | a in rows && rows[a].ueId != ue :: rows[a];
    IndexDrop(AuthEntries(rows), AuthEntries(rows'), (k: int) => k == ue);
  }

  method DeleteUe(w: Tables, ue: int) returns (w': Tables)
    requires Integrity(w)
    ensures w' == UeDeleted(w, ue)
    ensures Integrity(w')
    ensures ViewOf(w') == ViewOf(w).(ues := w.ues.(rows := w.ues.rows - {ue}), auths := ViewOf(w).auths - {ue},
                                     forest := Without(ForestOf(w), ue))
  {
    SubscriptionsGone(w, ue);
    AuthsDropped(w.ues.rows, w.auths.rows, ue);
    w' := UeDeleted(w, ue);
  }

  // DELETE FROM service_bindings, by a filter on the path of the row.
  function SbsUnfiltered(usns: map<int, UsnRow>, usds: map<int, UsdRow>, sbs: map<int, SbRow>,
                         catalog: map<int, Slice>, ue: int, f: BindingFilter): map<int, SbRow>
    requires UsdParents(usns, usds) && SbParents(usds, sbs)
  {
    map i | i in sbs && !Filtered(catalog, ue, f, SbKey(usns, usds, sbs, i)) :: sbs[i]
  }

  lemma SbEntriesUnbound(usns: map<int, UsnRow>, usds: map<int, UsdRow>, sbs: map<int, SbRow>,
                         catalog: map<int, Slice>, ue: int, f: BindingFilter)
    requires UsdParents(usns, usds) && SbParents(usds, sbs)
    ensures var sbs' := SbsUnfiltered(usns, usds, sbs, catalog, ue, f);
      && SbParents(usds, sbs')
      && var m := SbEntries(usns, usds, sbs); var m' := SbEntries(usns, usds, sbs');
         && (forall i :: i in m' <==> i in m && !Filtered(catalog, ue, f, m[i].key))
         && (forall i :: i in m' ==> m'[i] == m[i])
  {
  }

  lemma SbsUnbound(usns: map<int, UsnRow>, usds: map<int, UsdRow>, sbs: map<int, SbRow>,
                   catalog: map<int, Slice>, ue: int, f: BindingFilter)
    requires UsdParents(usns, usds) && SbParents(usds, sbs) && Injective(SbEntries(usns, usds, sbs))
    ensures var sbs' := SbsUnfiltered(usns, usds, sbs, catalog, ue, f);
      && SbParents(usds, sbs') && Injective(SbEntries(usns, usds, sbs'))
      && ServiceLevel(usns, usds, sbs') == Unbound(ServiceLevel(usns, usds, sbs), catalog, ue, f)
  {
    var sbs' := SbsUnfiltered(usns, usds, sbs, catalog, ue, f);
    SbEntriesUnbound(usns, usds, sbs, catalog, ue, f);
    IndexDrop(SbEntries(usns, usds, sbs), SbEntries(usns, usds, sbs'), (k: ServiceKey) => Filtered(catalog, ue, f, k));
  }

  // The rows of a table are as many as the keys of their index.
  lemma ServicesSize(usns: map<int, UsnRow>, usds: map<int, UsdRow>, sbs: map<int, SbRow>)
    requires UsdParents(usns, usds) && SbParents(usds, sbs) && Injective(SbEntries(usns, usds, sbs))
    ensures |ServiceLevel(usns, usds, sbs)| == |sbs|
  {
    IndexSize(SbEntries(usns, usds, sbs));
    assert SbEntries(usns, usds, sbs).Keys == sbs.Keys;
  }

  method DeleteBindings(w: Tables, ue: int, f: BindingFilter) returns (w': Tables, deleted: nat)
    requires Integrity(w)
    ensures deleted == |Matching(ForestOf(w).services, w.catalog.rows, ue, f)|
    ensures Integrity(w') && w' == w.(sbs := w'.sbs) && Within(w'.sbs.rows, w.sbs.rows)
    ensures ViewOf(w') == ViewOf(w).(forest := ForestOf(w).(services :=
                            Unbound(ForestOf(w).services, w.catalog.rows, ue, f)))
  {
    PathsAreUnique(w);
    SbsUnbound(w.usns.rows, w.usds.rows, w.sbs.rows, w.catalog.rows, ue, f);
    var left := SbsUnfiltered(w.usns.rows, w.usds.rows, w.sbs.rows, w.catalog.rows, ue, f);
    w' := w.(sbs := w.sbs.(rows := left));
    ServicesSize(w.usns.rows, w.usds.rows, w.sbs.rows);
    ServicesSize(w.usns.rows, w.usds.rows, left);
    UnboundSize(ForestOf(w).services, w.catalog.rows, ue, f);
    deleted := |w.sbs.rows| - |left|;
  }

  // DELETE FROM ue_slice_dnn WHERE subscribed_nssai_id, for each of some slices, cascading to bindings.
  function UsdsOff(usds: map<int, UsdRow>, gone: set<int>): map<int, UsdRow> {
    map i | i in usds && usds[i].usnId !in gone :: usds[i]
  }

  function KeysOf(usns: map<int, UsnRow>, gone: set<int>): set<SliceKey>
    requires forall u :: u in gone ==> u in usns
  {
    set u | u in gone :: UsnKey(usns, u)
  }

  lemma UsdEntriesCleared(usns: map<int, UsnRow>, usds: map<int, UsdRow>, gone: set<int>)
    requires Injective(UsnEntries(usns)) && UsdParents(usns, usds)
    requires forall u :: u in gone ==> u in usns
    ensures UsdParents(usns, UsdsOff(usds, gone))
    ensures var m, m' := UsdEntries(usns, usds), UsdEntries(usns, UsdsOff(usds, gone));
      && (forall i :: i in m' <==> i in m && m[i].key.slice !in KeysOf(usns, gone))
      && (forall i :: i in m' ==> m'[i] == m[i])
  {
    forall i | i in usds
      ensures UsnKey(usns, usds[i].usnId) in KeysOf(usns, gone) <==> usds[i].usnId in gone
    {
      OneOfKeys(usns, gone, usds[i].usnId);
    }
  }

  lemma UsdsCleared(usns: map<int, UsnRow>, usds: map<int, UsdRow>, gone: set<int>)
    requires Injective(UsnEntries(usns)) && UsdParents(usns, usds) && Injective(UsdEntries(usns, usds))
    requires forall u :: u in gone ==> u in usns
    ensures UsdParents(usns, UsdsOff(usds, gone)) && Injective(UsdEntries(usns, UsdsOff(usds, gone)))
    ensures DnnLevel(usns, UsdsOff(usds, gone)) ==
      map k | k in DnnLevel(usns, usds) && k.slice !in KeysOf(usns, gone) :: DnnLevel(usns, usds)[k]
  {
    UsdEntriesCleared(usns, usds, gone);
    var keys := KeysOf(usns, gone);
    IndexDrop(UsdEntries(usns, usds), UsdEntries(usns, UsdsOff(usds, gone)), (k: DnnKey) => k.slice in keys);
  }

  lemma OneOfKeys(usns: map<int, UsnRow>, gone: set<int>, u: int)
    requires Injective(UsnEntries(usns)) && u in usns
    requires forall x :: x in gone ==> x in usns
    ensures UsnKey(usns, u) in KeysOf(usns, gone) <==> u in gone
  {
    forall x | x in gone && UsnKey(usns, x) == UsnKey(usns, u)
      ensures x == u
    {
      assert UsnEntries(usns)[x].key == UsnEntries(usns)[u].key;
    }
  }

  lemma SbEntriesCleared(usns: map<int, UsnRow>, usds: map<int, UsdRow>, sbs: map<int, SbRow>, gone: set<int>)
    requires Injective(UsnEntries(usns)) && UsdParents(usns, usds) && SbParents(usds, sbs)
    requires forall u :: u in gone ==> u in usns
    ensures var usds' := UsdsOff(usds, gone); var sbs' := SbsUnder(usds', sbs);
      && UsdParents(usns, usds') && SbParents(usds', sbs')
      && var m := SbEntries(usns, usds, sbs); var m' := SbEntries(usns, usds', sbs');
         && (forall i :: i in m' <==> i in m && m[i].key.dnn.slice !in KeysOf(usns, gone))
         && (forall i :: i in m' ==> m'[i] == m[i])
  {
    forall i | i in sbs
      ensures UsnKey(usns, usds[sbs[i].usdId].usnId) in KeysOf(usns, gone) <==> usds[sbs[i].usdId].usnId in gone
    {
      OneOfKeys(usns, gone, usds[sbs[i].usdId].usnId);
    }
  }

  lemma SbsCleared(usns: map<int, UsnRow>, usds: map<int, UsdRow>, sbs: map<int, SbRow>, gone: set<int>)
    requires Injective(UsnEntries(usns)) && UsdParents(usns, usds)
    requires SbParents(usds, sbs) && Injective(SbEntries(usns, usds, sbs))
    requires forall u :: u in gone ==> u in usns
    ensures var usds' := UsdsOff(usds, gone); var sbs' := SbsUnder(usds', sbs);
      && UsdParents(usns, usds') && SbParents(usds', sbs') && Injective(SbEntries(usns, usds', sbs'))
      && ServiceLevel(usns, usds', sbs') ==
         map k | k in ServiceLevel(usns, usds, sbs) && k.dnn.slice !in KeysOf(usns, gone) :: ServiceLevel(usns, usds, sbs)[k]
  {
    SbEntriesCleared(usns, usds, sbs, gone);
    var usds', keys := UsdsOff(usds, gone), KeysOf(usns, gone);
    IndexDrop(SbEntries(usns, usds, sbs), SbEntries(usns, usds', SbsUnder(usds', sbs)), (k: ServiceKey) => k.dnn.slice in keys);
  }

  method DeleteDnns(w: Tables, gone: set<int>) returns (w': Tables)
    requires Integrity(w)
    requires forall u :: u in gone ==> u in w.usns.rows
    ensures Integrity(w') && w' == w.(usds := w'.usds, sbs := w'.sbs)
    ensures ViewOf(w') == ViewOf(w).(forest := DropDnns(ForestOf(w), KeysOf(w.usns.rows, gone)))
  {
    PathsAreUnique(w);
    UsdsCleared(w.usns.rows, w.usds.rows, gone);
    SbsCleared(w.usns.rows, w.usds.rows, w.sbs.rows, gone);
    var usds := UsdsOff(w.usds.rows, gone);
    SbsLeft(w.services, w.usds.rows, usds, w.sbs.rows);
    w' := w.(usds := w.usds.(rows := usds), sbs := w.sbs.(rows := SbsUnder(usds, w.sbs.rows)));
  }
}
