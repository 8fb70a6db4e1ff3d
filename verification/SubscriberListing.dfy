// SubscriptionTreeGet's queries: nested SELECTs with ORDER BY over the tables, proved to list the UE's tree.
module SubscriberListing {
  import opened Wrappers
  import opened SubscriberTables
  import opened SubscriberSpec
  import opened SubscriberTrees
  import opened Ordering

  // ---- The orders of the queries ----

  predicate ServiceLe(a: TreeService, b: TreeService) {
    ListedBefore(a.isDefault, a.serviceName, b.isDefault, b.serviceName)
  }

  // A row with its id.
  predicate DnnLe(a: (int, UsdRow), b: (int, UsdRow)) {
    ListedBefore(a.1.isDefault, a.1.dnn, b.1.isDefault, b.1.dnn)
  }

  // A slice row with its id, joined with its catalog row.
  predicate SliceLe(a: (int, UsnRow, Slice), b: (int, UsnRow, Slice)) {
    SliceBefore(a.2, b.2)
  }

  lemma ListedTotal(da: bool, a: string, db: bool, b: string)
    ensures ListedBefore(da, a, db, b) || ListedBefore(db, b, da, a)
  {
    TextLeTotal(a, b);
  }

  lemma ListedTransitive(da: bool, a: string, db: bool, b: string, dc: bool, c: string)
    requires ListedBefore(da, a, db, b) && ListedBefore(db, b, dc, c)
    ensures ListedBefore(da, a, dc, c)
  {
    if da == db && db == dc { TextLeTransitive(a, b, c); }
  }

  lemma ServiceOrder()
    ensures TotalOrder(ServiceLe)
  {
    forall a, b ensures ServiceLe(a, b) || ServiceLe(b, a) {
      ListedTotal(a.isDefault, a.serviceName, b.isDefault, b.serviceName);
    }
    forall a, b, c | ServiceLe(a, b) && ServiceLe(b, c) ensures ServiceLe(a, c) {
      ListedTransitive(a.isDefault, a.serviceName, b.isDefault, b.serviceName, c.isDefault, c.serviceName);
    }
  }

  lemma DnnOrder()
    ensures TotalOrder(DnnLe)
  {
    forall a, b ensures DnnLe(a, b) || DnnLe(b, a) {
      ListedTotal(a.1.isDefault, a.1.dnn, b.1.isDefault, b.1.dnn);
    }
    forall a, b, c | DnnLe(a, b) && DnnLe(b, c) ensures DnnLe(a, c) {
      ListedTransitive(a.1.isDefault, a.1.dnn, b.1.isDefault, b.1.dnn, c.1.isDefault, c.1.dnn);
    }
  }

  lemma SliceOrder()
    ensures TotalOrder(SliceLe)
  {
    forall a, b ensures SliceLe(a, b) || SliceLe(b, a) {
      if a.2.sd.Some? && b.2.sd.Some? { TextLeTotal(a.2.sd.value, b.2.sd.value); }
    }
    forall a, b, c | SliceLe(a, b) && SliceLe(b, c) ensures SliceLe(a, c) {
      if a.2.sd.Some? && b.2.sd.Some? && c.2.sd.Some? && a.2.sst == b.2.sst == c.2.sst {
        TextLeTransitive(a.2.sd.value, b.2.sd.value, c.2.sd.value);
      }
    }
  }

  // ---- What each SELECT reads ----

  lemma ServicesSelected(usns: map<int, UsnRow>, usds: map<int, UsdRow>, sbs: map<int, SbRow>, usd: int, x: TreeService)
    requires UsdParents(usns, usds) && SbParents(usds, sbs) && Injective(SbEntries(usns, usds, sbs)) && usd in usds
    requires Injective(UsdEntries(usns, usds))
    ensures (exists b :: b in sbs && sbs[b].usdId == usd && TreeService(sbs[b].service, sbs[b].isDefault) == x) <==>
            Flag(ServiceLevel(usns, usds, sbs), ServiceKey(UsdKey(usns, usds, usd), x.serviceName)) == Some(x.isDefault)
  {
    var m, k := SbEntries(usns, usds, sbs), ServiceKey(UsdKey(usns, usds, usd), x.serviceName);
    if b :| b in sbs && sbs[b].usdId == usd && TreeService(sbs[b].service, sbs[b].isDefault) == x {
      assert m[b].key == k;
    }
    if k in Index(m) {
      var b :| b in m && m[b].key == k;
      assert UsdEntries(usns, usds)[sbs[b].usdId].key == UsdEntries(usns, usds)[usd].key;
    }
  }

  method ListServices(w: Tables, usd: int) returns (out: seq<TreeService>)
    requires Integrity(w) && usd in w.usds.rows
    ensures ListsServices(ForestOf(w), UsdKey(w.usns.rows, w.usds.rows, usd), out)
  {
    var rows := set b | b in w.sbs.rows && w.sbs.rows[b].usdId == usd ::
      TreeService(w.sbs.rows[b].service, w.sbs.rows[b].isDefault);
    ServiceOrder();
    out := OrderBy(rows, ServiceLe);
    PathsAreUnique(w);
    ghost var d := UsdKey(w.usns.rows, w.usds.rows, usd);
    forall x
      ensures x in rows <==> Flag(ForestOf(w).services, ServiceKey(d, x.serviceName)) == Some(x.isDefault)
    {
      ServicesSelected(w.usns.rows, w.usds.rows, w.sbs.rows, usd, x);
    }
    ServicesListed(ForestOf(w), d, rows, out);
  }

  lemma ServicesListed(f: Forest, d: DnnKey, rows: set<TreeService>, out: seq<TreeService>)
    requires forall x :: x in rows <==> Flag(f.services, ServiceKey(d, x.serviceName)) == Some(x.isDefault)
    requires Ordered(rows, ServiceLe, out)
    ensures ListsServices(f, d, out)
  {
    forall k | k in f.services && k.dnn == d
      ensures TreeService(k.service, f.services[k]) in out
    {
      assert ServiceKey(d, k.service) == k;
      assert TreeService(k.service, f.services[k]) in rows;
    }
    forall i, j | 0 <= i < j < |out|
      ensures out[i].serviceName != out[j].serviceName
      ensures ListedBefore(out[i].isDefault, out[i].serviceName, out[j].isDefault, out[j].serviceName)
    {
      assert out[i] in rows && out[j] in rows && ServiceLe(out[i], out[j]);
    }
  }

  lemma DnnsSelected(usns: map<int, UsnRow>, usds: map<int, UsdRow>, usn: int)
    requires UsdParents(usns, usds) && Injective(UsdEntries(usns, usds)) && usn in usns && Injective(UsnEntries(usns))
    ensures forall d :: d in usds && usds[d].usnId == usn ==>
              Flag(DnnLevel(usns, usds), DnnKey(UsnKey(usns, usn), usds[d].dnn)) == Some(usds[d].isDefault)
    ensures forall k :: k in DnnLevel(usns, usds) && k.slice == UsnKey(usns, usn) ==>
              exists d :: d in usds && usds[d].usnId == usn && usds[d].dnn == k.dnn
    ensures forall c, d :: c in usds && d in usds && SameUsd(usds[c], usds[d]) && usds[c].usnId == usn ==> c == d
  {
    var m := UsdEntries(usns, usds);
    forall d | d in usds && usds[d].usnId == usn
      ensures Flag(DnnLevel(usns, usds), DnnKey(UsnKey(usns, usn), usds[d].dnn)) == Some(usds[d].isDefault)
    {
      assert m[d].key == DnnKey(UsnKey(usns, usn), usds[d].dnn);
    }
    forall k | k in DnnLevel(usns, usds) && k.slice == UsnKey(usns, usn)
      ensures exists d :: d in usds && usds[d].usnId == usn && usds[d].dnn == k.dnn
    {
      var d :| d in m && m[d].key == k;
      assert UsnEntries(usns)[usds[d].usnId].key == UsnEntries(usns)[usn].key;
    }
    forall c, d | c in usds && d in usds && SameUsd(usds[c], usds[d]) && usds[c].usnId == usn
      ensures c == d
    {
      assert m[c].key == m[d].key;
    }
  }

  // The i-th listed DNN is the i-th row, with its bindings.
  ghost predicate DnnOfRow(f: Forest, s: SliceKey, row: (int, UsdRow), x: TreeDnn) {
    x.dnn == row.1.dnn && x.isDefault == row.1.isDefault && ListsServices(f, DnnKey(s, x.dnn), x.services)
  }

  method ListDnns(w: Tables, usn: int) returns (out: seq<TreeDnn>)
    requires Integrity(w) && usn in w.usns.rows
    ensures ListsDnns(ForestOf(w), UsnKey(w.usns.rows, usn), out)
  {
    var rows := set d | d in w.usds.rows && w.usds.rows[d].usnId == usn :: (d, w.usds.rows[d]);
    DnnOrder();
    var sorted := OrderBy(rows, DnnLe);
    ghost var f, s := ForestOf(w), UsnKey(w.usns.rows, usn);
    out := [];
    for i := 0 to |sorted|
      invariant |out| == i
      invariant forall j :: 0 <= j < i ==> DnnOfRow(f, s, sorted[j], out[j])
    {
      var row := sorted[i];
      var services := ListServices(w, row.0);
      out := out + [TreeDnn(row.1.dnn, row.1.isDefault, services)];
    }
    PathsAreUnique(w);
    DnnsListed(w.usns.rows, w.usds.rows, f, usn, sorted, out);
  }

  lemma DnnsInOrder(usns: map<int, UsnRow>, usds: map<int, UsdRow>, f: Forest, usn: int,
                    sorted: seq<(int, UsdRow)>, out: seq<TreeDnn>)
    requires |out| == |sorted| && usn in usns
    requires forall c, d :: c in usds && d in usds && SameUsd(usds[c], usds[d]) && usds[c].usnId == usn ==> c == d
    requires Ordered(set d | d in usds && usds[d].usnId == usn :: (d, usds[d]), DnnLe, sorted)
    requires forall j :: 0 <= j < |out| ==> DnnOfRow(f, UsnKey(usns, usn), sorted[j], out[j])
    ensures DnnsOrdered(out)
  {
    var s := UsnKey(usns, usn);
    forall i, j | 0 <= i < j < |out|
      ensures out[i].dnn != out[j].dnn
      ensures ListedBefore(out[i].isDefault, out[i].dnn, out[j].isDefault, out[j].dnn)
    {
      assert DnnOfRow(f, s, sorted[i], out[i]) && DnnOfRow(f, s, sorted[j], out[j]);
      assert DnnLe(sorted[i], sorted[j]) && sorted[i] != sorted[j];
    }
  }

  lemma DnnsListed(usns: map<int, UsnRow>, usds: map<int, UsdRow>, f: Forest, usn: int,
                   sorted: seq<(int, UsdRow)>, out: seq<TreeDnn>)
    requires UsdParents(usns, usds) && Injective(UsdEntries(usns, usds)) && usn in usns && Injective(UsnEntries(usns))
    requires f.dnns == DnnLevel(usns, usds) && |out| == |sorted|
    requires Ordered(set d | d in usds && usds[d].usnId == usn :: (d, usds[d]), DnnLe, sorted)
    requires forall j :: 0 <= j < |out| ==> DnnOfRow(f, UsnKey(usns, usn), sorted[j], out[j])
    ensures ListsDnns(f, UsnKey(usns, usn), out)
  {
    var s := UsnKey(usns, usn);
    DnnsSelected(usns, usds, usn);
    forall x | x in out
      ensures ListsDnn(f, s, x)
    {
      var j :| 0 <= j < |out| && out[j] == x;
      assert DnnOfRow(f, s, sorted[j], x);
    }
    forall k | k in f.dnns && k.slice == s
      ensures exists x :: x in out && x.dnn == k.dnn
    {
      var d :| d in usds && usds[d].usnId == usn && usds[d].dnn == k.dnn;
      assert (d, usds[d]) in sorted;
      var j :| 0 <= j < |sorted| && sorted[j] == (d, usds[d]);
      assert out[j] in out && DnnOfRow(f, s, sorted[j], out[j]);
    }
    DnnsInOrder(usns, usds, f, usn, sorted, out);
  }

  lemma SlicesSelected(usns: map<int, UsnRow>, ue: int)
    requires Injective(UsnEntries(usns))
    ensures forall u :: u in usns && usns[u].ueId == ue ==>
              Flag(SliceLevel(usns), SliceKey(ue, usns[u].nssaiId)) == Some(usns[u].isDefault)
    ensures forall k :: k in SliceLevel(usns) && k.ue == ue ==>
              exists u :: u in usns && usns[u].ueId == ue && usns[u].nssaiId == k.nssai
    ensures forall u, t :: u in usns && t in usns && UsnKey(usns, u) == UsnKey(usns, t) ==> u == t
  {
    var m := UsnEntries(usns);
    forall u | u in usns && usns[u].ueId == ue
      ensures Flag(SliceLevel(usns), SliceKey(ue, usns[u].nssaiId)) == Some(usns[u].isDefault)
    {
      assert m[u].key == SliceKey(ue, usns[u].nssaiId);
    }
    forall k | k in SliceLevel(usns) && k.ue == ue
      ensures exists u :: u in usns && usns[u].ueId == ue && usns[u].nssaiId == k.nssai
    {
      var u :| u in m && m[u].key == k;
    }
    forall u, t | u in usns && t in usns && UsnKey(usns, u) == UsnKey(usns, t)
      ensures u == t
    {
      assert m[u].key == m[t].key;
    }
  }

  ghost predicate SliceOfRow(f: Forest, ue: int, row: (int, UsnRow, Slice), x: TreeSlice) {
    && x.nssaiId == row.1.nssaiId && x.isDefault == row.1.isDefault
    && x.sst == row.2.sst && x.sd == row.2.sd.GetOr("")
    && ListsDnns(f, SliceKey(ue, x.nssaiId), x.dnns)
  }

  method ListSlices(w: Tables, ue: int) returns (out: seq<TreeSlice>)
    requires Integrity(w)
    ensures ListsSlices(ViewOf(w), ue, out)
  {
    var usns, catalog := w.usns.rows, w.catalog.rows;
    var rows := set u | u in usns && usns[u].ueId == ue :: (u, usns[u], catalog[usns[u].nssaiId]);
    SliceOrder();
    var sorted := OrderBy(rows, SliceLe);
    ghost var f := ForestOf(w);
    out := [];
    for i := 0 to |sorted|
      invariant |out| == i
      invariant forall j :: 0 <= j < i ==> SliceOfRow(f, ue, sorted[j], out[j])
    {
      var row := sorted[i];
      assert row in rows;
      var dnns := ListDnns(w, row.0);
      out := out + [TreeSlice(row.1.nssaiId, row.2.sst, row.2.sd.GetOr(""), row.1.isDefault, dnns)];
    }
    PathsAreUnique(w);
    SlicesListed(usns, ViewOf(w), ue, sorted, out);
  }

  lemma SlicesInOrder(usns: map<int, UsnRow>, v: View, ue: int, sorted: seq<(int, UsnRow, Slice)>, out: seq<TreeSlice>)
    requires |out| == |sorted| && forall u :: u in usns ==> usns[u].nssaiId in v.catalog.rows
    requires forall u, t :: u in usns && t in usns && UsnKey(usns, u) == UsnKey(usns, t) ==> u == t
    requires Ordered(set u | u in usns && usns[u].ueId == ue :: (u, usns[u], v.catalog.rows[usns[u].nssaiId]), SliceLe, sorted)
    requires forall j :: 0 <= j < |out| ==> SliceOfRow(v.forest, ue, sorted[j], out[j])
    ensures SlicesOrdered(v.catalog.rows, out)
  {
    var f := v.forest;
    forall i | 0 <= i < |out|
      ensures out[i].nssaiId in v.catalog.rows
    {
      assert SliceOfRow(f, ue, sorted[i], out[i]);
    }
    forall i, j | 0 <= i < j < |out|
      ensures out[i].nssaiId != out[j].nssaiId
      ensures SliceBefore(v.catalog.rows[out[i].nssaiId], v.catalog.rows[out[j].nssaiId])
    {
      assert SliceOfRow(f, ue, sorted[i], out[i]) && SliceOfRow(f, ue, sorted[j], out[j]);
      assert SliceLe(sorted[i], sorted[j]) && sorted[i] != sorted[j];
    }
  }

  lemma SlicesListed(usns: map<int, UsnRow>, v: View, ue: int, sorted: seq<(int, UsnRow, Slice)>, out: seq<TreeSlice>)
    requires Injective(UsnEntries(usns)) && v.forest.slices == SliceLevel(usns) && |out| == |sorted|
    requires forall u :: u in usns ==> usns[u].nssaiId in v.catalog.rows
    requires Ordered(set u | u in usns && usns[u].ueId == ue :: (u, usns[u], v.catalog.rows[usns[u].nssaiId]), SliceLe, sorted)
    requires forall j :: 0 <= j < |out| ==> SliceOfRow(v.forest, ue, sorted[j], out[j])
    ensures ListsSlices(v, ue, out)
  {
    var f := v.forest;
    SlicesSelected(usns, ue);
    forall x | x in out
      ensures ListsSlice(v, ue, x)
    {
      var j :| 0 <= j < |out| && out[j] == x;
      assert SliceOfRow(f, ue, sorted[j], x);
    }
    forall k | k in f.slices && k.ue == ue
      ensures exists x :: x in out && x.nssaiId == k.nssai
    {
      var u :| u in usns && usns[u].ueId == ue && usns[u].nssaiId == k.nssai;
      var row := (u, usns[u], v.catalog.rows[usns[u].nssaiId]);
      assert row in sorted;
      var j :| 0 <= j < |sorted| && sorted[j] == row;
      assert out[j] in out && SliceOfRow(f, ue, sorted[j], out[j]);
    }
    SlicesInOrder(usns, v, ue, sorted, out);
  }
}
