// The three INSERT OR IGNORE ... SELECT statements of a deep clone. Their joins find the destination
// row of each source row by (UE, slice) and then by DNN, because the ids below a UE are its own.
module SubscriberClone {
  import opened SubscriberTables
  import opened SubscriberSpec
  import opened SubscriberSql

  // ---- Level 1: ue_subscribed_nssai ----

  function SelectUsns(usns: map<int, UsnRow>, src: int, dst: int): set<UsnRow> {
    set u | u in usns && usns[u].ueId == src :: UsnRow(dst, usns[u].nssaiId, usns[u].isDefault)
  }

  lemma UsnsSelected(usns: map<int, UsnRow>, f: Forest, src: int, dst: int)
    requires Injective(UsnEntries(usns)) && f.slices == SliceLevel(usns)
    ensures UsnsLeft(dst, SliceMoves(f.slices, src, dst), f.slices, SelectUsns(usns, src, dst))
    ensures forall r :: r in SelectUsns(usns, src, dst) ==> exists u :: u in usns && usns[u].nssaiId == r.nssaiId
  {
    var e, m, rows := UsnEntries(usns), SliceMoves(f.slices, src, dst), SelectUsns(usns, src, dst);
    forall r | r in rows
      ensures r.ueId == dst && SliceKey(dst, r.nssaiId) in m && m[SliceKey(dst, r.nssaiId)] == r.isDefault
    {
      var u :| u in usns && usns[u].ueId == src && r == UsnRow(dst, usns[u].nssaiId, usns[u].isDefault);
      assert e[u].key == SliceKey(dst, r.nssaiId).At(src);
    }
    forall k | k in m
      ensures UsnRow(dst, k.nssai, m[k]) in rows
    {
      var u :| u in e && e[u].key == k.At(src);
      assert usns[u].ueId == src;
    }
  }

  // The rows left are moves, and every move is a row left or a path already there.
  ghost predicate UsnsLeft(dst: int, m: map<SliceKey, bool>, f: map<SliceKey, bool>, left: set<UsnRow>) {
    && (forall k :: k in m ==> k.ue == dst && (k in f || UsnRow(dst, k.nssai, m[k]) in left))
    && (forall r :: r in left ==> r.ueId == dst && SliceKey(dst, r.nssaiId) in m && m[SliceKey(dst, r.nssaiId)] == r.isDefault)
  }

  lemma UsnTaken(dst: int, m: map<SliceKey, bool>, f: map<SliceKey, bool>, left: set<UsnRow>, r: UsnRow)
    requires UsnsLeft(dst, m, f, left) && r in left
    ensures var f' := PutNew(f, SliceKey(dst, r.nssaiId), r.isDefault);
      UsnsLeft(dst, m, f', left - {r}) && m + f' == m + f
  {
  }

  lemma UsnsTaken(dst: int, m: map<SliceKey, bool>, f: map<SliceKey, bool>)
    requires UsnsLeft(dst, m, f, {})
    ensures m + f == f
  {
  }

  // The rows of the SELECT, in any order.
  method InsertUsnRows(w: Tables, dst: int, rows: set<UsnRow>, ghost m: map<SliceKey, bool>) returns (w': Tables)
    requires Integrity(w) && dst in w.ues.rows
    requires forall r :: r in rows ==> r.nssaiId in w.catalog.rows
    requires UsnsLeft(dst, m, ForestOf(w).slices, rows)
    ensures Integrity(w') && RowsKept(w, w')
    ensures ViewOf(w') == ViewOf(w).(forest := ForestOf(w).(slices := m + ForestOf(w).slices))
    decreases rows
  {
    if rows == {} {
      UsnsTaken(dst, m, ForestOf(w).slices);
      w' := w;
    } else {
      var r :| r in rows;
      UsnTaken(dst, m, ForestOf(w).slices, rows, r);
      var x := InsertUsn(w, dst, r.nssaiId, r.isDefault);
      w' := InsertUsnRows(x.value, dst, rows - {r}, m);
      KeptOnward(w, x.value, w');
    }
  }

  // ---- Level 2: ue_slice_dnn, joined on the slice ----

  // The source row d and the destination's row u for the same slice.
  predicate UsdJoin(usns: map<int, UsnRow>, usds: map<int, UsdRow>, src: int, dst: int, d: int, u: int) {
    && d in usds && usds[d].usnId in usns && u in usns
    && usns[usds[d].usnId].ueId == src
    && usns[u].ueId == dst && usns[u].nssaiId == usns[usds[d].usnId].nssaiId
  }

  function SelectUsds(usns: map<int, UsnRow>, usds: map<int, UsdRow>, src: int, dst: int): set<UsdRow> {
    set d, u | d in usds && u in usns && UsdJoin(usns, usds, src, dst, d, u) :: UsdRow(u, usds[d].dnn, usds[d].isDefault)
  }

  function RowDnnKey(usns: map<int, UsnRow>, r: UsdRow): DnnKey
    requires r.usnId in usns
  {
    DnnKey(UsnKey(usns, r.usnId), r.dnn)
  }

  // No row of the join has a wrong parent.
  lemma SelectUsdsSound(usns: map<int, UsnRow>, usds: map<int, UsdRow>, f: Forest, src: int, dst: int, r: UsdRow)
    returns (d: int)
    requires UsdParents(usns, usds) && Injective(UsdEntries(usns, usds)) && f.dnns == DnnLevel(usns, usds)
    requires r in SelectUsds(usns, usds, src, dst)
    ensures d in usds && usds[d].dnn == r.dnn
    ensures r.usnId in usns && RowDnnKey(usns, r) in DnnMoves(f.dnns, src, dst)
    ensures DnnMoves(f.dnns, src, dst)[RowDnnKey(usns, r)] == r.isDefault
  {
    var d', u :| d' in usds && u in usns && UsdJoin(usns, usds, src, dst, d', u)
      && r == UsdRow(u, usds[d'].dnn, usds[d'].isDefault);
    d := d';
    assert UsdEntries(usns, usds)[d].key == RowDnnKey(usns, r).At(src);
  }

  // No path is missed once the slices have moved.
  lemma SelectUsdsComplete(usns: map<int, UsnRow>, usds: map<int, UsdRow>, f: Forest, src: int, dst: int, k: DnnKey)
    returns (r: UsdRow)
    requires Injective(UsnEntries(usns)) && f.slices == SliceLevel(usns)
    requires UsdParents(usns, usds) && Injective(UsdEntries(usns, usds)) && f.dnns == DnnLevel(usns, usds)
    requires k in DnnMoves(f.dnns, src, dst) && k.slice in f.slices
    ensures r in SelectUsds(usns, usds, src, dst)
    ensures r.usnId in usns && RowDnnKey(usns, r) == k
  {
    var m, n := UsdEntries(usns, usds), UsnEntries(usns);
    var d :| d in m && m[d].key == k.At(src);
    var u :| u in n && n[u].key == k.slice;
    assert UsdJoin(usns, usds, src, dst, d, u);
    r := UsdRow(u, k.dnn, usds[d].isDefault);
  }

  ghost predicate UsdsLeft(usns: map<int, UsnRow>, m: map<DnnKey, bool>, f: map<DnnKey, bool>, left: set<UsdRow>) {
    && (forall r :: r in left ==> r.usnId in usns && RowDnnKey(usns, r) in m && m[RowDnnKey(usns, r)] == r.isDefault)
    && (forall k :: k in m ==> k in f || exists r :: r in left && r.usnId in usns && RowDnnKey(usns, r) == k)
  }

  lemma UsdsSelected(usns: map<int, UsnRow>, usds: map<int, UsdRow>, f: Forest, src: int, dst: int)
    requires Injective(UsnEntries(usns)) && f.slices == SliceLevel(usns)
    requires UsdParents(usns, usds) && Injective(UsdEntries(usns, usds)) && f.dnns == DnnLevel(usns, usds)
    requires forall k :: k in DnnMoves(f.dnns, src, dst) ==> k.slice in f.slices
    ensures UsdsLeft(usns, DnnMoves(f.dnns, src, dst), f.dnns, SelectUsds(usns, usds, src, dst))
    ensures forall r :: r in SelectUsds(usns, usds, src, dst) ==> exists d :: d in usds && usds[d].dnn == r.dnn
  {
    var rows, m := SelectUsds(usns, usds, src, dst), DnnMoves(f.dnns, src, dst);
    forall r | r in rows
      ensures r.usnId in usns && RowDnnKey(usns, r) in m && m[RowDnnKey(usns, r)] == r.isDefault
      ensures exists d :: d in usds && usds[d].dnn == r.dnn
    {
      var d := SelectUsdsSound(usns, usds, f, src, dst, r);
    }
    forall k | k in m
      ensures exists r :: r in rows && r.usnId in usns && RowDnnKey(usns, r) == k
    {
      var r := SelectUsdsComplete(usns, usds, f, src, dst, k);
    }
  }

  lemma UsdTaken(usns: map<int, UsnRow>, m: map<DnnKey, bool>, f: map<DnnKey, bool>, left: set<UsdRow>, r: UsdRow)
    requires UsdsLeft(usns, m, f, left) && r in left
    ensures var f' := PutNew(f, RowDnnKey(usns, r), r.isDefault);
      UsdsLeft(usns, m, f', left - {r}) && m + f' == m + f
  {
    var f' := PutNew(f, RowDnnKey(usns, r), r.isDefault);
    forall k | k in m && k !in f'
      ensures exists x :: x in left - {r} && x.usnId in usns && RowDnnKey(usns, x) == k
    {
      var x :| x in left && x.usnId in usns && RowDnnKey(usns, x) == k;
      assert x != r;
    }
  }

  lemma UsdsTaken(usns: map<int, UsnRow>, m: map<DnnKey, bool>, f: map<DnnKey, bool>)
    requires UsdsLeft(usns, m, f, {})
    ensures m + f == f
  {
  }

  method InsertUsdRows(w: Tables, rows: set<UsdRow>, ghost m: map<DnnKey, bool>) returns (w': Tables)
    requires Integrity(w)
    requires forall r :: r in rows ==> r.dnn in w.apns
    requires UsdsLeft(w.usns.rows, m, ForestOf(w).dnns, rows)
    ensures Integrity(w') && RowsKept(w, w') && w'.usns == w.usns
    ensures ViewOf(w') == ViewOf(w).(forest := ForestOf(w).(dnns := m + ForestOf(w).dnns))
    decreases rows
  {
    if rows == {} {
      UsdsTaken(w.usns.rows, m, ForestOf(w).dnns);
      w' := w;
    } else {
      var r :| r in rows;
      UsdTaken(w.usns.rows, m, ForestOf(w).dnns, rows, r);
      var x := InsertUsd(w, r.usnId, r.dnn, r.isDefault);
      w' := InsertUsdRows(x.value, rows - {r}, m);
      KeptOnward(w, x.value, w');
    }
  }

  // ---- Level 3: service_bindings, joined on the slice and the DNN ----

  // The source binding b and the destination's row e for the same slice and DNN.
  predicate SbJoin(usns: map<int, UsnRow>, usds: map<int, UsdRow>, sbs: map<int, SbRow>, src: int, dst: int, b: int, e: int) {
    && b in sbs && sbs[b].usdId in usds && e in usds
    && UsdJoin(usns, usds, src, dst, sbs[b].usdId, usds[e].usnId)
    && usds[e].dnn == usds[sbs[b].usdId].dnn
  }

  function SelectSbs(usns: map<int, UsnRow>, usds: map<int, UsdRow>, sbs: map<int, SbRow>, src: int, dst: int): set<SbRow> {
    set b, e | b in sbs && e in usds && SbJoin(usns, usds, sbs, src, dst, b, e) :: SbRow(e, sbs[b].service, sbs[b].isDefault)
  }

  function RowServiceKey(usns: map<int, UsnRow>, usds: map<int, UsdRow>, r: SbRow): ServiceKey
    requires r.usdId in usds && usds[r.usdId].usnId in usns
  {
    ServiceKey(UsdKey(usns, usds, r.usdId), r.service)
  }

  lemma SelectSbsSound(usns: map<int, UsnRow>, usds: map<int, UsdRow>, sbs: map<int, SbRow>, f: Forest,
                       src: int, dst: int, r: SbRow)
    returns (b: int)
    requires UsdParents(usns, usds) && SbParents(usds, sbs) && Injective(SbEntries(usns, usds, sbs))
    requires f.services == ServiceLevel(usns, usds, sbs)
    requires r in SelectSbs(usns, usds, sbs, src, dst)
    ensures b in sbs && sbs[b].service == r.service
    ensures r.usdId in usds && RowServiceKey(usns, usds, r) in ServiceMoves(f.services, src, dst)
    ensures ServiceMoves(f.services, src, dst)[RowServiceKey(usns, usds, r)] == r.isDefault
  {
    var b', e :| b' in sbs && e in usds && SbJoin(usns, usds, sbs, src, dst, b', e)
      && r == SbRow(e, sbs[b'].service, sbs[b'].isDefault);
    b := b';
    assert SbEntries(usns, usds, sbs)[b].key == RowServiceKey(usns, usds, r).At(src);
  }

  lemma SelectSbsComplete(usns: map<int, UsnRow>, usds: map<int, UsdRow>, sbs: map<int, SbRow>, f: Forest,
                          src: int, dst: int, k: ServiceKey)
    returns (r: SbRow)
    requires UsdParents(usns, usds) && Injective(UsdEntries(usns, usds)) && f.dnns == DnnLevel(usns, usds)
    requires SbParents(usds, sbs) && Injective(SbEntries(usns, usds, sbs)) && f.services == ServiceLevel(usns, usds, sbs)
    requires k in ServiceMoves(f.services, src, dst) && k.dnn in f.dnns
    ensures r in SelectSbs(usns, usds, sbs, src, dst)
    ensures r.usdId in usds && RowServiceKey(usns, usds, r) == k
  {
    var m, n := SbEntries(usns, usds, sbs), UsdEntries(usns, usds);
    var b :| b in m && m[b].key == k.At(src);
    var e :| e in n && n[e].key == k.dnn;
    var d := sbs[b].usdId;
    assert UsdKey(usns, usds, d) == k.At(src).dnn && UsdKey(usns, usds, e) == k.dnn;
    assert SbJoin(usns, usds, sbs, src, dst, b, e);
    r := SbRow(e, k.service, sbs[b].isDefault);
  }

  predicate SbMoves(usns: map<int, UsnRow>, usds: map<int, UsdRow>, m: map<ServiceKey, bool>, r: SbRow)
    requires UsdParents(usns, usds)
  {
    && r.usdId in usds
    && RowServiceKey(usns, usds, r) in m
    && m[RowServiceKey(usns, usds, r)] == r.isDefault
  }

  ghost predicate SbsLeft(usns: map<int, UsnRow>, usds: map<int, UsdRow>,
                          m: map<ServiceKey, bool>, f: map<ServiceKey, bool>, left: set<SbRow>)
    requires UsdParents(usns, usds)
  {
    && (forall r :: r in left ==> SbMoves(usns, usds, m, r))
    && (forall k :: k in m ==> k in f || exists r :: r in left && r.usdId in usds && RowServiceKey(usns, usds, r) == k)
  }

  lemma SbsSelected(usns: map<int, UsnRow>, usds: map<int, UsdRow>, sbs: map<int, SbRow>, f: Forest, src: int, dst: int)
    requires UsdParents(usns, usds) && Injective(UsdEntries(usns, usds)) && f.dnns == DnnLevel(usns, usds)
    requires SbParents(usds, sbs) && Injective(SbEntries(usns, usds, sbs)) && f.services == ServiceLevel(usns, usds, sbs)
    requires forall k :: k in ServiceMoves(f.services, src, dst) ==> k.dnn in f.dnns
    ensures SbsLeft(usns, usds, ServiceMoves(f.services, src, dst), f.services, SelectSbs(usns, usds, sbs, src, dst))
    ensures forall r :: r in SelectSbs(usns, usds, sbs, src, dst) ==> exists b :: b in sbs && sbs[b].service == r.service
  {
    var rows, m := SelectSbs(usns, usds, sbs, src, dst), ServiceMoves(f.services, src, dst);
    forall r | r in rows
      ensures SbMoves(usns, usds, m, r) && exists b :: b in sbs && sbs[b].service == r.service
    {
      var b := SelectSbsSound(usns, usds, sbs, f, src, dst, r);
    }
    forall k | k in m
      ensures exists r :: r in rows && r.usdId in usds && RowServiceKey(usns, usds, r) == k
    {
      var r := SelectSbsComplete(usns, usds, sbs, f, src, dst, k);
    }
  }

  lemma SbTaken(usns: map<int, UsnRow>, usds: map<int, UsdRow>,
                m: map<ServiceKey, bool>, f: map<ServiceKey, bool>, left: set<SbRow>, r: SbRow)
    requires UsdParents(usns, usds) && SbsLeft(usns, usds, m, f, left) && r in left
    ensures var f' := PutNew(f, RowServiceKey(usns, usds, r), r.isDefault);
      SbsLeft(usns, usds, m, f', left - {r}) && m + f' == m + f
  {
    var f' := PutNew(f, RowServiceKey(usns, usds, r), r.isDefault);
    forall k | k in m && k !in f'
      ensures exists x :: x in left - {r} && x.usdId in usds && RowServiceKey(usns, usds, x) == k
    {
      var x :| x in left && x.usdId in usds && RowServiceKey(usns, usds, x) == k;
      assert x != r;
    }
  }

  lemma SbsTaken(usns: map<int, UsnRow>, usds: map<int, UsdRow>, m: map<ServiceKey, bool>, f: map<ServiceKey, bool>)
    requires UsdParents(usns, usds) && SbsLeft(usns, usds, m, f, {})
    ensures m + f == f
  {
  }

  method InsertSbRows(w: Tables, rows: set<SbRow>, ghost m: map<ServiceKey, bool>) returns (w': Tables)
    requires Integrity(w)
    requires forall r :: r in rows ==> r.service in w.services
    requires SbsLeft(w.usns.rows, w.usds.rows, m, ForestOf(w).services, rows)
    ensures Integrity(w') && RowsKept(w, w')
    ensures ViewOf(w') == ViewOf(w).(forest := ForestOf(w).(services := m + ForestOf(w).services))
    decreases rows
  {
    if rows == {} {
      SbsTaken(w.usns.rows, w.usds.rows, m, ForestOf(w).services);
      w' := w;
    } else {
      var r :| r in rows;
      SbTaken(w.usns.rows, w.usds.rows, m, ForestOf(w).services, rows, r);
      var x := InsertSb(w, r.usdId, r.service, r.isDefault);
      w' := InsertSbRows(x.value, rows - {r}, m);
    }
  }

  // ---- The three statements, in the order a clone runs them ----

  method CloneSlices(w: Tables, src: int, dst: int) returns (w': Tables)
    requires Integrity(w) && dst in w.ues.rows
    ensures Integrity(w') && RowsKept(w, w')
    ensures ViewOf(w') == ViewOf(w).(forest := ForestOf(w).(slices := SliceMoves(ForestOf(w).slices, src, dst) + ForestOf(w).slices))
  {
    PathsAreUnique(w);
    UsnsSelected(w.usns.rows, ForestOf(w), src, dst);
    w' := InsertUsnRows(w, dst, SelectUsns(w.usns.rows, src, dst), SliceMoves(ForestOf(w).slices, src, dst));
  }

  method CloneDnns(w: Tables, src: int, dst: int) returns (w': Tables)
    requires Integrity(w)
    requires forall k :: k in DnnMoves(ForestOf(w).dnns, src, dst) ==> k.slice in ForestOf(w).slices
    ensures Integrity(w') && RowsKept(w, w')
    ensures ViewOf(w') == ViewOf(w).(forest := ForestOf(w).(dnns := DnnMoves(ForestOf(w).dnns, src, dst) + ForestOf(w).dnns))
  {
    PathsAreUnique(w);
    UsdsSelected(w.usns.rows, w.usds.rows, ForestOf(w), src, dst);
    w' := InsertUsdRows(w, SelectUsds(w.usns.rows, w.usds.rows, src, dst), DnnMoves(ForestOf(w).dnns, src, dst));
  }

  method CloneServices(w: Tables, src: int, dst: int) returns (w': Tables)
    requires Integrity(w)
    requires forall k :: k in ServiceMoves(ForestOf(w).services, src, dst) ==> k.dnn in ForestOf(w).dnns
    ensures Integrity(w') && RowsKept(w, w')
    ensures ViewOf(w') ==
            ViewOf(w).(forest := ForestOf(w).(services := ServiceMoves(ForestOf(w).services, src, dst) + ForestOf(w).services))
  {
    PathsAreUnique(w);
    SbsSelected(w.usns.rows, w.usds.rows, w.sbs.rows, ForestOf(w), src, dst);
    w' := InsertSbRows(w, SelectSbs(w.usns.rows, w.usds.rows, w.sbs.rows, src, dst), ServiceMoves(ForestOf(w).services, src, dst));
  }

  // Moving the slices first gives every moved DNN its parent; moving the DNNs does so for the services.
  lemma MovesHaveParents(f: Forest, src: int, dst: int)
    requires Closed(f)
    ensures forall k :: k in DnnMoves(f.dnns, src, dst) ==> k.slice in SliceMoves(f.slices, src, dst)
    ensures forall k :: k in ServiceMoves(f.services, src, dst) ==> k.dnn in DnnMoves(f.dnns, src, dst)
  {
    forall k | k in DnnMoves(f.dnns, src, dst)
      ensures k.slice in SliceMoves(f.slices, src, dst)
    {
      assert k.At(src).slice == k.slice.At(src);
    }
    forall k | k in ServiceMoves(f.services, src, dst)
      ensures k.dnn in DnnMoves(f.dnns, src, dst)
    {
      assert k.At(src).dnn == k.dnn.At(src);
    }
  }

  method CloneTree(w: Tables, src: int, dst: int) returns (w': Tables)
    requires Integrity(w) && dst in w.ues.rows
    ensures Integrity(w') && RowsKept(w, w')
    ensures ViewOf(w') == ViewOf(w).(forest := MergeInto(ForestOf(w), src, dst))
  {
    ghost var f := ForestOf(w);
    ForestClosed(w);
    MovesHaveParents(f, src, dst);
    var w1 := CloneSlices(w, src, dst);
    var w2 := CloneDnns(w1, src, dst);
    w' := CloneServices(w2, src, dst);
  }
}
