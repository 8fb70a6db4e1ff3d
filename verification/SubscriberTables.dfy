// The relational subscriber schema: flat tables with surrogate ids, UNIQUE keys and foreign keys,
// and the abstract object they store, a forest keyed by UE, catalog id, DNN and service.
module SubscriberTables {
  import opened Wrappers

  // AUTOINCREMENT: an id below next may have been used, ids from next on never were.
  datatype Table<T> = Table(rows: map<int, T>, next: int) {
    ghost predicate Sound() {
      next > 0 && forall i :: i in rows ==> 0 < i < next
    }

    function Add(row: T): Table<T> {
      Table(rows[next := row], next + 1)
    }
  }

  datatype Slice = Slice(sst: int, sd: Option<string>)
  datatype UeRow = UeRow(imsi: string, msisdn: Option<string>, enabled: bool, ambrDl: int, ambrUl: int)
  datatype OpType = OP | OPC
  datatype AuthData = AuthData(opType: OpType, op: string, k: string, sqn: int, amf: Option<string>,
                               suciProfile: Option<string>, hnPrivateKey: Option<string>)
  datatype AuthRow = AuthRow(ueId: int, data: AuthData)
  datatype UsnRow = UsnRow(ueId: int, nssaiId: int, isDefault: bool)
  datatype UsdRow = UsdRow(usnId: int, dnn: string, isDefault: bool)
  datatype SbRow = SbRow(usdId: int, service: string, isDefault: bool)
  datatype Resource = GBR | NonGBR

  datatype Tables = Tables(
    apns: set<string>,
    services: map<string, Resource>,
    catalog: Table<Slice>,
    ues: Table<UeRow>,
    auths: Table<AuthRow>,
    usns: Table<UsnRow>,
    usds: Table<UsdRow>,
    sbs: Table<SbRow>)

  // The path of a row from its UE down. A key holds the key of its parent.
  datatype SliceKey = SliceKey(ue: int, nssai: int) {
    // The same path under another UE.
    function At(other: int): SliceKey {
      SliceKey(other, nssai)
    }
  }

  datatype DnnKey = DnnKey(slice: SliceKey, dnn: string) {
    function Ue(): int {
      slice.ue
    }

    function At(other: int): DnnKey {
      DnnKey(slice.At(other), dnn)
    }
  }

  datatype ServiceKey = ServiceKey(dnn: DnnKey, service: string) {
    function Ue(): int {
      dnn.Ue()
    }

    function At(other: int): ServiceKey {
      ServiceKey(dnn.At(other), service)
    }
  }

  // Every UE's subscription tree, as the default flag of each path.
  datatype Forest = Forest(slices: map<SliceKey, bool>, dnns: map<DnnKey, bool>, services: map<ServiceKey, bool>)

  // A row as an index sees it: its key and the rest.
  datatype Entry<K, V> = Entry(key: K, value: V)

  ghost predicate Injective<K, V>(m: map<int, Entry<K, V>>) {
    forall i, j :: i in m && j in m && m[i].key == m[j].key ==> i == j
  }

  // f gives the value of exactly the keys of the rows m.
  ghost predicate Indexes<K(!new), V>(m: map<int, Entry<K, V>>, f: map<K, V>) {
    && (forall i :: i in m ==> m[i].key in f && f[m[i].key] == m[i].value)
    && (forall k :: k in f ==> exists i :: i in m && m[i].key == k)
  }

  lemma IndexIsUnique<K(!new), V>(m: map<int, Entry<K, V>>, f: map<K, V>, g: map<K, V>)
    requires Indexes(m, f) && Indexes(m, g)
    ensures f == g
  {
    assert f.Keys == g.Keys;
  }

  ghost function Index<K(!new), V>(m: map<int, Entry<K, V>>): (f: map<K, V>)
    requires Injective(m)
    ensures Indexes(m, f)
  {
    map k | k in (set i | i in m :: m[i].key) :: ValueAt(m, k)
  }

  ghost function ValueAt<K(!new), V>(m: map<int, Entry<K, V>>, k: K): V
    requires exists i :: i in m && m[i].key == k
  {
    var i :| i in m && m[i].key == k;
    m[i].value
  }

  lemma IndexAdd<K(!new), V>(m: map<int, Entry<K, V>>, id: int, e: Entry<K, V>)
    requires Injective(m) && id !in m && e.key !in Index(m)
    ensures Injective(m[id := e])
    ensures Index(m[id := e]) == Index(m)[e.key := e.value]
  {
    var m', f' := m[id := e], Index(m)[e.key := e.value];
    forall k | k in f'
      ensures exists i :: i in m' && m'[i].key == k
    {
      if k == e.key {
        assert m'[id].key == k;
      } else {
        var i :| i in m && m[i].key == k;
        assert m'[i].key == k;
      }
    }
    IndexIsUnique(m', Index(m'), f');
  }

  lemma IndexSet<K(!new), V>(m: map<int, Entry<K, V>>, id: int, value: V)
    requires Injective(m) && id in m
    ensures Injective(m[id := Entry(m[id].key, value)])
    ensures Index(m[id := Entry(m[id].key, value)]) == Index(m)[m[id].key := value]
  {
    var m', f' := m[id := Entry(m[id].key, value)], Index(m)[m[id].key := value];
    forall k | k in f'
      ensures exists i :: i in m' && m'[i].key == k
    {
      var i :| i in m && m[i].key == k;
      assert m'[i].key == k;
    }
    IndexIsUnique(m', Index(m'), f');
  }

  // Deleting the rows whose key satisfies drop deletes exactly those keys.
  lemma IndexDrop<K(!new), V>(m: map<int, Entry<K, V>>, m': map<int, Entry<K, V>>, drop: K -> bool)
    requires Injective(m)
    requires forall i :: i in m' <==> i in m && !drop(m[i].key)
    requires forall i :: i in m' ==> m'[i] == m[i]
    ensures Injective(m')
    ensures Index(m') == map k | k in Index(m) && !drop(k) :: Index(m)[k]
  {
    var f' := map k | k in Index(m) && !drop(k) :: Index(m)[k];
    forall k | k in f'
      ensures exists i :: i in m' && m'[i].key == k
    {
      var i :| i in m && m[i].key == k;
      assert m'[i].key == k;
    }
    IndexIsUnique(m', Index(m'), f');
  }

  lemma SameRows<V>(m: map<int, V>, n: map<int, V>)
    requires forall i :: i in m <==> i in n
    requires forall i :: i in m && i in n ==> m[i] == n[i]
    ensures m == n
  {
    assert forall i :: i in m <==> i in n;
    assert forall i :: i in m ==> m[i] == n[i];
  }

  lemma EmptyIndex<K(!new), V>(m: map<int, Entry<K, V>>)
    requires Injective(m) && forall i :: i !in m
    ensures |m| == 0 && |Index(m)| == 0
  {
    var none: map<int, Entry<K, V>> := map[];
    SameRows(m, none);
    assert Index(m) == map[];
  }

  // There are as many keys as rows.
  lemma {:induction false} IndexSize<K(!new), V>(m: map<int, Entry<K, V>>)
    requires Injective(m)
    ensures |Index(m)| == |m|
    decreases |m|
  {
    if id: int :| id in m {
      var rest := m - {id};
      assert m == rest[id := m[id]];
      IndexAdd(rest, id, m[id]);
      IndexSize(rest);
    } else {
      EmptyIndex(m);
    }
  }

  ghost predicate CatalogOk(rows: map<int, Slice>) {
    // UNIQUE(sst, sd), with NULL distinct from NULL
    forall i, j :: i in rows && j in rows && rows[i] == rows[j] && rows[i].sd.Some? ==> i == j
  }

  ghost predicate UesOk(rows: map<int, UeRow>) {
    forall i, j :: i in rows && j in rows && rows[i].imsi == rows[j].imsi ==> i == j
  }

  ghost predicate AuthsOk(ues: map<int, UeRow>, rows: map<int, AuthRow>) {
    && (forall i :: i in rows ==> rows[i].ueId in ues)
    && Injective(AuthEntries(rows))
  }

  ghost predicate UsnsOk(ues: map<int, UeRow>, catalog: map<int, Slice>, usns: map<int, UsnRow>) {
    && (forall i :: i in usns ==> usns[i].ueId in ues && usns[i].nssaiId in catalog)
    && Injective(UsnEntries(usns))
  }

  // The columns of UNIQUE(subscribed_nssai_id, dnn) agree.
  predicate SameUsd(a: UsdRow, b: UsdRow) {
    a.usnId == b.usnId && a.dnn == b.dnn
  }

  ghost predicate UsdsOk(apns: set<string>, usns: map<int, UsnRow>, usds: map<int, UsdRow>) {
    && UsdParents(usns, usds)
    && (forall i :: i in usds ==> usds[i].dnn in apns)
    && (forall i, j :: i in usds && j in usds && SameUsd(usds[i], usds[j]) ==> i == j)
  }

  // The columns of UNIQUE(slice_dnn_id, service_name) agree.
  predicate SameSb(a: SbRow, b: SbRow) {
    a.usdId == b.usdId && a.service == b.service
  }

  ghost predicate SbsOk(services: map<string, Resource>, usds: map<int, UsdRow>, sbs: map<int, SbRow>) {
    && SbParents(usds, sbs)
    && (forall i :: i in sbs ==> sbs[i].service in services)
    && (forall i, j :: i in sbs && j in sbs && SameSb(sbs[i], sbs[j]) ==> i == j)
  }

  ghost predicate UsdParents(usns: map<int, UsnRow>, usds: map<int, UsdRow>) {
    forall i :: i in usds ==> usds[i].usnId in usns
  }

  ghost predicate SbParents(usds: map<int, UsdRow>, sbs: map<int, SbRow>) {
    forall i :: i in sbs ==> sbs[i].usdId in usds
  }

  function UsnKey(usns: map<int, UsnRow>, u: int): SliceKey
    requires u in usns
  {
    SliceKey(usns[u].ueId, usns[u].nssaiId)
  }

  function UsdKey(usns: map<int, UsnRow>, usds: map<int, UsdRow>, d: int): DnnKey
    requires d in usds && usds[d].usnId in usns
  {
    DnnKey(UsnKey(usns, usds[d].usnId), usds[d].dnn)
  }

  function SbKey(usns: map<int, UsnRow>, usds: map<int, UsdRow>, sbs: map<int, SbRow>, b: int): ServiceKey
    requires b in sbs && sbs[b].usdId in usds && usds[sbs[b].usdId].usnId in usns
  {
    ServiceKey(UsdKey(usns, usds, sbs[b].usdId), sbs[b].service)
  }

  ghost function AuthEntries(rows: map<int, AuthRow>): map<int, Entry<int, AuthData>> {
    map a | a in rows :: Entry(rows[a].ueId, rows[a].data)
  }

  ghost function UsnEntries(usns: map<int, UsnRow>): map<int, Entry<SliceKey, bool>> {
    map u | u in usns :: Entry(UsnKey(usns, u), usns[u].isDefault)
  }

  ghost function UsdEntries(usns: map<int, UsnRow>, usds: map<int, UsdRow>): map<int, Entry<DnnKey, bool>>
    requires UsdParents(usns, usds)
  {
    map d | d in usds :: Entry(UsdKey(usns, usds, d), usds[d].isDefault)
  }

  ghost function SbEntries(usns: map<int, UsnRow>, usds: map<int, UsdRow>, sbs: map<int, SbRow>): map<int, Entry<ServiceKey, bool>>
    requires UsdParents(usns, usds) && SbParents(usds, sbs)
  {
    map b | b in sbs :: Entry(SbKey(usns, usds, sbs, b), sbs[b].isDefault)
  }

  ghost predicate Sound(t: Tables) {
    t.catalog.Sound() && t.ues.Sound() && t.auths.Sound() && t.usns.Sound() && t.usds.Sound() && t.sbs.Sound()
  }

  // No DNN and no service has an empty name: whatever configures one refuses it.
  predicate NamesOk(apns: set<string>, services: map<string, Resource>) {
    "" !in apns && "" !in services
  }

  // Referential integrity, every UNIQUE key, and no empty name.
  ghost predicate Integrity(t: Tables) {
    && Sound(t) && NamesOk(t.apns, t.services)
    && CatalogOk(t.catalog.rows)
    && UesOk(t.ues.rows)
    && AuthsOk(t.ues.rows, t.auths.rows)
    && UsnsOk(t.ues.rows, t.catalog.rows, t.usns.rows)
    && UsdsOk(t.apns, t.usns.rows, t.usds.rows)
    && SbsOk(t.services, t.usds.rows, t.sbs.rows)
  }

  // The joins up the foreign keys are functional: a path is the path of at most one row.
  lemma DnnPathsAreUnique(apns: set<string>, usns: map<int, UsnRow>, usds: map<int, UsdRow>)
    requires Injective(UsnEntries(usns)) && UsdsOk(apns, usns, usds)
    ensures Injective(UsdEntries(usns, usds))
  {
    forall i, j | i in usds && j in usds && UsdEntries(usns, usds)[i].key == UsdEntries(usns, usds)[j].key
      ensures i == j
    {
      assert UsnEntries(usns)[usds[i].usnId].key == UsnEntries(usns)[usds[j].usnId].key;
      assert SameUsd(usds[i], usds[j]);
    }
  }

  lemma ServicePathsAreUnique(services: map<string, Resource>,
                              usns: map<int, UsnRow>, usds: map<int, UsdRow>, sbs: map<int, SbRow>)
    requires UsdParents(usns, usds) && Injective(UsdEntries(usns, usds)) && SbsOk(services, usds, sbs)
    ensures Injective(SbEntries(usns, usds, sbs))
  {
    var m := SbEntries(usns, usds, sbs);
    forall i, j | i in sbs && j in sbs && m[i].key == m[j].key
      ensures i == j
    {
      assert UsdEntries(usns, usds)[sbs[i].usdId].key == UsdEntries(usns, usds)[sbs[j].usdId].key;
      assert SameSb(sbs[i], sbs[j]);
    }
  }

  lemma PathsAreUnique(t: Tables)
    requires Integrity(t)
    ensures Injective(UsnEntries(t.usns.rows))
    ensures Injective(UsdEntries(t.usns.rows, t.usds.rows))
    ensures Injective(SbEntries(t.usns.rows, t.usds.rows, t.sbs.rows))
  {
    DnnPathsAreUnique(t.apns, t.usns.rows, t.usds.rows);
    ServicePathsAreUnique(t.services, t.usns.rows, t.usds.rows, t.sbs.rows);
  }

  ghost function SliceLevel(usns: map<int, UsnRow>): map<SliceKey, bool>
    requires Injective(UsnEntries(usns))
  {
    Index(UsnEntries(usns))
  }

  ghost function DnnLevel(usns: map<int, UsnRow>, usds: map<int, UsdRow>): map<DnnKey, bool>
    requires UsdParents(usns, usds) && Injective(UsdEntries(usns, usds))
  {
    Index(UsdEntries(usns, usds))
  }

  ghost function ServiceLevel(usns: map<int, UsnRow>, usds: map<int, UsdRow>, sbs: map<int, SbRow>): map<ServiceKey, bool>
    requires UsdParents(usns, usds) && SbParents(usds, sbs) && Injective(SbEntries(usns, usds, sbs))
  {
    Index(SbEntries(usns, usds, sbs))
  }

  ghost function ForestOf(t: Tables): Forest
    requires Integrity(t)
  {
    PathsAreUnique(t);
    Forest(SliceLevel(t.usns.rows), DnnLevel(t.usns.rows, t.usds.rows), ServiceLevel(t.usns.rows, t.usds.rows, t.sbs.rows))
  }

  // A forest has the parent of every path.
  ghost predicate Closed(f: Forest) {
    && (forall k :: k in f.dnns ==> k.slice in f.slices)
    && (forall k :: k in f.services ==> k.dnn in f.dnns)
  }

  lemma ForestClosed(t: Tables)
    requires Integrity(t)
    ensures Closed(ForestOf(t))
    ensures forall k :: k in ForestOf(t).slices ==> k.ue in t.ues.rows && k.nssai in t.catalog.rows
  {
    PathsAreUnique(t);
    LevelsClosed(t.usns.rows, t.usds.rows, t.sbs.rows);
    forall k | k in ForestOf(t).slices
      ensures k.ue in t.ues.rows && k.nssai in t.catalog.rows
    {
      var u :| u in UsnEntries(t.usns.rows) && UsnEntries(t.usns.rows)[u].key == k;
    }
  }

  lemma LevelsClosed(usns: map<int, UsnRow>, usds: map<int, UsdRow>, sbs: map<int, SbRow>)
    requires Injective(UsnEntries(usns))
    requires UsdParents(usns, usds) && Injective(UsdEntries(usns, usds))
    requires SbParents(usds, sbs) && Injective(SbEntries(usns, usds, sbs))
    ensures Closed(Forest(SliceLevel(usns), DnnLevel(usns, usds), ServiceLevel(usns, usds, sbs)))
  {
    var n, m, q := UsnEntries(usns), UsdEntries(usns, usds), SbEntries(usns, usds, sbs);
    forall k | k in DnnLevel(usns, usds)
      ensures k.slice in SliceLevel(usns)
    {
      var d :| d in m && m[d].key == k;
      assert n[usds[d].usnId].key == k.slice;
    }
    forall k | k in ServiceLevel(usns, usds, sbs)
      ensures k.dnn in DnnLevel(usns, usds)
    {
      var b :| b in q && q[b].key == k;
      assert m[sbs[b].usdId].key == k.dnn;
    }
  }

  ghost function AuthsOf(ues: map<int, UeRow>, auths: map<int, AuthRow>): map<int, AuthData>
    requires AuthsOk(ues, auths)
  {
    Index(AuthEntries(auths))
  }

  // What the tables mean once the surrogate ids below the UE are forgotten.
  datatype View = View(
    apns: set<string>,
    services: map<string, Resource>,
    catalog: Table<Slice>,
    ues: Table<UeRow>,
    auths: map<int, AuthData>,
    forest: Forest)

  ghost function ViewOf(t: Tables): View
    requires Integrity(t)
  {
    View(t.apns, t.services, t.catalog, t.ues, AuthsOf(t.ues.rows, t.auths.rows), ForestOf(t))
  }
}
