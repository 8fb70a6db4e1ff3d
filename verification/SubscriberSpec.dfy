// What each store operation means on the abstract view: a forest of subscription trees beside the
// catalog, the UE table and the authentication data. The class in SubscriberStore.dfy runs the
// statements and is proved to compute these functions.
module SubscriberSpec {
  import opened Wrappers
  import opened Text
  import opened Decimal
  import opened SubscriberTables

  // ---- Subscription trees as callers write them ----

  datatype TreeService = TreeService(serviceName: string, isDefault: bool)
  datatype TreeDnn = TreeDnn(dnn: string, isDefault: bool, services: seq<TreeService>)
  datatype TreeSlice = TreeSlice(nssaiId: int, sst: int, sd: string, isDefault: bool, dnns: seq<TreeDnn>)

  // INSERT OR IGNORE under a UNIQUE key: the first value stays.
  function PutNew<K>(m: map<K, bool>, k: K, flag: bool): map<K, bool> {
    if k in m then m else m[k := flag]
  }

  function PutSliceKey(f: Forest, k: SliceKey, flag: bool): Forest {
    f.(slices := PutNew(f.slices, k, flag))
  }

  function PutDnnKey(f: Forest, k: DnnKey, flag: bool): Forest {
    f.(dnns := PutNew(f.dnns, k, flag))
  }

  function PutServiceKey(f: Forest, k: ServiceKey, flag: bool): Forest {
    f.(services := PutNew(f.services, k, flag))
  }

  function PutService(f: Forest, d: DnnKey, sv: TreeService): Forest {
    if sv.serviceName == "" then f else PutServiceKey(f, ServiceKey(d, sv.serviceName), sv.isDefault)
  }

  function PutServices(f: Forest, d: DnnKey, services: seq<TreeService>): Forest
    decreases |services|
  {
    if services == [] then f else PutServices(PutService(f, d, services[0]), d, services[1..])
  }

  function PutDnn(f: Forest, s: SliceKey, dn: TreeDnn): Forest {
    if dn.dnn == "" then f else
      PutServices(PutDnnKey(f, DnnKey(s, dn.dnn), dn.isDefault), DnnKey(s, dn.dnn), dn.services)
  }

  function PutDnns(f: Forest, s: SliceKey, dnns: seq<TreeDnn>): Forest
    decreases |dnns|
  {
    if dnns == [] then f else PutDnns(PutDnn(f, s, dnns[0]), s, dnns[1..])
  }

  function PutSlice(f: Forest, s: SliceKey, sl: TreeSlice): Forest {
    PutDnns(PutSliceKey(f, s, sl.isDefault), s, sl.dnns)
  }

  // What the foreign keys of a binding or a DNN row may name.
  datatype Names = Names(apns: set<string>, services: set<string>)

  function NamesOf(v: View): Names {
    Names(v.apns, v.services.Keys)
  }

  predicate ServicesKnown(n: Names, services: seq<TreeService>) {
    forall k :: 0 <= k < |services| && services[k].serviceName != "" ==> services[k].serviceName in n.services
  }

  // The DNN and services of an item exist, so its rows satisfy their foreign keys.
  predicate NameKnown(n: Names, dn: TreeDnn) {
    dn.dnn != "" ==> dn.dnn in n.apns && ServicesKnown(n, dn.services)
  }

  predicate NamesKnown(n: Names, dnns: seq<TreeDnn>) {
    forall j :: 0 <= j < |dnns| ==> NameKnown(n, dnns[j])
  }

  // ---- The slice catalog ----

  // IFNULL(sd, '') equals the argument.
  predicate SameSlice(row: Slice, sst: int, sd: string) {
    row.sst == sst && row.sd.GetOr("") == sd
  }

  function NullIfEmpty(s: string): Option<string> {
    if s == "" then None else Some(s)
  }

  // The row a lookup by slice returns: several rows may match when their SD is NULL, the lowest id is read.
  ghost predicate Finds(rows: map<int, Slice>, sst: int, sd: string, id: int) {
    && id in rows
    && SameSlice(rows[id], sst, sd)
    && forall j :: j in rows && SameSlice(rows[j], sst, sd) ==> id <= j
  }

  lemma LowestExists(ids: set<int>) returns (id: int)
    requires ids != {}
    ensures id in ids && forall j :: j in ids ==> id <= j
    decreases |ids|
  {
    var x :| x in ids;
    id := x;
    if j :| j in ids && j < x {
      var below := set i | i in ids && i < x;
      assert x !in below && j in below;
      SubsetSize(below, ids);
      id := LowestExists(below);
      forall i | i in ids
        ensures id <= i
      {
        if i < x { assert i in below; }
      }
    }
  }

  lemma SubsetSize(a: set<int>, b: set<int>)
    requires a < b
    ensures |a| < |b|
  {
    assert b == a + (b - a);
    assert b - a != {};
  }

  // A lookup fails only when no row matches.
  lemma FindsIfAny(rows: map<int, Slice>, sst: int, sd: string)
    ensures (exists id :: Finds(rows, sst, sd, id)) <==> (exists i :: i in rows && SameSlice(rows[i], sst, sd))
  {
    if i :| i in rows && SameSlice(rows[i], sst, sd) {
      var ids := set j | j in rows && SameSlice(rows[j], sst, sd);
      assert i in ids;
      var id := LowestExists(ids);
      assert forall j :: j in rows && SameSlice(rows[j], sst, sd) ==> j in ids;
      assert Finds(rows, sst, sd, id);
    }
  }

  ghost function GetOrCreate(cat: Table<Slice>, sst: int, sd: string): (Table<Slice>, int) {
    var d := Trim(sd);
    if exists id :: Finds(cat.rows, sst, d, id) then
      var id :| Finds(cat.rows, sst, d, id);
      (cat, id)
    else
      (cat.Add(Slice(sst, NullIfEmpty(d))), cat.next)
  }

  // A row of this SST and SD, column by column: without an SD the column is NULL or empty.
  predicate HasColumns(row: Slice, sst: int, sd: string) {
    && row.sst == sst
    && (sd != "" ==> row.sd == Some(sd))
    && (sd == "" ==> row.sd == None || row.sd == Some(""))
  }

  lemma SameSliceMeans(row: Slice, sst: int, sd: string)
    ensures SameSlice(row, sst, sd) <==> HasColumns(row, sst, sd)
  {
  }

  // What the columns show of a lookup: the row found or added has the SST and the trimmed SD. It is the lowest
  // such row; a row is added exactly when there is none.
  lemma GetOrCreateColumns(cat: Table<Slice>, sst: int, sd: string)
    requires cat.Sound()
    ensures var (cat', id) := GetOrCreate(cat, sst, sd);
      && id in cat'.rows && HasColumns(cat'.rows[id], sst, Trim(sd))
      && (cat' == cat <==> exists i :: i in cat.rows && HasColumns(cat.rows[i], sst, Trim(sd)))
      && (cat' == cat ==> forall i :: i in cat.rows && HasColumns(cat.rows[i], sst, Trim(sd)) ==> id <= i)
      && (cat' != cat ==> id == cat.next && id !in cat.rows && cat'.next == id + 1)
      && (cat' != cat ==> cat'.rows == cat.rows[id := Slice(sst, if Trim(sd) == "" then None else Some(Trim(sd)))])
  {
    FindsIfAny(cat.rows, sst, Trim(sd));
    if i :| i in cat.rows && HasColumns(cat.rows[i], sst, Trim(sd)) {
      SameSliceMeans(cat.rows[i], sst, Trim(sd));
    }
    assert cat.next !in cat.rows;
  }

  // The catalog id of a listed slice: its own id, which must exist, or the one looked up by value.
  ghost function Resolve(cat: Table<Slice>, sl: TreeSlice): Option<(Table<Slice>, int)> {
    if sl.nssaiId == 0 then Some(GetOrCreate(cat, sl.sst, sl.sd))
    else if sl.nssaiId in cat.rows then Some((cat, sl.nssaiId))
    else None
  }

  // ---- Saving a tree ----

  ghost function StoreSlice(v: View, ue: int, sl: TreeSlice): Option<View> {
    match Resolve(v.catalog, sl)
    case None => None
    case Some((cat, id)) =>
      if NamesKnown(NamesOf(v), sl.dnns) then
        Some(v.(catalog := cat, forest := PutSlice(v.forest, SliceKey(ue, id), sl)))
      else
        None
  }

  ghost function PutTree(v: View, ue: int, slices: seq<TreeSlice>): Option<View>
    decreases |slices|
  {
    if slices == [] then Some(v) else
      match StoreSlice(v, ue, slices[0])
      case None => None
      case Some(v') => PutTree(v', ue, slices[1..])
  }

  // The forest without one UE's tree.
  function Without(f: Forest, ue: int): Forest {
    Forest(map k | k in f.slices && k.ue != ue :: f.slices[k],
           map k | k in f.dnns && k.Ue() != ue :: f.dnns[k],
           map k | k in f.services && k.Ue() != ue :: f.services[k])
  }

  ghost function Provision(v: View, ue: int, slices: seq<TreeSlice>): Option<View> {
    PutTree(v.(forest := Without(v.forest, ue)), ue, slices)
  }

  ghost function FindUe(ues: map<int, UeRow>, imsi: string): (r: Option<int>)
    ensures r.Some? ==> r.value in ues && ues[r.value].imsi == imsi
    ensures r.None? ==> forall u :: u in ues ==> ues[u].imsi != imsi
  {
    if exists u :: u in ues && ues[u].imsi == imsi then
      var u :| u in ues && ues[u].imsi == imsi;
      Some(u)
    else
      None
  }

  ghost function SaveTree(v: View, imsi: string, slices: seq<TreeSlice>): Result<View> {
    match FindUe(v.ues.rows, imsi)
    case None => Err(NotFound)
    case Some(ue) =>
      match Provision(v, ue, slices)
      case None => Err(Constraint)
      case Some(v') => Ok(v')
  }

  // ---- Bulk provisioning ----

  datatype BulkTemplate = BulkTemplate(
    kdfVersion: string, opType: string, amf: string, initialSqn: int, suciProfile: string, hnPrivateKey: string,
    ambrDl: int, ambrUl: int, tree: seq<TreeSlice>)
  datatype BulkEntry = BulkEntry(imsi: string, msisdn: string)

  predicate TemplateOk(p: BulkTemplate) {
    && p.kdfVersion != ""
    && p.opType in {"", "OP", "OPC"}
    && (p.amf == "" || IsHex(p.amf, 4))
    && p.suciProfile in {"", "A", "B"}
    && (p.hnPrivateKey == "" || IsHex(p.hnPrivateKey, 64))
  }

  // digest stands for the hexadecimal first half of SHA-256.
  function BulkAuth(p: BulkTemplate, imsi: string, digest: string -> string): AuthData {
    AuthData(if p.opType == "OP" then OP else OPC,
             digest(imsi + "MMT-OPc-" + p.kdfVersion), digest(imsi + "MMT-K-" + p.kdfVersion),
             p.initialSqn, NullIfEmpty(Lower(p.amf)), NullIfEmpty(p.suciProfile), NullIfEmpty(Lower(p.hnPrivateKey)))
  }

  // The UE table after an upsert by IMSI, and the id of the row.
  ghost function UpsertUe(ues: Table<UeRow>, row: UeRow): (Table<UeRow>, int) {
    match FindUe(ues.rows, row.imsi)
    case Some(u) => (ues.(rows := ues.rows[u := row]), u)
    case None => (ues.Add(row), ues.next)
  }

  // An existing row keeps its enabled flag.
  ghost function BulkRow(ues: map<int, UeRow>, p: BulkTemplate, e: BulkEntry): (row: UeRow)
    ensures row.imsi == Trim(e.imsi)
  {
    match FindUe(ues, Trim(e.imsi))
    case Some(u) => ues[u].(msisdn := Some(e.msisdn), ambrDl := p.ambrDl, ambrUl := p.ambrUl)
    case None => UeRow(Trim(e.imsi), Some(e.msisdn), true, p.ambrDl, p.ambrUl)
  }

  ghost function BulkUe(v: View, p: BulkTemplate, e: BulkEntry): (Table<UeRow>, int) {
    UpsertUe(v.ues, BulkRow(v.ues.rows, p, e))
  }

  // One listed UE: its row and authentication data, then the same save as a single tree.
  ghost function ProvisionOne(v: View, p: BulkTemplate, e: BulkEntry, digest: string -> string): Result<View> {
    if Trim(e.imsi) == "" then Err(Invalid) else
      var (ues, ue) := BulkUe(v, p, e);
      SaveTree(v.(ues := ues, auths := v.auths[ue := BulkAuth(p, Trim(e.imsi), digest)]), Trim(e.imsi), p.tree)
  }

  ghost function ProvisionAll(v: View, p: BulkTemplate, es: seq<BulkEntry>, digest: string -> string): Result<View>
    decreases |es|
  {
    if es == [] then Ok(v) else
      match ProvisionOne(v, p, es[0], digest)
      case Err(e) => Err(e)
      case Ok(v') => ProvisionAll(v', p, es[1..], digest)
  }

  ghost function Bulk(v: View, p: BulkTemplate, es: seq<BulkEntry>, digest: string -> string): Result<View> {
    if es == [] || !TemplateOk(p) then Err(Invalid) else ProvisionAll(v, p, es, digest)
  }

  // ---- Deep clone ----

  // The paths of src, moved to dst.
  function MovedSlices(m: map<SliceKey, bool>, src: int, dst: int): (r: set<SliceKey>)
    ensures forall k {:trigger k in r} :: k in r <==> k.ue == dst && k.At(src) in m
  {
    var r := set k | k in m && k.ue == src :: k.At(dst);
    assert forall k: SliceKey :: k.ue == dst && k.At(src) in m ==> k.At(src).At(dst) == k;
    r
  }

  function MovedDnns(m: map<DnnKey, bool>, src: int, dst: int): (r: set<DnnKey>)
    ensures forall k {:trigger k in r} :: k in r <==> k.Ue() == dst && k.At(src) in m
  {
    var r := set k | k in m && k.Ue() == src :: k.At(dst);
    assert forall k: DnnKey :: k.Ue() == dst && k.At(src) in m ==> k.At(src).At(dst) == k;
    r
  }

  function MovedServices(m: map<ServiceKey, bool>, src: int, dst: int): (r: set<ServiceKey>)
    ensures forall k {:trigger k in r} :: k in r <==> k.Ue() == dst && k.At(src) in m
  {
    var r := set k | k in m && k.Ue() == src :: k.At(dst);
    assert forall k: ServiceKey :: k.Ue() == dst && k.At(src) in m ==> k.At(src).At(dst) == k;
    r
  }

  function SliceMoves(m: map<SliceKey, bool>, src: int, dst: int): map<SliceKey, bool> {
    map k | k in MovedSlices(m, src, dst) :: m[k.At(src)]
  }

  function DnnMoves(m: map<DnnKey, bool>, src: int, dst: int): map<DnnKey, bool> {
    map k | k in MovedDnns(m, src, dst) :: m[k.At(src)]
  }

  function ServiceMoves(m: map<ServiceKey, bool>, src: int, dst: int): map<ServiceKey, bool> {
    map k | k in MovedServices(m, src, dst) :: m[k.At(src)]
  }

  // The paths of src moved to dst, beside everything already there. On a shared path the old flag stays.
  function MergeInto(f: Forest, src: int, dst: int): Forest {
    Forest(SliceMoves(f.slices, src, dst) + f.slices,
           DnnMoves(f.dnns, src, dst) + f.dnns,
           ServiceMoves(f.services, src, dst) + f.services)
  }

  // The source's authentication data as a clone stores it: lower-case keys, sequence number reset.
  function CopyAuth(a: AuthData): AuthData {
    AuthData(a.opType, Lower(a.op), Lower(a.k), 0, Some(Lower(a.amf.GetOr(""))),
             NullIfEmpty(a.suciProfile.GetOr("")), NullIfEmpty(Lower(a.hnPrivateKey.GetOr(""))))
  }

  // The destination's row: an empty MSISDN stands for the source's.
  function CloneRow(from: UeRow, imsi: string, msisdn: string): UeRow {
    UeRow(imsi, Some(if msisdn == "" then from.msisdn.GetOr("") else msisdn), from.enabled, from.ambrDl, from.ambrUl)
  }

  // The view after cloning UE src into an IMSI, and the id of the destination.
  ghost function CloneAt(v: View, src: int, imsi: string, msisdn: string): (View, int)
    requires src in v.ues.rows && src in v.auths
  {
    var row := CloneRow(v.ues.rows[src], imsi, msisdn);
    var (ues, dst) := UpsertUe(v.ues, row);
    (v.(ues := ues, auths := v.auths[dst := CopyAuth(v.auths[src])], forest := MergeInto(v.forest, src, dst)), dst)
  }

  ghost function Clone(v: View, srcImsi: string, dstImsi: string, dstMsisdn: string): Result<View> {
    var s, d := Trim(srcImsi), Trim(dstImsi);
    if s == "" || d == "" then Err(Invalid) else
      match FindUe(v.ues.rows, s)
      case None => Err(NotFound)
      case Some(src) => if src in v.auths then Ok(CloneAt(v, src, d, dstMsisdn).0) else Err(NotFound)
  }

  // ---- Delete ----

  ghost function Delete(v: View, imsi: string): View {
    match FindUe(v.ues.rows, imsi)
    case None => v
    case Some(ue) =>
      v.(ues := v.ues.(rows := v.ues.rows - {ue}), auths := v.auths - {ue}, forest := Without(v.forest, ue))
  }

  // ---- One binding ----

  // The rows a binding hangs on: created default where missing.
  function PutParents(f: Forest, k: DnnKey): Forest {
    PutDnnKey(PutSliceKey(f, k.slice, true), k, true)
  }

  function SetFlag(f: Forest, k: ServiceKey, flag: bool): Forest {
    f.(services := f.services[k := flag])
  }

  // The UE row is committed before the transaction that may fail on the names.
  ghost function BindUe(v: View, imsi: string): (View, int) {
    match FindUe(v.ues.rows, imsi)
    case Some(u) => (v, u)
    case None => (v.(ues := v.ues.Add(UeRow(imsi, None, true, 1000000, 1000000))), v.ues.next)
  }

  // The path a binding is stored on.
  ghost function BindKey(cat: Table<Slice>, ue: int, dnn: string, sst: int, sd: string, svc: string): ServiceKey {
    ServiceKey(DnnKey(SliceKey(ue, GetOrCreate(cat, sst, sd).1), dnn), svc)
  }

  ghost function BindPath(v: View, ue: int, dnn: string, sst: int, sd: string, svc: string, flag: bool): Result<View> {
    var k := BindKey(v.catalog, ue, dnn, sst, sd, svc);
    if dnn !in v.apns || svc !in v.services then Err(Constraint) else
      Ok(v.(catalog := GetOrCreate(v.catalog, sst, sd).0, forest := SetFlag(PutParents(v.forest, k.dnn), k, flag)))
  }

  predicate BindArgsOk(v: View, imsi: string, dnn: string, svc: string, flag: bool) {
    && imsi != "" && dnn != "" && svc != ""
    && (flag ==> svc in v.services && v.services[svc] == NonGBR)
  }

  // The view afterwards and the error, if any.
  ghost function Bind(v: View, imsi: string, dnn: string, sst: int, sd: string, service: string, flag: bool)
    : (View, Option<Error>)
  {
    var i, d, s := Trim(imsi), Trim(dnn), Trim(service);
    if !BindArgsOk(v, i, d, s, flag) then (v, Some(Invalid)) else
      var (v1, ue) := BindUe(v, i);
      match BindPath(v1, ue, d, sst, Upper(Trim(sd)), s, flag)
      case Ok(v2) => (v2, None)
      case Err(e) => (v1, Some(e))
  }

  // ---- Ranges of IMSIs ----

  // The MSISDN of a cloned IMSI: what follows the MCC and a two-digit MNC.
  function MsisdnOf(imsi: string): string {
    if |imsi| > 5 then imsi[5..] else imsi
  }

  // One round of a range clone, in its own transaction, takes view a to view b.
  ghost predicate Cloned(src: string, imsi: string, a: View, b: View) {
    Clone(a, src, imsi, MsisdnOf(imsi)) == Ok(b)
  }

  ghost predicate CloneFails(src: string, imsi: string, a: View, e: Error) {
    e == Driver || Clone(a, src, imsi, MsisdnOf(imsi)) == Err(e)
  }

  ghost predicate Deleted(imsi: string, a: View, b: View) {
    b == Delete(a, imsi)
  }

  // The IMSIs of a range, consecutive from its start.
  ghost predicate Consecutive(start: string, imsis: seq<string>) {
    forall i :: 0 <= i < |imsis| ==> IsNth(imsis[i], start, i)
  }

  // The views between the rounds of a range clone, and of a range delete.
  ghost predicate CloneTrace(src: string, imsis: seq<string>, views: seq<View>) {
    |views| == |imsis| + 1 && forall i :: 0 <= i < |imsis| ==> Cloned(src, imsis[i], views[i], views[i + 1])
  }

  ghost predicate DeleteTrace(imsis: seq<string>, views: seq<View>) {
    |views| == |imsis| + 1 && forall i :: 0 <= i < |imsis| ==> Deleted(imsis[i], views[i], views[i + 1])
  }

  // The rounds of a loop: the IMSIs it worked on and the views from before the call to after it.
  datatype Rounds = Rounds(imsis: seq<string>, views: seq<View>) {
    ghost predicate Span(start: string, before: View, now: View) {
      && |views| == |imsis| + 1
      && views[0] == before && views[|imsis|] == now
      && Consecutive(start, imsis)
    }

    // How many of the first n IMSIs had a UE in their round.
    ghost function Found(n: nat): nat
      requires n <= |imsis| < |views|
    {
      if n == 0 then 0 else Found(n - 1) + if FindUe(views[n - 1].ues.rows, imsis[n - 1]).Some? then 1 else 0
    }

    function Add(imsi: string, now: View): Rounds {
      Rounds(imsis + [imsi], views + [now])
    }
  }

  predicate RangeArgsOk(start: string, count: int) {
    start != "" && IsDigits(start) && count > 0
  }

  // ---- Deleting bindings by filter ----

  // An empty text and an absent SST match everything.
  datatype BindingFilter = BindingFilter(dnn: string, sst: Option<int>, sd: string, service: string)

  predicate SliceMatches(row: Slice, f: BindingFilter) {
    && (f.sst.Some? ==> row.sst == f.sst.value)
    && (f.sd != "" ==> row.sd.GetOr("") == Upper(f.sd))
  }

  predicate Filtered(catalog: map<int, Slice>, ue: int, f: BindingFilter, k: ServiceKey) {
    && k.Ue() == ue
    && k.dnn.slice.nssai in catalog && SliceMatches(catalog[k.dnn.slice.nssai], f)
    && (f.dnn != "" ==> k.dnn.dnn == f.dnn)
    && (f.service != "" ==> k.service == f.service)
  }

  function Unbound(m: map<ServiceKey, bool>, catalog: map<int, Slice>, ue: int, f: BindingFilter): map<ServiceKey, bool> {
    map k | k in m && !Filtered(catalog, ue, f, k) :: m[k]
  }

  function Matching(m: map<ServiceKey, bool>, catalog: map<int, Slice>, ue: int, f: BindingFilter): set<ServiceKey> {
    set k | k in m && Filtered(catalog, ue, f, k)
  }

  lemma UnboundSize(m: map<ServiceKey, bool>, catalog: map<int, Slice>, ue: int, f: BindingFilter)
    ensures |m| - |Unbound(m, catalog, ue, f)| == |Matching(m, catalog, ue, f)|
  {
    var kept, gone := Unbound(m, catalog, ue, f).Keys, Matching(m, catalog, ue, f);
    assert m.Keys == kept + gone && kept !! gone;
  }

  // How many bindings of a UE a filter matches.
  ghost function MatchCount(v: View, imsi: string, f: BindingFilter): nat {
    match FindUe(v.ues.rows, imsi)
    case None => 0
    case Some(ue) => |Matching(v.forest.services, v.catalog.rows, ue, f)|
  }

  ghost function Unbind(v: View, imsi: string, f: BindingFilter): View {
    match FindUe(v.ues.rows, imsi)
    case None => v
    case Some(ue) => v.(forest := v.forest.(services := Unbound(v.forest.services, v.catalog.rows, ue, f)))
  }

  // ---- Replacing only the slices of a UE ----

  datatype SubscribedItem = SubscribedItem(nssaiId: int, sst: Option<int>, sd: string, isDefault: bool)

  // An item without an id and without an SST is skipped.
  function AsSlices(items: seq<SubscribedItem>): seq<TreeSlice> {
    if items == [] then [] else
      var it := items[0];
      (if it.nssaiId == 0 && it.sst.None? then [] else [TreeSlice(it.nssaiId, it.sst.GetOr(0), it.sd, it.isDefault, [])])
      + AsSlices(items[1..])
  }

  // ---- Replacing only the DNNs of a UE ----

  datatype SliceDnnItem = SliceDnnItem(sst: int, sd: string, dnn: string, isDefault: bool)

  // How the request names a slice: SST and upper-case SD.
  datatype SliceName = SliceName(sst: int, sd: string)

  function NameOf(row: Slice): SliceName {
    SliceName(row.sst, Upper(row.sd.GetOr("")))
  }

  function ItemName(it: SliceDnnItem): SliceName {
    SliceName(it.sst, Upper(Trim(it.sd)))
  }

  // The lookup table the save builds: each name of a subscribed slice of the UE, with one slice of that name.
  ghost predicate PicksSlices(v: View, ue: int, pick: map<SliceName, int>) {
    && (forall k :: k in v.forest.slices && k.ue == ue && k.nssai in v.catalog.rows ==> NameOf(v.catalog.rows[k.nssai]) in pick)
    && (forall n :: n in pick ==> SliceKey(ue, pick[n]) in v.forest.slices
                                  && pick[n] in v.catalog.rows && NameOf(v.catalog.rows[pick[n]]) == n)
  }

  // The forest without the DNNs, and their bindings, of some slices.
  function DropDnns(f: Forest, gone: set<SliceKey>): Forest {
    f.(dnns := map k | k in f.dnns && k.slice !in gone :: f.dnns[k],
       services := map k | k in f.services && k.dnn.slice !in gone :: f.services[k])
  }

  function PickedKeys(ue: int, pick: map<SliceName, int>): set<SliceKey> {
    set n | n in pick :: SliceKey(ue, pick[n])
  }

  function PutItem(f: Forest, ue: int, pick: map<SliceName, int>, it: SliceDnnItem): Forest {
    if ItemName(it) in pick then PutDnnKey(f, DnnKey(SliceKey(ue, pick[ItemName(it)]), it.dnn), it.isDefault) else f
  }

  function PutItems(f: Forest, ue: int, pick: map<SliceName, int>, items: seq<SliceDnnItem>): Forest
    decreases |items|
  {
    if items == [] then f else PutItems(PutItem(f, ue, pick, items[0]), ue, pick, items[1..])
  }

  // Every item of a known slice names a configured DNN.
  predicate ItemsKnown(apns: set<string>, pick: map<SliceName, int>, items: seq<SliceDnnItem>) {
    forall i :: 0 <= i < |items| && ItemName(items[i]) in pick ==> items[i].dnn in apns
  }

  ghost function SaveDnns(v: View, ue: int, pick: map<SliceName, int>, items: seq<SliceDnnItem>): Result<View> {
    if ItemsKnown(v.apns, pick, items) then
      Ok(v.(forest := PutItems(DropDnns(v.forest, PickedKeys(ue, pick)), ue, pick, items)))
    else
      Err(Constraint)
  }
}
