// The boot seeder of the UE roster (core/db/seed/ue.go), over the subscriber store. It is not a transaction:
// each statement stands on its own, and an error leaves what was done.
module SubscriberSeed {
  import opened Wrappers
  import opened SubscriberTables
  import opened SubscriberSpec
  import opened SubscriberSql
  import opened SubscriberTrees
  import opened SubscriberStore
  import BootRepair
  import M = Manifest

  datatype Roster = Roster(bucket: M.Bucket, slices: seq<int>, dnns: seq<string>, defaultDnn: string, ambrDl: int, ambrUl: int)
  datatype Credentials = Credentials(k: string -> string, opc: string -> string, sqn: int, amf: string)
  datatype Binding = Binding(dnn: string, service: string, isDefault: bool)

  const DEFAULT_BINDINGS: seq<Binding> := [
    Binding("internet", "default_data", true),
    Binding("ims", "ims_signalling", true),
    Binding("ims", "conv_voice", false),
    Binding("ims", "conv_video", false),
    Binding("mcx", "mcx_signalling", true),
    Binding("mcx", "mcptt_voice", false),
    Binding("mcx", "mcvideo", false),
    Binding("mcx", "mcdata", false)
  ]

  // ---- What seeding means on the view ----

  function SeedDnns(f: Forest, s: SliceKey, dnns: seq<string>, default: string, apns: set<string>): Forest
    decreases |dnns|
  {
    if dnns == [] then f else
      var f' := if dnns[0] in apns then PutDnnKey(f, DnnKey(s, dnns[0]), dnns[0] == default) else f;
      SeedDnns(f', s, dnns[1..], default, apns)
  }

  // A default binding is stored when its service exists and its DNN is one of the UE's and configured.
  function SeedBinding(f: Forest, s: SliceKey, b: Binding, dnns: seq<string>, n: Names): Forest {
    if b.service in n.services && b.dnn in dnns && b.dnn in n.apns then
      PutServiceKey(f, ServiceKey(DnnKey(s, b.dnn), b.service), b.isDefault)
    else
      f
  }

  function SeedBindings(f: Forest, s: SliceKey, bs: seq<Binding>, dnns: seq<string>, n: Names): Forest
    decreases |bs|
  {
    if bs == [] then f else SeedBindings(SeedBinding(f, s, bs[0], dnns, n), s, bs[1..], dnns, n)
  }

  function SeedSlice(f: Forest, s: SliceKey, flag: bool, r: Roster, n: Names): Forest {
    SeedBindings(SeedDnns(PutSliceKey(f, s, flag), s, r.dnns, r.defaultDnn, n.apns), s, DEFAULT_BINDINGS, r.dnns, n)
  }

  // The slices of a roster from index k on; only the first is the default one.
  function SeedSlices(f: Forest, ue: int, r: Roster, ids: map<int, int>, n: Names, k: nat): Forest
    decreases |r.slices| - k
  {
    if k >= |r.slices| then f else
      var f' := if r.slices[k] in ids then SeedSlice(f, SliceKey(ue, ids[r.slices[k]]), k == 0, r, n) else f;
      SeedSlices(f', ue, r, ids, n, k + 1)
  }

  function SeedAuth(c: Credentials, imsi: string): AuthData {
    AuthData(OPC, c.opc(imsi), c.k(imsi), c.sqn, Some(c.amf), None, None)
  }

  // An IMSI that is there is skipped, whatever it has.
  ghost function SeedOne(v: View, r: Roster, idx: nat, ids: map<int, int>, c: Credentials): View {
    var imsi := M.BucketImsi(r.bucket, idx);
    if FindUe(v.ues.rows, imsi).Some? then v else
      var ue := v.ues.next;
      v.(ues := v.ues.Add(UeRow(imsi, Some(M.BucketMsisdn(r.bucket, idx)), true, r.ambrDl, r.ambrUl)),
         auths := v.auths[ue := SeedAuth(c, imsi)],
         forest := SeedSlices(v.forest, ue, r, ids, NamesOf(v), 0))
  }

  // The first n UEs of a bucket, then whole buckets.
  ghost function SeedBucket(v: View, r: Roster, ids: map<int, int>, c: Credentials, n: nat): View {
    if n == 0 then v else SeedOne(SeedBucket(v, r, ids, c, n - 1), r, n - 1, ids, c)
  }

  function Size(r: Roster): nat {
    if r.bucket.count < 0 then 0 else r.bucket.count
  }

  lemma SizeMeans(r: Roster, idx: int)
    ensures 0 <= idx < Size(r) <==> 0 <= idx < r.bucket.count
  {
  }

  ghost function SeedAll(v: View, rs: seq<Roster>, ids: map<int, int>, c: Credentials): View {
    if rs == [] then v else
      SeedBucket(SeedAll(v, rs[..|rs| - 1], ids, c), rs[|rs| - 1], ids, c, Size(rs[|rs| - 1]))
  }

  // ---- Which paths a seeded UE has ----

  lemma {:induction false} SeedDnnsMeans(f: Forest, s: SliceKey, dnns: seq<string>, default: string, apns: set<string>, k: DnnKey)
    ensures var f' := SeedDnns(f, s, dnns, default, apns);
      && f' == f.(dnns := f'.dnns)
      && Flag(f'.dnns, k) == if k in f.dnns then Flag(f.dnns, k)
                             else if k.slice == s && k.dnn in dnns && k.dnn in apns then Some(k.dnn == default) else None
    decreases |dnns|
  {
    if dnns == [] {
    } else {
      assert dnns == [dnns[0]] + dnns[1..];
      var f' := if dnns[0] in apns then PutDnnKey(f, DnnKey(s, dnns[0]), dnns[0] == default) else f;
      SeedDnnsMeans(f', s, dnns[1..], default, apns, k);
    }
  }

  // The flag of the first binding of a DNN to a service.
  function BindingFlag(bs: seq<Binding>, dnn: string, service: string): Option<bool> {
    if bs == [] then None
    else if bs[0].dnn == dnn && bs[0].service == service then Some(bs[0].isDefault)
    else BindingFlag(bs[1..], dnn, service)
  }

  lemma {:induction false} SeedBindingsMeans(f: Forest, s: SliceKey, bs: seq<Binding>, dnns: seq<string>, n: Names, k: ServiceKey)
    ensures var f' := SeedBindings(f, s, bs, dnns, n);
      && f' == f.(services := f'.services)
      && Flag(f'.services, k) == if k in f.services then Flag(f.services, k)
                                 else if k.dnn.slice == s && Seedable(dnns, n, k) then BindingFlag(bs, k.dnn.dnn, k.service)
                                 else None
    decreases |bs|
  {
    if bs == [] {
    } else {
      var f' := SeedBinding(f, s, bs[0], dnns, n);
      SeedBindingsMeans(f', s, bs[1..], dnns, n, k);
    }
  }

  predicate Seedable(dnns: seq<string>, n: Names, k: ServiceKey) {
    k.service in n.services && k.dnn.dnn in dnns && k.dnn.dnn in n.apns
  }

  // What a slice adds to a path that is not there: the roster's DNNs, and the default bindings of those.
  function DnnFlag(r: Roster, n: Names, dnn: string): Option<bool> {
    if dnn in r.dnns && dnn in n.apns then Some(dnn == r.defaultDnn) else None
  }

  function ServiceFlag(r: Roster, n: Names, k: ServiceKey): Option<bool> {
    if Seedable(r.dnns, n, k) then BindingFlag(DEFAULT_BINDINGS, k.dnn.dnn, k.service) else None
  }

  // f' is f with, when p's slice is linked, the paths of p that f does not have.
  ghost predicate Adds(f: Forest, f': Forest, linked: bool, flag: bool, r: Roster, n: Names, p: ServiceKey) {
    && Flag(f'.slices, p.dnn.slice) == (if p.dnn.slice in f.slices then Flag(f.slices, p.dnn.slice)
                                        else if linked then Some(flag) else None)
    && Flag(f'.dnns, p.dnn) == (if p.dnn in f.dnns then Flag(f.dnns, p.dnn)
                                else if linked then DnnFlag(r, n, p.dnn.dnn) else None)
    && Flag(f'.services, p) == (if p in f.services then Flag(f.services, p)
                                else if linked then ServiceFlag(r, n, p) else None)
  }

  lemma SeedSliceAdds(f: Forest, s: SliceKey, flag: bool, r: Roster, n: Names, p: ServiceKey)
    ensures Adds(f, SeedSlice(f, s, flag, r, n), p.dnn.slice == s, flag, r, n, p)
  {
    var f1 := PutSliceKey(f, s, flag);
    var f2 := SeedDnns(f1, s, r.dnns, r.defaultDnn, n.apns);
    SeedDnnsMeans(f1, s, r.dnns, r.defaultDnn, n.apns, p.dnn);
    SeedBindingsMeans(f2, s, DEFAULT_BINDINGS, r.dnns, n, p);
  }

  lemma AddsThen(f: Forest, f1: Forest, f2: Forest, a: bool, flagA: bool, b: bool, flagB: bool, r: Roster, n: Names, p: ServiceKey)
    requires Adds(f, f1, a, flagA, r, n, p) && Adds(f1, f2, b, flagB, r, n, p)
    ensures Adds(f, f2, a || b, if a then flagA else flagB, r, n, p)
  {
  }

  // Slice index i of the roster is linked to catalog row id.
  predicate LinksTo(r: Roster, ids: map<int, int>, i: int, id: int) {
    0 <= i < |r.slices| && r.slices[i] in ids && ids[r.slices[i]] == id
  }

  ghost predicate LinkedFrom(r: Roster, ids: map<int, int>, k: nat, id: int) {
    exists i :: k <= i && LinksTo(r, ids, i, id)
  }

  lemma LinkedStep(r: Roster, ids: map<int, int>, k: nat, id: int)
    requires k < |r.slices|
    ensures LinkedFrom(r, ids, k, id) <==> LinksTo(r, ids, k, id) || LinkedFrom(r, ids, k + 1, id)
  {
    if LinkedFrom(r, ids, k, id) && !LinksTo(r, ids, k, id) {
      var i :| k <= i && LinksTo(r, ids, i, id);
      assert k + 1 <= i;
    }
  }

  // The paths that seeding the slices from index k on adds for one UE.
  lemma {:induction false} SeedSlicesAdds(f: Forest, ue: int, r: Roster, ids: map<int, int>, n: Names, k: nat, p: ServiceKey)
    ensures var s := p.dnn.slice;
      Adds(f, SeedSlices(f, ue, r, ids, n, k), s.ue == ue && LinkedFrom(r, ids, k, s.nssai),
           k == 0 && LinksTo(r, ids, 0, s.nssai), r, n, p)
    decreases |r.slices| - k
  {
    if k >= |r.slices| {
    } else {
      var nssai := p.dnn.slice.nssai;
      LinkedStep(r, ids, k, nssai);
      if r.slices[k] in ids {
        var s := SliceKey(ue, ids[r.slices[k]]);
        var f1 := SeedSlice(f, s, k == 0, r, n);
        SeedSliceAdds(f, s, k == 0, r, n, p);
        SeedSlicesAdds(f1, ue, r, ids, n, k + 1, p);
        AddsThen(f, f1, SeedSlices(f1, ue, r, ids, n, k + 1), p.dnn.slice == s, k == 0,
                 p.dnn.slice.ue == ue && LinkedFrom(r, ids, k + 1, nssai), false, r, n, p);
      } else {
        SeedSlicesAdds(f, ue, r, ids, n, k + 1, p);
      }
    }
  }

  ghost predicate NoPaths(f: Forest, ue: int) {
    && (forall k :: k in f.slices ==> k.ue != ue)
    && (forall k :: k in f.dnns ==> k.Ue() != ue)
    && (forall k :: k in f.services ==> k.Ue() != ue)
  }

  // A newly seeded UE is subscribed to the linked slices of its bucket, the first of which is the default one;
  // each of them has the bucket's configured DNNs, with the bucket's default DNN, and on those the default
  // bindings of configured services. No other UE's path changes.
  lemma SeededPaths(f: Forest, ue: int, r: Roster, ids: map<int, int>, n: Names, p: ServiceKey)
    requires NoPaths(f, ue)
    ensures var f', s := SeedSlices(f, ue, r, ids, n, 0), p.dnn.slice;
      var linked := LinkedFrom(r, ids, 0, s.nssai);
      && (s.ue == ue ==>
            && Flag(f'.slices, s) == (if linked then Some(LinksTo(r, ids, 0, s.nssai)) else None)
            && Flag(f'.dnns, p.dnn) == (if linked then DnnFlag(r, n, p.dnn.dnn) else None)
            && Flag(f'.services, p) == (if linked then ServiceFlag(r, n, p) else None))
      && (s.ue != ue ==>
            && Flag(f'.slices, s) == Flag(f.slices, s)
            && Flag(f'.dnns, p.dnn) == Flag(f.dnns, p.dnn)
            && Flag(f'.services, p) == Flag(f.services, p))
  {
    SeedSlicesAdds(f, ue, r, ids, n, 0, p);
  }

  // The default bindings: a DNN is bound to a service with a flag exactly when that is one of the list.
  lemma DefaultBindings(dnn: string, service: string, flag: bool)
    ensures BindingFlag(DEFAULT_BINDINGS, dnn, service) == Some(flag) <==> Binding(dnn, service, flag) in DEFAULT_BINDINGS
  {
    BindingListed(DEFAULT_BINDINGS, dnn, service, flag);
  }

  lemma {:induction false} BindingListed(bs: seq<Binding>, dnn: string, service: string, flag: bool)
    requires forall i, j :: 0 <= i < j < |bs| ==> bs[i].dnn != bs[j].dnn || bs[i].service != bs[j].service
    ensures BindingFlag(bs, dnn, service) == Some(flag) <==> Binding(dnn, service, flag) in bs
  {
    if bs == [] {
    } else {
      assert bs == [bs[0]] + bs[1..];
      BindingListed(bs[1..], dnn, service, flag);
    }
  }

  // ---- A seeding that stops half way ----

  ghost predicate MapWithin<K>(a: map<K, bool>, b: map<K, bool>) {
    forall k :: k in a ==> k in b && b[k] == a[k]
  }

  // Every path of f is one of g, with the same flag.
  ghost predicate ForestWithin(f: Forest, g: Forest) {
    MapWithin(f.slices, g.slices) && MapWithin(f.dnns, g.dnns) && MapWithin(f.services, g.services)
  }

  lemma WithinOnward(f: Forest, g: Forest, h: Forest)
    requires ForestWithin(f, g) && ForestWithin(g, h)
    ensures ForestWithin(f, h)
  {
  }

  lemma {:induction false} SeedDnnsGrow(f: Forest, s: SliceKey, dnns: seq<string>, default: string, apns: set<string>)
    ensures ForestWithin(f, SeedDnns(f, s, dnns, default, apns))
    decreases |dnns|
  {
    if dnns == [] {
    } else {
      var f' := if dnns[0] in apns then PutDnnKey(f, DnnKey(s, dnns[0]), dnns[0] == default) else f;
      SeedDnnsGrow(f', s, dnns[1..], default, apns);
      WithinOnward(f, f', SeedDnns(f, s, dnns, default, apns));
    }
  }

  lemma {:induction false} SeedBindingsGrow(f: Forest, s: SliceKey, bs: seq<Binding>, dnns: seq<string>, n: Names)
    ensures ForestWithin(f, SeedBindings(f, s, bs, dnns, n))
    decreases |bs|
  {
    if bs == [] {
    } else {
      var f' := SeedBinding(f, s, bs[0], dnns, n);
      SeedBindingsGrow(f', s, bs[1..], dnns, n);
      WithinOnward(f, f', SeedBindings(f, s, bs, dnns, n));
    }
  }

  lemma SeedSliceGrow(f: Forest, s: SliceKey, flag: bool, r: Roster, n: Names)
    ensures ForestWithin(f, SeedSlice(f, s, flag, r, n))
  {
    var f1 := PutSliceKey(f, s, flag);
    var f2 := SeedDnns(f1, s, r.dnns, r.defaultDnn, n.apns);
    SeedDnnsGrow(f1, s, r.dnns, r.defaultDnn, n.apns);
    SeedBindingsGrow(f2, s, DEFAULT_BINDINGS, r.dnns, n);
    WithinOnward(f, f1, f2);
    WithinOnward(f, f2, SeedSlice(f, s, flag, r, n));
  }

  lemma {:induction false} SeedSlicesGrow(f: Forest, ue: int, r: Roster, ids: map<int, int>, n: Names, k: nat)
    ensures ForestWithin(f, SeedSlices(f, ue, r, ids, n, k))
    decreases |r.slices| - k
  {
    if k >= |r.slices| {
    } else {
      var f' := if r.slices[k] in ids then SeedSlice(f, SliceKey(ue, ids[r.slices[k]]), k == 0, r, n) else f;
      if r.slices[k] in ids { SeedSliceGrow(f, SliceKey(ue, ids[r.slices[k]]), k == 0, r, n); }
      SeedSlicesGrow(f', ue, r, ids, n, k + 1);
      WithinOnward(f, f', SeedSlices(f, ue, r, ids, n, k));
    }
  }

  // g lies between f and h: nothing of f is missing, nothing beyond h is there.
  ghost predicate Between(f: Forest, g: Forest, h: Forest) {
    ForestWithin(f, g) && ForestWithin(g, h)
  }

  // On the way from one view to another: the UE row and the authentication data are stored or not, and the
  // subscription as far as it goes is the one that was to be stored.
  ghost predicate HalfWay(before: View, now: View, after: View) {
    && now == before.(ues := now.ues, auths := now.auths, forest := now.forest)
    && (now.ues == before.ues || now.ues == after.ues)
    && (now.auths == before.auths || now.auths == after.auths)
    && Between(before.forest, now.forest, after.forest)
  }

  // The next seeding does not repair that: it passes over a UE exactly when its row is there.
  lemma SeedOneSkips(v: View, r: Roster, idx: nat, ids: map<int, int>, c: Credentials)
    requires v.ues.Sound()
    ensures SeedOne(v, r, idx, ids, c) == v <==> Present(v, M.BucketImsi(r.bucket, idx))
  {
    if !Present(v, M.BucketImsi(r.bucket, idx)) {
      assert v.ues.next !in v.ues.rows && v.ues.next in SeedOne(v, r, idx, ids, c).ues.rows;
    }
  }

  // What the columns show of a new UE: its IMSI and MSISDN are numbered by its index in the bucket, it is
  // enabled at the bucket's rates, and its keys are those derived for its IMSI.
  lemma SeedOneColumns(v: View, r: Roster, idx: nat, ids: map<int, int>, c: Credentials)
    requires v.ues.Sound() && forall u :: u in v.ues.rows ==> v.ues.rows[u].imsi != M.BucketImsi(r.bucket, idx)
    ensures var v', ue := SeedOne(v, r, idx, ids, c), v.ues.next;
      && v'.ues.rows.Keys == v.ues.rows.Keys + {ue} && ue !in v.ues.rows && v'.ues.next == ue + 1
      && (forall u :: u in v.ues.rows ==> v'.ues.rows[u] == v.ues.rows[u])
      && v'.ues.rows[ue].imsi == M.BucketImsi(r.bucket, idx)
      && v'.ues.rows[ue].msisdn == Some(M.BucketMsisdn(r.bucket, idx))
      && v'.ues.rows[ue].enabled && v'.ues.rows[ue].ambrDl == r.ambrDl && v'.ues.rows[ue].ambrUl == r.ambrUl
    ensures var v', ue, imsi := SeedOne(v, r, idx, ids, c), v.ues.next, M.BucketImsi(r.bucket, idx);
      && ue in v'.auths && (forall u :: u != ue ==> (u in v'.auths <==> u in v.auths) && (u in v.auths ==> v'.auths[u] == v.auths[u]))
      && v'.auths[ue].opType == OPC && v'.auths[ue].op == c.opc(imsi) && v'.auths[ue].k == c.k(imsi)
      && v'.auths[ue].sqn == c.sqn && v'.auths[ue].amf == Some(c.amf)
      && v'.auths[ue].suciProfile == None && v'.auths[ue].hnPrivateKey == None
    ensures SeedOne(v, r, idx, ids, c).forest == SeedSlices(v.forest, v.ues.next, r, ids, NamesOf(v), 0)
  {
    assert FindUe(v.ues.rows, M.BucketImsi(r.bucket, idx)) == None;
  }

  // ---- Seeding twice ----

  ghost predicate Present(v: View, imsi: string) {
    FindUe(v.ues.rows, imsi).Some?
  }

  lemma SeedOnePresent(v: View, r: Roster, idx: nat, ids: map<int, int>, c: Credentials)
    ensures Present(SeedOne(v, r, idx, ids, c), M.BucketImsi(r.bucket, idx))
    ensures v.ues.Sound() ==> SeedOne(v, r, idx, ids, c).ues.Sound()
    ensures v.ues.Sound() ==> forall imsi :: Present(v, imsi) ==> Present(SeedOne(v, r, idx, ids, c), imsi)
  {
    var v' := SeedOne(v, r, idx, ids, c);
    if FindUe(v.ues.rows, M.BucketImsi(r.bucket, idx)).None? {
      assert v'.ues.rows[v.ues.next].imsi == M.BucketImsi(r.bucket, idx);
      if v.ues.Sound() {
        forall imsi | Present(v, imsi) ensures Present(v', imsi) {
          assert v'.ues.rows[FindUe(v.ues.rows, imsi).value].imsi == imsi;
        }
      }
    }
  }

  lemma {:induction false} SeedBucketGrows(v: View, r: Roster, ids: map<int, int>, c: Credentials, n: nat, imsi: string)
    requires v.ues.Sound()
    ensures SeedBucket(v, r, ids, c, n).ues.Sound()
    ensures Present(v, imsi) ==> Present(SeedBucket(v, r, ids, c, n), imsi)
  {
    if n == 0 {
    } else {
      SeedBucketGrows(v, r, ids, c, n - 1, imsi);
      SeedOnePresent(SeedBucket(v, r, ids, c, n - 1), r, n - 1, ids, c);
    }
  }

  lemma {:induction false} SeedBucketPresent(v: View, r: Roster, ids: map<int, int>, c: Credentials, n: nat, i: nat)
    requires v.ues.Sound() && i < n
    ensures Present(SeedBucket(v, r, ids, c, n), M.BucketImsi(r.bucket, i))
  {
    var imsi := M.BucketImsi(r.bucket, i);
    SeedBucketGrows(v, r, ids, c, n - 1, imsi);
    SeedOnePresent(SeedBucket(v, r, ids, c, n - 1), r, n - 1, ids, c);
    if i < n - 1 {
      SeedBucketPresent(v, r, ids, c, n - 1, i);
    }
  }

  ghost predicate AllPresent(v: View, rs: seq<Roster>) {
    forall b, i :: 0 <= b < |rs| && 0 <= i < Size(rs[b]) ==> Present(v, M.BucketImsi(rs[b].bucket, i))
  }

  lemma {:induction false} SeedAllPresent(v: View, rs: seq<Roster>, ids: map<int, int>, c: Credentials)
    requires v.ues.Sound()
    ensures SeedAll(v, rs, ids, c).ues.Sound() && AllPresent(SeedAll(v, rs, ids, c), rs)
  {
    if rs == [] {
    } else {
      var last := rs[|rs| - 1];
      var before := SeedAll(v, rs[..|rs| - 1], ids, c);
      SeedAllPresent(v, rs[..|rs| - 1], ids, c);
      SeedBucketGrows(before, last, ids, c, Size(last), "");
      forall b, i | 0 <= b < |rs| && 0 <= i < Size(rs[b])
        ensures Present(SeedBucket(before, last, ids, c, Size(last)), M.BucketImsi(rs[b].bucket, i))
      {
        if b < |rs| - 1 {
          assert rs[..|rs| - 1][b] == rs[b];
          SeedBucketGrows(before, last, ids, c, Size(last), M.BucketImsi(rs[b].bucket, i));
        } else {
          SeedBucketPresent(before, last, ids, c, Size(last), i);
        }
      }
    }
  }

  lemma {:induction false} SeedPresentBucket(v: View, r: Roster, ids: map<int, int>, c: Credentials, n: nat)
    requires forall i :: 0 <= i < n ==> Present(v, M.BucketImsi(r.bucket, i))
    ensures SeedBucket(v, r, ids, c, n) == v
  {
    if n == 0 {
    } else {
      SeedPresentBucket(v, r, ids, c, n - 1);
    }
  }

  lemma {:induction false} SeedPresent(v: View, rs: seq<Roster>, ids: map<int, int>, c: Credentials)
    requires AllPresent(v, rs)
    ensures SeedAll(v, rs, ids, c) == v
  {
    if rs == [] {
    } else {
      SeedPresent(v, rs[..|rs| - 1], ids, c);
      SeedPresentBucket(v, rs[|rs| - 1], ids, c, Size(rs[|rs| - 1]));
    }
  }

  // Seeding after a complete seeding changes no UE, authentication data or subscription, whatever slice ids
  // and credentials the second one would use.
  lemma SeedTwice(v: View, rs: seq<Roster>, ids: map<int, int>, c: Credentials, ids': map<int, int>, c': Credentials)
    requires v.ues.Sound()
    ensures SeedAll(SeedAll(v, rs, ids, c), rs, ids', c') == SeedAll(v, rs, ids, c)
  {
    SeedAllPresent(v, rs, ids, c);
    SeedPresent(SeedAll(v, rs, ids, c), rs, ids', c');
  }

  // ---- The statements ----

  // The id of each SST is that of a catalog row of the SST.
  ghost predicate IdsKnown(catalog: map<int, Slice>, ids: map<int, int>) {
    forall s :: s in ids ==> ids[s] in catalog && catalog[ids[s]].sst == s
  }

  // Only subscription rows may differ.
  ghost predicate SameOuter(a: Tables, b: Tables) {
    b.ues == a.ues && b.auths == a.auths && b.catalog == a.catalog && b.apns == a.apns && b.services == a.services
  }

  method SeedDnnRow(w0: Tables, usn: int, dnn: string, flag: bool) returns (ok: bool, w: Tables)
    requires Integrity(w0) && usn in w0.usns.rows && dnn in w0.apns
    ensures Integrity(w) && SameOuter(w0, w) && w.usns == w0.usns && (!ok ==> w == w0)
    ensures ok ==> ForestOf(w) == PutDnnKey(ForestOf(w0), DnnKey(UsnKey(w0.usns.rows, usn), dnn), flag)
  {
    if * { return false, w0; }
    var x := InsertUsd(w0, usn, dnn, flag);
    ok, w := true, x.value;
  }

  lemma DnnsProgress(f0: Forest, f: Forest, s: SliceKey, dnns: seq<string>, i: nat, default: string, apns: set<string>, goal: Forest)
    requires i < |dnns| && Between(f0, f, goal) && SeedDnns(f, s, dnns[i..], default, apns) == goal
    ensures var f' := if dnns[i] in apns then PutDnnKey(f, DnnKey(s, dnns[i]), dnns[i] == default) else f;
      Between(f0, f', goal) && SeedDnns(f', s, dnns[i + 1..], default, apns) == goal
  {
    assert dnns[i..][1..] == dnns[i + 1..];
    var f' := if dnns[i] in apns then PutDnnKey(f, DnnKey(s, dnns[i]), dnns[i] == default) else f;
    SeedDnnsGrow(f', s, dnns[i + 1..], default, apns);
  }

  method SeedDnnRows(w0: Tables, usn: int, dnns: seq<string>, default: string) returns (ok: bool, w: Tables)
    requires Integrity(w0) && usn in w0.usns.rows
    ensures Integrity(w) && SameOuter(w0, w) && w.usns == w0.usns
    ensures var f := SeedDnns(ForestOf(w0), UsnKey(w0.usns.rows, usn), dnns, default, w0.apns);
      Between(ForestOf(w0), ForestOf(w), f) && (ok ==> ForestOf(w) == f)
  {
    w := w0;
    ghost var s, apns, f0 := UsnKey(w0.usns.rows, usn), w0.apns, ForestOf(w0);
    ghost var goal := SeedDnns(f0, s, dnns, default, apns);
    SeedDnnsGrow(f0, s, dnns, default, apns);
    for i := 0 to |dnns|
      invariant Integrity(w) && SameOuter(w0, w) && w.usns == w0.usns
      invariant Between(f0, ForestOf(w), goal) && SeedDnns(ForestOf(w), s, dnns[i..], default, apns) == goal
    {
      DnnsProgress(f0, ForestOf(w), s, dnns, i, default, apns, goal);
      if dnns[i] in w.apns {
        var added, w' := SeedDnnRow(w, usn, dnns[i], dnns[i] == default);
        if !added { return false, w'; }
        w := w';
      }
    }
    ok := true;
  }

  // A default binding of a DNN the slice has.
  method SeedBindingRow(w0: Tables, usn: int, b: Binding) returns (ok: bool, w: Tables)
    requires Integrity(w0) && usn in w0.usns.rows && b.service in w0.services
    requires DnnKey(UsnKey(w0.usns.rows, usn), b.dnn) in ForestOf(w0).dnns
    ensures Integrity(w) && SameOuter(w0, w) && w.usns == w0.usns && w.usds == w0.usds && (!ok ==> w == w0)
    ensures ok ==> ForestOf(w) ==
                   PutServiceKey(ForestOf(w0), ServiceKey(DnnKey(UsnKey(w0.usns.rows, usn), b.dnn), b.service), b.isDefault)
  {
    if * { return false, w0; }
    var usd := FindUsd(w0, usn, b.dnn);
    var x := InsertSb(w0, usd.value, b.service, b.isDefault);
    ok, w := true, x.value;
  }

  lemma BindingsProgress(f0: Forest, f: Forest, s: SliceKey, bs: seq<Binding>, i: nat, dnns: seq<string>, n: Names, goal: Forest)
    requires i < |bs| && Between(f0, f, goal) && SeedBindings(f, s, bs[i..], dnns, n) == goal
    ensures var f' := SeedBinding(f, s, bs[i], dnns, n);
      Between(f0, f', goal) && SeedBindings(f', s, bs[i + 1..], dnns, n) == goal
  {
    assert bs[i..][1..] == bs[i + 1..];
    SeedBindingsGrow(SeedBinding(f, s, bs[i], dnns, n), s, bs[i + 1..], dnns, n);
  }

  // `dnns` are the keys of the ids the DNN loop collected.
  method SeedBindingRows(w0: Tables, usn: int, bs: seq<Binding>, dnns: seq<string>) returns (ok: bool, w: Tables)
    requires Integrity(w0) && usn in w0.usns.rows
    requires forall d :: d in dnns && d in w0.apns ==> DnnKey(UsnKey(w0.usns.rows, usn), d) in ForestOf(w0).dnns
    ensures Integrity(w) && SameOuter(w0, w) && w.usns == w0.usns
    ensures var f := SeedBindings(ForestOf(w0), UsnKey(w0.usns.rows, usn), bs, dnns, NamesIn(w0));
      Between(ForestOf(w0), ForestOf(w), f) && (ok ==> ForestOf(w) == f)
  {
    w := w0;
    ghost var s, n, f0 := UsnKey(w0.usns.rows, usn), NamesIn(w0), ForestOf(w0);
    ghost var goal := SeedBindings(f0, s, bs, dnns, n);
    SeedBindingsGrow(f0, s, bs, dnns, n);
    for i := 0 to |bs|
      invariant Integrity(w) && SameOuter(w0, w) && w.usns == w0.usns && ForestOf(w).dnns == f0.dnns
      invariant Between(f0, ForestOf(w), goal) && SeedBindings(ForestOf(w), s, bs[i..], dnns, n) == goal
    {
      BindingsProgress(f0, ForestOf(w), s, bs, i, dnns, n, goal);
      if bs[i].service in w.services && bs[i].dnn in dnns && bs[i].dnn in w.apns {
        var added, w' := SeedBindingRow(w, usn, bs[i]);
        if !added { return false, w'; }
        w := w';
      }
    }
    ok := true;
  }

  lemma {:induction false} SeededDnns(f: Forest, s: SliceKey, dnns: seq<string>, default: string, apns: set<string>)
    ensures forall k :: k in f.dnns ==> k in SeedDnns(f, s, dnns, default, apns).dnns
    ensures forall d :: d in dnns && d in apns ==> DnnKey(s, d) in SeedDnns(f, s, dnns, default, apns).dnns
    decreases |dnns|
  {
    if dnns == [] {
    } else {
      var f' := if dnns[0] in apns then PutDnnKey(f, DnnKey(s, dnns[0]), dnns[0] == default) else f;
      assert dnns == [dnns[0]] + dnns[1..];
      SeededDnns(f', s, dnns[1..], default, apns);
    }
  }

  method SeedSliceRows(w0: Tables, ue: int, nssai: int, flag: bool, r: Roster) returns (ok: bool, w: Tables)
    requires Integrity(w0) && ue in w0.ues.rows && nssai in w0.catalog.rows
    ensures Integrity(w) && SameOuter(w0, w)
    ensures var f := SeedSlice(ForestOf(w0), SliceKey(ue, nssai), flag, r, NamesIn(w0));
      Between(ForestOf(w0), ForestOf(w), f) && (ok ==> ForestOf(w) == f)
  {
    ghost var s, n := SliceKey(ue, nssai), NamesIn(w0);
    SeedSliceGrow(ForestOf(w0), s, flag, r, n);
    if * { return false, w0; }
    var w1, usn := LinkSlice(w0, ue, nssai, flag);
    ok, w := SeedDnnRows(w1, usn, r.dnns, r.defaultDnn);
    ghost var f1, f2 := ForestOf(w1), SeedDnns(ForestOf(w1), s, r.dnns, r.defaultDnn, w1.apns);
    SeedBindingsGrow(f2, s, DEFAULT_BINDINGS, r.dnns, n);
    SliceBetween(ForestOf(w0), f1, ForestOf(w), f2, SeedBindings(f2, s, DEFAULT_BINDINGS, r.dnns, n));
    if ok {
      ghost var w2 := w;
      SeededDnns(f1, s, r.dnns, r.defaultDnn, w1.apns);
      ok, w := SeedBindingRows(w, usn, DEFAULT_BINDINGS, r.dnns);
      WithinOnward(ForestOf(w0), ForestOf(w2), ForestOf(w));
    }
  }

  lemma SliceBetween(f0: Forest, f1: Forest, f: Forest, f2: Forest, goal: Forest)
    requires ForestWithin(f0, f1) && Between(f1, f, f2) && ForestWithin(f2, goal)
    ensures Between(f0, f, goal)
  {
  }

  method SeedSlicesRows(w0: Tables, ue: int, r: Roster, ids: map<int, int>) returns (ok: bool, w: Tables)
    requires Integrity(w0) && ue in w0.ues.rows && IdsKnown(w0.catalog.rows, ids)
    ensures Integrity(w) && SameOuter(w0, w)
    ensures var f := SeedSlices(ForestOf(w0), ue, r, ids, NamesIn(w0), 0);
      Between(ForestOf(w0), ForestOf(w), f) && (ok ==> ForestOf(w) == f)
  {
    w := w0;
    ghost var n := NamesIn(w0);
    ghost var goal := SeedSlices(ForestOf(w0), ue, r, ids, n, 0);
    for k := 0 to |r.slices|
      invariant Integrity(w) && SameOuter(w0, w)
      invariant SeedSlices(ForestOf(w), ue, r, ids, n, k) == goal && ForestWithin(ForestOf(w0), ForestOf(w))
    {
      var sst := r.slices[k];
      if sst in ids {
        assert ids[sst] in w0.catalog.rows;
        ghost var f := SeedSlice(ForestOf(w), SliceKey(ue, ids[sst]), k == 0, r, n);
        SeedSlicesGrow(f, ue, r, ids, n, k + 1);
        var added, w' := SeedSliceRows(w, ue, ids[sst], k == 0, r);
        SliceBetween(ForestOf(w0), ForestOf(w), ForestOf(w'), f, goal);
        if !added { return false, w'; }
        w := w';
      }
    }
    ok := true;
  }

  // UE and authentication rows that were there are not touched.
  ghost predicate OldKept(a: Tables, b: Tables) {
    && Within(a.ues.rows, b.ues.rows) && Within(a.auths.rows, b.auths.rows)
    && a.catalog == b.catalog && a.apns == b.apns && a.services == b.services
  }

  // The UE row and its authentication data.
  method SeedUeRow(w0: Tables, row: UeRow, data: AuthData) returns (ok: bool, w: Tables, ue: int)
    requires Integrity(w0) && FindUe(w0.ues.rows, row.imsi) == None
    ensures Integrity(w) && OldKept(w0, w)
    ensures ok ==> ue == w0.ues.next && ue in w.ues.rows
    ensures ok ==> ViewOf(w) == ViewOf(w0).(ues := w0.ues.Add(row), auths := ViewOf(w0).auths[ue := data])
    ensures !ok ==> ViewOf(w) == ViewOf(w0) || ViewOf(w) == ViewOf(w0).(ues := w0.ues.Add(row))
  {
    ue := 0;
    if * { return false, w0, ue; }
    w, ue := InsertUe(w0, row);
    if * { return false, w, ue; }
    forall a | a in w.auths.rows ensures w.auths.rows[a].ueId != ue { assert w0.auths.rows[a].ueId in w0.ues.rows; }
    w := UpsertAuth(w, ue, data);
    ok := true;
  }

  lemma OnlyForestChanges(a: Tables, b: Tables)
    requires Integrity(a) && Integrity(b) && SameOuter(a, b)
    ensures ViewOf(b) == ViewOf(a).(forest := ForestOf(b))
  {
  }

  // seedOneUE.
  method SeedUe(w0: Tables, r: Roster, idx: nat, ids: map<int, int>, c: Credentials) returns (ok: bool, w: Tables)
    requires Integrity(w0) && IdsKnown(w0.catalog.rows, ids)
    ensures Integrity(w) && OldKept(w0, w)
    ensures ok ==> ViewOf(w) == SeedOne(ViewOf(w0), r, idx, ids, c)
    ensures !ok ==> HalfWay(ViewOf(w0), ViewOf(w), SeedOne(ViewOf(w0), r, idx, ids, c))
  {
    var imsi := M.BucketImsi(r.bucket, idx);
    var found := FindUeRow(w0, imsi);
    if found.Some? { return true, w0; }
    var ue;
    SeedSlicesGrow(ForestOf(w0), w0.ues.next, r, ids, NamesIn(w0), 0);
    ok, w, ue := SeedUeRow(w0, UeRow(imsi, Some(M.BucketMsisdn(r.bucket, idx)), true, r.ambrDl, r.ambrUl), SeedAuth(c, imsi));
    if ok {
      ghost var w1 := w;
      ok, w := SeedSlicesRows(w, ue, r, ids);
      OnlyForestChanges(w1, w);
    }
  }

  // ---- The whole roster ----

  lemma CatalogExtended(w: Tables, cat: Table<Slice>)
    requires Integrity(w) && BootRepair.Grows(w.catalog, cat) && cat.Sound() && CatalogOk(cat.rows)
    ensures Integrity(w.(catalog := cat)) && ViewOf(w.(catalog := cat)) == ViewOf(w).(catalog := cat)
  {
  }

  datatype ManifestSlice = ManifestSlice(sst: int, sd: string)

  lemma RowStays(cat: Table<Slice>, cat': Table<Slice>, id: int)
    requires id in cat.rows && BootRepair.Grows(cat, cat')
    ensures id in cat'.rows && cat'.rows[id] == cat.rows[id]
  {
  }

  lemma IdsStayKnown(cat: Table<Slice>, cat': Table<Slice>, ids: map<int, int>)
    requires IdsKnown(cat.rows, ids) && BootRepair.Grows(cat, cat')
    ensures IdsKnown(cat'.rows, ids)
  {
    forall s | s in ids ensures ids[s] in cat'.rows && cat'.rows[ids[s]].sst == s { RowStays(cat, cat', ids[s]); }
  }

  // Of the first n slices, none after i has its SST.
  predicate LastOfSst(slices: seq<ManifestSlice>, n: nat, i: int)
    requires 0 <= i < n <= |slices|
  {
    forall j :: i < j < n ==> slices[j].sst != slices[i].sst
  }

  // The ids are those of the first n SSTs listed, each of a row with the SST and SD of the last slice of that SST.
  ghost predicate IdsOfSlices(catalog: map<int, Slice>, slices: seq<ManifestSlice>, n: nat, ids: map<int, int>)
    requires n <= |slices|
  {
    && (forall s :: s in ids <==> exists i :: 0 <= i < n && slices[i].sst == s)
    && (forall i :: 0 <= i < n && LastOfSst(slices, n, i) ==> Linked(catalog, slices[i], ids))
  }

  predicate Linked(catalog: map<int, Slice>, sl: ManifestSlice, ids: map<int, int>) {
    sl.sst in ids && BootRepair.LinkRight(catalog, BootRepair.PlmnSlice("", sl.sst, sl.sd), ids[sl.sst])
  }

  lemma LinkedStays(cat: Table<Slice>, cat': Table<Slice>, sl: ManifestSlice, ids: map<int, int>, sst: int, id: int)
    requires Linked(cat.rows, sl, ids) && BootRepair.Grows(cat, cat') && sl.sst != sst
    ensures Linked(cat'.rows, sl, ids[sst := id])
  {
    RowStays(cat, cat', ids[sl.sst]);
  }

  lemma IdsOfNext(cat: Table<Slice>, cat': Table<Slice>, slices: seq<ManifestSlice>, n: nat, ids: map<int, int>, id: int)
    requires n < |slices| && IdsOfSlices(cat.rows, slices, n, ids) && BootRepair.Grows(cat, cat')
    requires BootRepair.LinkRight(cat'.rows, BootRepair.PlmnSlice("", slices[n].sst, slices[n].sd), id)
    ensures IdsOfSlices(cat'.rows, slices, n + 1, ids[slices[n].sst := id])
  {
    var ids' := ids[slices[n].sst := id];
    forall i | 0 <= i < n + 1 && LastOfSst(slices, n + 1, i)
      ensures Linked(cat'.rows, slices[i], ids')
    {
      if i < n {
        assert LastOfSst(slices, n, i);
        LinkedStays(cat, cat', slices[i], ids, slices[n].sst, id);
      }
    }
  }

  // ensureNSSAICatalog: the id of each slice by SST; of two slices with one SST the later one.
  method EnsureCatalog(cat: Table<Slice>, slices: seq<ManifestSlice>) returns (ok: bool, cat': Table<Slice>, ids: map<int, int>)
    requires cat.Sound() && CatalogOk(cat.rows)
    ensures cat'.Sound() && CatalogOk(cat'.rows) && BootRepair.Grows(cat, cat')
    ensures IdsKnown(cat'.rows, ids)
    ensures ok ==> IdsOfSlices(cat'.rows, slices, |slices|, ids)
    ensures ok ==> forall i :: 0 <= i < |slices| && LastOfSst(slices, |slices|, i) ==>
              slices[i].sst in ids && ids[slices[i].sst] in cat'.rows
              && HasColumns(cat'.rows[ids[slices[i].sst]], slices[i].sst, slices[i].sd)
  {
    cat', ids := cat, map[];
    for i := 0 to |slices|
      invariant cat'.Sound() && CatalogOk(cat'.rows) && BootRepair.Grows(cat, cat')
      invariant IdsKnown(cat'.rows, ids)
      invariant IdsOfSlices(cat'.rows, slices, i, ids)
    {
      var id;
      ghost var before := cat';
      cat', id := BootRepair.LinkId(cat', BootRepair.PlmnSlice("", slices[i].sst, slices[i].sd));
      IdsStayKnown(before, cat', ids);
      if id.None? { return false, cat', ids; }
      IdsOfNext(before, cat', slices, i, ids, id.value);
      ids := ids[slices[i].sst := id.value];
    }
    ok := true;
  }

  lemma KeptOnwards(a: Tables, b: Tables, c: Tables)
    requires OldKept(a, b) && OldKept(b, c)
    ensures OldKept(a, c)
  {
  }

  // A seeding of one bucket stopped at some UE: those before it are complete.
  ghost predicate StopsIn(v: View, r: Roster, ids: map<int, int>, c: Credentials, now: View) {
    exists i :: 0 <= i < Size(r) && HalfWay(SeedBucket(v, r, ids, c, i), now, SeedBucket(v, r, ids, c, i + 1))
  }

  ghost predicate Stops(v: View, rs: seq<Roster>, ids: map<int, int>, c: Credentials, now: View) {
    exists b :: 0 <= b < |rs| && StopsIn(SeedAll(v, rs[..b], ids, c), rs[b], ids, c, now)
  }

  method SeedBucketRows(w0: Tables, r: Roster, ids: map<int, int>, c: Credentials) returns (ok: bool, w: Tables)
    requires Integrity(w0) && IdsKnown(w0.catalog.rows, ids)
    ensures Integrity(w) && OldKept(w0, w)
    ensures ok ==> ViewOf(w) == SeedBucket(ViewOf(w0), r, ids, c, Size(r))
    ensures !ok ==> StopsIn(ViewOf(w0), r, ids, c, ViewOf(w))
  {
    w := w0;
    ghost var v0, catalog := ViewOf(w0), w0.catalog.rows;
    for i := 0 to Size(r)
      invariant Integrity(w) && w.catalog.rows == catalog && OldKept(w0, w)
      invariant ViewOf(w) == SeedBucket(v0, r, ids, c, i)
    {
      var seeded, w' := SeedUe(w, r, i, ids, c);
      KeptOnwards(w0, w, w');
      if !seeded {
        assert HalfWay(SeedBucket(v0, r, ids, c, i), ViewOf(w'), SeedBucket(v0, r, ids, c, i + 1));
        return false, w';
      }
      w := w';
    }
    ok := true;
  }

  method SeedRosterRows(w0: Tables, rs: seq<Roster>, ids: map<int, int>, c: Credentials) returns (ok: bool, w: Tables)
    requires Integrity(w0) && IdsKnown(w0.catalog.rows, ids)
    ensures Integrity(w) && OldKept(w0, w)
    ensures ok ==> ViewOf(w) == SeedAll(ViewOf(w0), rs, ids, c)
    ensures !ok ==> Stops(ViewOf(w0), rs, ids, c, ViewOf(w))
  {
    w := w0;
    ghost var v0, catalog := ViewOf(w0), w0.catalog.rows;
    for b := 0 to |rs|
      invariant Integrity(w) && w.catalog.rows == catalog && OldKept(w0, w)
      invariant ViewOf(w) == SeedAll(v0, rs[..b], ids, c)
    {
      assert rs[..b + 1][..b] == rs[..b];
      var seeded, w' := SeedBucketRows(w, rs[b], ids, c);
      KeptOnwards(w0, w, w');
      if !seeded { return false, w'; }
      w := w';
    }
    assert rs[..|rs|] == rs;
    ok := true;
  }

  // SeedDefaultUEs, on the store itself. UE and authentication rows that were there are never touched, whether
  // it fails or not.
  method SeedDefaultUEs(store: SubscriberDb, slices: seq<ManifestSlice>, rs: seq<Roster>, c: Credentials)
    returns (ok: bool, ghost ids: map<int, int>)
    requires store.Valid()
    modifies store`db
    ensures store.Valid()
    ensures Within(old(store.db).ues.rows, store.db.ues.rows) && Within(old(store.db).auths.rows, store.db.auths.rows)
    ensures BootRepair.Grows(old(store.db).catalog, store.db.catalog)
    ensures IdsKnown(store.db.catalog.rows, ids) && (ok ==> IdsOfSlices(store.db.catalog.rows, slices, |slices|, ids))
    ensures ok ==> store.Now() == SeedAll(old(store.Now()).(catalog := store.db.catalog), rs, ids, c)
    ensures !ok ==>
              var v := old(store.Now()).(catalog := store.db.catalog);
              store.Now() == v || (IdsOfSlices(store.db.catalog.rows, slices, |slices|, ids) && Stops(v, rs, ids, c, store.Now()))
    ensures ok && AllPresent(old(store.Now()), rs) ==> store.Now() == old(store.Now()).(catalog := store.db.catalog)
  {
    var seeded, cat, found := EnsureCatalog(store.db.catalog, slices);
    ids := found;
    CatalogExtended(store.db, cat);
    store.db := store.db.(catalog := cat);
    if !seeded { return false, ids; }
    var w := store.db;
    ghost var v1 := ViewOf(w);
    var filled, w' := SeedRosterRows(w, rs, found, c);
    store.db := w';
    ok := filled;
    if ok && AllPresent(old(store.Now()), rs) {
      SeedPresent(v1, rs, ids, c);
    }
  }
}
