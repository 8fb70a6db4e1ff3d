// What the tables' integrity says of their view, and the laws of the deep clone: it merges trees, cloning again
// changes nothing, and it keeps the view sound.
module SubscriberTheorems {
  import opened Wrappers
  import opened Text
  import opened SubscriberTables
  import opened SubscriberSpec
  import opened SubscriberTrees

  // What keys and foreign keys say of the view.
  ghost predicate ViewSound(v: View) {
    && v.ues.Sound() && UesOk(v.ues.rows) && v.catalog.Sound() && CatalogOk(v.catalog.rows)
    && Closed(v.forest)
    && (forall k :: k in v.forest.slices ==> k.ue in v.ues.rows && k.nssai in v.catalog.rows)
    && (forall k :: k in v.forest.dnns ==> k.dnn in v.apns)
    && (forall k :: k in v.forest.services ==> k.service in v.services)
    && (forall u :: u in v.auths ==> u in v.ues.rows)
  }

  // What integrity of the tables says of the view.
  ghost predicate ViewOk(v: View) {
    ViewSound(v) && NamesOk(v.apns, v.services)
  }

  lemma IntegrityMeansViewOk(t: Tables)
    requires Integrity(t)
    ensures ViewOk(ViewOf(t))
  {
    PathsAreUnique(t);
    ForestClosed(t);
    forall k | k in ForestOf(t).dnns
      ensures k.dnn in t.apns
    {
      var m := UsdEntries(t.usns.rows, t.usds.rows);
      var d :| d in m && m[d].key == k;
    }
    forall k | k in ForestOf(t).services
      ensures k.service in t.services
    {
      var m := SbEntries(t.usns.rows, t.usds.rows, t.sbs.rows);
      var b :| b in m && m[b].key == k;
    }
    forall u | u in ViewOf(t).auths
      ensures u in t.ues.rows
    {
      var m := AuthEntries(t.auths.rows);
      var a :| a in m && m[a].key == u;
    }
  }

  // ---- What two views agree on ----

  // One UE's row, authentication data and tree are the same in both views.
  ghost predicate SameUe(v: View, v': View, ue: int) {
    && Lookup(v.ues.rows, ue) == Lookup(v'.ues.rows, ue)
    && Lookup(v.auths, ue) == Lookup(v'.auths, ue)
    && SameTreeOf(v.forest, v'.forest, ue)
  }

  ghost predicate SameTreeOf(f: Forest, g: Forest, ue: int) {
    && (forall k: SliceKey :: k.ue == ue ==> Flag(f.slices, k) == Flag(g.slices, k))
    && (forall k: DnnKey :: k.Ue() == ue ==> Flag(f.dnns, k) == Flag(g.dnns, k))
    && (forall k: ServiceKey :: k.Ue() == ue ==> Flag(f.services, k) == Flag(g.services, k))
  }

  // An IMSI names the same UE in both views, with the same data, or none in both.
  ghost predicate SameImsi(v: View, v': View, imsi: string) {
    && FindUe(v.ues.rows, imsi) == FindUe(v'.ues.rows, imsi)
    && (FindUe(v.ues.rows, imsi).Some? ==> SameUe(v, v', FindUe(v.ues.rows, imsi).value))
  }

  lemma SameImsiTrans(u: View, v: View, w: View, imsi: string)
    requires SameImsi(u, v, imsi) && SameImsi(v, w, imsi)
    ensures SameImsi(u, w, imsi)
  {
  }

  lemma OthersSameImsi(v: View, v': View, imsi: string, ue: int, other: string)
    requires OthersSame(v, v', imsi, ue) && other != imsi && FindUe(v'.ues.rows, imsi) == Some(ue)
    ensures SameImsi(v, v', other)
  {
    if FindUe(v.ues.rows, other).Some? {
      assert v'.ues.rows[FindUe(v.ues.rows, other).value].imsi == other;
    }
  }

  lemma SameForest(f: Forest, g: Forest)
    requires forall k :: Flag(f.slices, k) == Flag(g.slices, k)
    requires forall k :: Flag(f.dnns, k) == Flag(g.dnns, k)
    requires forall k :: Flag(f.services, k) == Flag(g.services, k)
    ensures f == g
  {
    SameFlags(f.slices, g.slices);
    SameFlags(f.dnns, g.dnns);
    SameFlags(f.services, g.services);
  }

  lemma SameFlags<K(!new)>(m: map<K, bool>, n: map<K, bool>)
    requires forall k :: Flag(m, k) == Flag(n, k)
    ensures m == n
  {
    forall k: K ensures k in m <==> k in n { assert Flag(m, k) == Flag(n, k); }
    forall k | k in m ensures m[k] == n[k] { assert Flag(m, k) == Flag(n, k); }
  }

  // ---- Upserting a UE by IMSI ----

  lemma Upserted(ues: Table<UeRow>, row: UeRow)
    requires ues.Sound() && UesOk(ues.rows)
    ensures var (ues', u) := UpsertUe(ues, row);
      && ues'.Sound() && UesOk(ues'.rows)
      && FindUe(ues'.rows, row.imsi) == Some(u)
      && (forall x :: x in ues.rows && x != u ==> x in ues'.rows && ues'.rows[x] == ues.rows[x])
      && (forall x :: x in ues'.rows ==> x in ues.rows || x == u)
      && (u in ues.rows <==> FindUe(ues.rows, row.imsi).Some?)
      && (u !in ues.rows ==> u == ues.next)
      && (forall other :: other != row.imsi ==> FindUe(ues'.rows, other) == FindUe(ues.rows, other))
  {
    var (ues', u) := UpsertUe(ues, row);
    assert ues'.rows[u].imsi == row.imsi;
    forall other | other != row.imsi
      ensures FindUe(ues'.rows, other) == FindUe(ues.rows, other)
    {
      if FindUe(ues.rows, other).Some? {
        var x := FindUe(ues.rows, other).value;
        assert ues'.rows[x].imsi == other;
      }
    }
  }

  // ---- Clone is a left-biased merge of trees ----

  function Prefer(a: Option<bool>, b: Option<bool>): Option<bool> {
    if a.Some? then a else b
  }

  // In g, dst has its own paths of f and src's; on a shared path its own flag.
  ghost predicate MergedTree(f: Forest, g: Forest, src: int, dst: int) {
    && (forall k: SliceKey {:trigger Flag(g.slices, k)} :: k.ue == dst ==>
          Flag(g.slices, k) == Prefer(Flag(f.slices, k), Flag(f.slices, k.At(src))))
    && (forall k: DnnKey {:trigger Flag(g.dnns, k)} :: k.Ue() == dst ==>
          Flag(g.dnns, k) == Prefer(Flag(f.dnns, k), Flag(f.dnns, k.At(src))))
    && (forall k: ServiceKey {:trigger Flag(g.services, k)} :: k.Ue() == dst ==>
          Flag(g.services, k) == Prefer(Flag(f.services, k), Flag(f.services, k.At(src))))
  }

  // In g, dst has exactly the tree src has in f.
  ghost predicate CopiedTree(f: Forest, g: Forest, src: int, dst: int) {
    && (forall k: SliceKey {:trigger Flag(g.slices, k)} :: k.ue == dst ==> Flag(g.slices, k) == Flag(f.slices, k.At(src)))
    && (forall k: DnnKey {:trigger Flag(g.dnns, k)} :: k.Ue() == dst ==> Flag(g.dnns, k) == Flag(f.dnns, k.At(src)))
    && (forall k: ServiceKey {:trigger Flag(g.services, k)} :: k.Ue() == dst ==> Flag(g.services, k) == Flag(f.services, k.At(src)))
  }

  lemma SliceMerged(m: map<SliceKey, bool>, src: int, dst: int, k: SliceKey)
    ensures Flag(SliceMoves(m, src, dst) + m, k) == if k.ue == dst then Prefer(Flag(m, k), Flag(m, k.At(src))) else Flag(m, k)
  {
  }

  lemma DnnMerged(m: map<DnnKey, bool>, src: int, dst: int, k: DnnKey)
    ensures Flag(DnnMoves(m, src, dst) + m, k) == if k.Ue() == dst then Prefer(Flag(m, k), Flag(m, k.At(src))) else Flag(m, k)
  {
  }

  lemma ServiceMerged(m: map<ServiceKey, bool>, src: int, dst: int, k: ServiceKey)
    ensures Flag(ServiceMoves(m, src, dst) + m, k) == if k.Ue() == dst then Prefer(Flag(m, k), Flag(m, k.At(src))) else Flag(m, k)
  {
  }

  lemma MergeIntoMerges(f: Forest, src: int, dst: int)
    ensures MergedTree(f, MergeInto(f, src, dst), src, dst)
    ensures SameOthers(f, MergeInto(f, src, dst), dst)
  {
    forall k: SliceKey
      ensures Flag(MergeInto(f, src, dst).slices, k) ==
              if k.ue == dst then Prefer(Flag(f.slices, k), Flag(f.slices, k.At(src))) else Flag(f.slices, k)
    {
      SliceMerged(f.slices, src, dst, k);
    }
    forall k: DnnKey
      ensures Flag(MergeInto(f, src, dst).dnns, k) ==
              if k.Ue() == dst then Prefer(Flag(f.dnns, k), Flag(f.dnns, k.At(src))) else Flag(f.dnns, k)
    {
      DnnMerged(f.dnns, src, dst, k);
    }
    forall k: ServiceKey
      ensures Flag(MergeInto(f, src, dst).services, k) ==
              if k.Ue() == dst then Prefer(Flag(f.services, k), Flag(f.services, k.At(src))) else Flag(f.services, k)
    {
      ServiceMerged(f.services, src, dst, k);
    }
  }

  // A UE that is not there has no paths.
  lemma NoTree(v: View, ue: int)
    requires ViewOk(v) && ue !in v.ues.rows
    ensures forall k: SliceKey :: k.ue == ue ==> k !in v.forest.slices
    ensures forall k: DnnKey :: k.Ue() == ue ==> k !in v.forest.dnns
    ensures forall k: ServiceKey :: k.Ue() == ue ==> k !in v.forest.services
  {
    forall k: DnnKey | k in v.forest.dnns
      ensures k.Ue() != ue
    {
      assert k.slice in v.forest.slices;
    }
    forall k: ServiceKey | k in v.forest.services
      ensures k.Ue() != ue
    {
      assert k.dnn in v.forest.dnns;
    }
  }

  lemma CloneAtUes(v: View, src: int, imsi: string, msisdn: string)
    requires ViewOk(v) && src in v.ues.rows && src in v.auths
    ensures var (v', dst) := CloneAt(v, src, imsi, msisdn);
      && v'.ues.Sound() && UesOk(v'.ues.rows)
      && FindUe(v'.ues.rows, imsi) == Some(dst)
      && (dst in v.ues.rows <==> FindUe(v.ues.rows, imsi).Some?)
      && (forall u :: u in v.ues.rows ==> u in v'.ues.rows)
      && OtherRows(v.ues.rows, v'.ues.rows, imsi, dst)
  {
    var row := CloneRow(v.ues.rows[src], imsi, msisdn);
    Upserted(v.ues, row);
  }

  lemma FreshTree(v: View, g: Forest, src: int, dst: int)
    requires ViewOk(v) && dst !in v.ues.rows && MergedTree(v.forest, g, src, dst)
    ensures CopiedTree(v.forest, g, src, dst)
  {
    NoTree(v, dst);
  }

  lemma CloneAtTree(v: View, src: int, imsi: string, msisdn: string)
    requires ViewOk(v) && src in v.ues.rows && src in v.auths
    ensures var (v', dst) := CloneAt(v, src, imsi, msisdn);
      && MergedTree(v.forest, v'.forest, src, dst) && SameOthers(v.forest, v'.forest, dst)
      && (FindUe(v.ues.rows, imsi) == None ==> CopiedTree(v.forest, v'.forest, src, dst))
  {
    var (v', dst) := CloneAt(v, src, imsi, msisdn);
    CloneAtUes(v, src, imsi, msisdn);
    MergeIntoMerges(v.forest, src, dst);
    if dst !in v.ues.rows {
      FreshTree(v, v'.forest, src, dst);
    }
  }

  lemma CloneAtOk(v: View, src: int, imsi: string, msisdn: string)
    requires ViewOk(v) && src in v.ues.rows && src in v.auths
    ensures ViewOk(CloneAt(v, src, imsi, msisdn).0)
  {
    var (v', dst) := CloneAt(v, src, imsi, msisdn);
    CloneAtUes(v, src, imsi, msisdn);
    MergeIntoOk(v, src, dst, v');
  }

  ghost predicate OtherRows(a: map<int, UeRow>, b: map<int, UeRow>, imsi: string, ue: int) {
    && (forall other :: other != imsi ==> FindUe(b, other) == FindUe(a, other))
    && (forall u :: u in a && u != ue ==> u in b && b[u] == a[u])
  }

  ghost predicate OtherAuths(a: map<int, AuthData>, b: map<int, AuthData>, ue: int) {
    forall u :: u != ue ==> Lookup(b, u) == Lookup(a, u)
  }

  // All is as before but the UE of one IMSI.
  ghost predicate OthersSame(v: View, v': View, imsi: string, ue: int) {
    && OtherRows(v.ues.rows, v'.ues.rows, imsi, ue)
    && OtherAuths(v.auths, v'.auths, ue)
    && SameOthers(v.forest, v'.forest, ue)
  }

  // A deep clone by IMSI: the destination's tree becomes its old one merged with the source's, its own flags
  // winning, so a new destination gets exactly the source's; every other UE keeps its row, authentication
  // data and tree.
  lemma CloneMergesTrees(v: View, srcImsi: string, dstImsi: string, msisdn: string, v': View)
    returns (src: int, dst: int)
    requires ViewOk(v) && Clone(v, srcImsi, dstImsi, msisdn) == Ok(v')
    ensures FindUe(v.ues.rows, Trim(srcImsi)) == Some(src) && FindUe(v'.ues.rows, Trim(dstImsi)) == Some(dst)
    ensures MergedTree(v.forest, v'.forest, src, dst)
    ensures FindUe(v.ues.rows, Trim(dstImsi)) == None ==> CopiedTree(v.forest, v'.forest, src, dst)
    ensures OthersSame(v, v', Trim(dstImsi), dst)
    ensures src in v.auths && (v', dst) == CloneAt(v, src, Trim(dstImsi), msisdn)
  {
    src := FindUe(v.ues.rows, Trim(srcImsi)).value;
    CloneAtUes(v, src, Trim(dstImsi), msisdn);
    CloneAtTree(v, src, Trim(dstImsi), msisdn);
    dst := CloneAt(v, src, Trim(dstImsi), msisdn).1;
    assert OtherAuths(v.auths, v.auths[dst := CopyAuth(v.auths[src])], dst);
  }

  // The authentication data of a clone, column by column: the keys and AMF in lower case, the operator key type,
  // profile and home-network key, NULL when empty, and a sequence number of 0.
  predicate CopiedAuth(a: AuthData, b: AuthData) {
    && b.opType == a.opType && b.op == Lower(a.op) && b.k == Lower(a.k) && b.sqn == 0
    && (a.amf.Some? ==> b.amf == Some(Lower(a.amf.value))) && (a.amf.None? ==> b.amf == Some(""))
    && (a.suciProfile in {None, Some("")} ==> b.suciProfile == None)
    && (a.suciProfile !in {None, Some("")} ==> b.suciProfile == a.suciProfile)
    && (a.hnPrivateKey in {None, Some("")} ==> b.hnPrivateKey == None)
    && (a.hnPrivateKey !in {None, Some("")} ==> b.hnPrivateKey == Some(Lower(a.hnPrivateKey.value)))
  }

  predicate CopiedRow(from: UeRow, row: UeRow) {
    row.enabled == from.enabled && row.ambrDl == from.ambrDl && row.ambrUl == from.ambrUl
  }

  // What the columns show of a clone: the destination has the source's authentication data, flag and rates, and
  // the MSISDN given or else the source's.
  lemma CloneColumns(v: View, srcImsi: string, dstImsi: string, msisdn: string, v': View) returns (src: int, dst: int)
    requires ViewOk(v) && Clone(v, srcImsi, dstImsi, msisdn) == Ok(v')
    ensures src in v.ues.rows && v.ues.rows[src].imsi == Trim(srcImsi) && src in v.auths
    ensures dst in v'.ues.rows && v'.ues.rows[dst].imsi == Trim(dstImsi) && dst in v'.auths
    ensures CopiedAuth(v.auths[src], v'.auths[dst])
    ensures CopiedRow(v.ues.rows[src], v'.ues.rows[dst])
    ensures msisdn != "" ==> v'.ues.rows[dst].msisdn == Some(msisdn)
    ensures msisdn == "" && v.ues.rows[src].msisdn.Some? ==> v'.ues.rows[dst].msisdn == v.ues.rows[src].msisdn
    ensures msisdn == "" && v.ues.rows[src].msisdn.None? ==> v'.ues.rows[dst].msisdn == Some("")
  {
    src, dst := CloneMergesTrees(v, srcImsi, dstImsi, msisdn, v');
    assert v'.ues.rows[dst].imsi == Trim(dstImsi);
  }

  // Copying a copy copies the same.
  lemma CopiedTwice(a: AuthData, b: AuthData, c: AuthData)
    requires CopiedAuth(a, b) && CopiedAuth(b, c)
    ensures b == c
  {
    LowerTwice(a.op);
    LowerTwice(a.k);
    LowerTwice(a.amf.GetOr(""));
    LowerTwice(a.hnPrivateKey.GetOr(""));
  }

  // When it succeeds, and how it is refused.
  lemma CloneAnswers(v: View, srcImsi: string, dstImsi: string, msisdn: string)
    ensures Clone(v, srcImsi, dstImsi, msisdn) == Err(Invalid) <==> Trim(srcImsi) == "" || Trim(dstImsi) == ""
    ensures UesOk(v.ues.rows) ==>
              (Clone(v, srcImsi, dstImsi, msisdn).Ok? <==>
                 && Trim(srcImsi) != "" && Trim(dstImsi) != ""
                 && exists u :: u in v.ues.rows && v.ues.rows[u].imsi == Trim(srcImsi) && u in v.auths)
    ensures Clone(v, srcImsi, dstImsi, msisdn).Err? ==> Clone(v, srcImsi, dstImsi, msisdn).error in {Invalid, NotFound}
  {
  }

  function Lookup<K, V>(m: map<K, V>, k: K): Option<V> {
    if k in m then Some(m[k]) else None
  }

  lemma MergeIntoClosed(f: Forest, src: int, dst: int)
    requires Closed(f)
    ensures Closed(MergeInto(f, src, dst))
  {
    var g := MergeInto(f, src, dst);
    forall k | k in g.dnns
      ensures k.slice in g.slices
    {
      if k !in f.dnns { assert k.At(src).slice == k.slice.At(src); }
    }
    forall k | k in g.services
      ensures k.dnn in g.dnns
    {
      if k !in f.services { assert k.At(src).dnn == k.dnn.At(src); }
    }
  }

  lemma MergeIntoOk(v: View, src: int, dst: int, v': View)
    requires ViewOk(v) && src in v.ues.rows
    requires v' == v.(ues := v'.ues, auths := v'.auths, forest := MergeInto(v.forest, src, dst))
    requires v'.ues.Sound() && UesOk(v'.ues.rows) && dst in v'.ues.rows
    requires forall u :: u in v.ues.rows ==> u in v'.ues.rows
    requires forall u :: u in v'.auths ==> u in v.auths || u == dst
    ensures ViewOk(v')
  {
    MergeIntoClosed(v.forest, src, dst);
  }

  // Merging twice is merging once.
  lemma MergeIntoTwice(f: Forest, src: int, dst: int)
    ensures MergeInto(MergeInto(f, src, dst), src, dst) == MergeInto(f, src, dst)
  {
    var g := MergeInto(f, src, dst);
    assert SliceMoves(g.slices, src, dst) + g.slices == g.slices by {
      forall k | k in MovedSlices(g.slices, src, dst) ensures k in g.slices { SliceMovedAgain(f.slices, src, dst, k); }
    }
    assert DnnMoves(g.dnns, src, dst) + g.dnns == g.dnns by {
      forall k | k in MovedDnns(g.dnns, src, dst) ensures k in g.dnns { DnnMovedAgain(f.dnns, src, dst, k); }
    }
    assert ServiceMoves(g.services, src, dst) + g.services == g.services by {
      forall k | k in MovedServices(g.services, src, dst) ensures k in g.services { ServiceMovedAgain(f.services, src, dst, k); }
    }
  }

  lemma SliceMovedAgain(m: map<SliceKey, bool>, src: int, dst: int, k: SliceKey)
    requires k.ue == dst && k.At(src) in SliceMoves(m, src, dst) + m
    ensures k in SliceMoves(m, src, dst) + m
  {
  }

  lemma DnnMovedAgain(m: map<DnnKey, bool>, src: int, dst: int, k: DnnKey)
    requires k.Ue() == dst && k.At(src) in DnnMoves(m, src, dst) + m
    ensures k in DnnMoves(m, src, dst) + m
  {
    assert src == dst ==> k.At(src) == k;
  }

  lemma ServiceMovedAgain(m: map<ServiceKey, bool>, src: int, dst: int, k: ServiceKey)
    requires k.Ue() == dst && k.At(src) in ServiceMoves(m, src, dst) + m
    ensures k in ServiceMoves(m, src, dst) + m
  {
    assert src == dst ==> k.At(src) == k;
  }

  lemma LowerTwice(s: string)
    ensures Lower(Lower(s)) == Lower(s)
  {
  }

  lemma CopyAuthTwice(a: AuthData)
    ensures CopyAuth(CopyAuth(a)) == CopyAuth(a)
  {
    LowerTwice(a.op);
    LowerTwice(a.k);
    LowerTwice(a.amf.GetOr(""));
    LowerTwice(a.hnPrivateKey.GetOr(""));
  }

  lemma UpsertTwice(ues: Table<UeRow>, row: UeRow)
    requires ues.Sound() && UesOk(ues.rows)
    ensures var (ues', u) := UpsertUe(ues, row);
      UpsertUe(ues', row) == (ues', u)
  {
    Upserted(ues, row);
    var (ues', u) := UpsertUe(ues, row);
    assert ues'.rows[u] == row;
    assert ues'.rows[u := row] == ues'.rows;
  }

  lemma CopyAuthsTwice(auths: map<int, AuthData>, src: int, dst: int)
    requires src in auths
    ensures var auths' := auths[dst := CopyAuth(auths[src])];
      auths'[dst := CopyAuth(auths'[src])] == auths'
  {
    CopyAuthTwice(auths[src]);
  }

  // The row a clone would store is the same before and after it.
  lemma CloneRowTwice(from: UeRow, imsi: string, msisdn: string)
    ensures var row := CloneRow(from, imsi, msisdn);
      CloneRow(row, imsi, msisdn) == row
  {
  }

  lemma CloneAtTwice(v: View, src: int, imsi: string, msisdn: string)
    requires ViewOk(v) && src in v.ues.rows && src in v.auths
    ensures var (v', dst) := CloneAt(v, src, imsi, msisdn);
      src in v'.ues.rows && src in v'.auths && CloneAt(v', src, imsi, msisdn) == (v', dst)
  {
    var (v', dst) := CloneAt(v, src, imsi, msisdn);
    var row := CloneRow(v.ues.rows[src], imsi, msisdn);
    CloneAtUes(v, src, imsi, msisdn);
    CloneRowTwice(v.ues.rows[src], imsi, msisdn);
    assert CloneRow(v'.ues.rows[src], imsi, msisdn) == row;
    UpsertTwice(v.ues, row);
    CopyAuthsTwice(v.auths, src, dst);
    MergeIntoTwice(v.forest, src, dst);
  }

  // Cloning again changes nothing.
  lemma CloneTwice(v: View, srcImsi: string, dstImsi: string, msisdn: string, v': View)
    requires ViewOk(v) && Clone(v, srcImsi, dstImsi, msisdn) == Ok(v')
    ensures Clone(v', srcImsi, dstImsi, msisdn) == Ok(v')
  {
    var src, dst := CloneMergesTrees(v, srcImsi, dstImsi, msisdn, v');
    CloneAtTwice(v, src, Trim(dstImsi), msisdn);
    assert FindUe(v'.ues.rows, Trim(srcImsi)) == Some(src);
  }
}
