// The cross-NF UE context store (core/infra/context): bundles by IMSI, and two secondary indices that must
// agree with the history of calls.
module ContextStore {

  // Per-NF contexts of one UE, shared by reference.
  class Bundle {
    var amf: object?
    var smf: object?
    var pcf: object?
    var ims: object?

    constructor ()
      ensures amf == null && smf == null && pcf == null && ims == null
    {
      amf, smf, pcf, ims := null, null, null, null;
    }
  }

  datatype Guti = Guti(plmn: string, region: int, set_: int, pointer: int, tmsi: int)
  // A secondary key: an AMF-UE-NGAP-ID or a 5G-GUTI.
  datatype Key = AmfId(id: int) | ByGuti(guti: Guti)

  datatype Event = Created(imsi: string, bundle: Bundle) | Indexed(key: Key, imsi: string) | Removed(imsi: string) | Cleared

  // An event that drops everything of an IMSI.
  predicate Drops(e: Event, imsi: string) {
    e.Cleared? || e == Removed(imsi)
  }

  // At position i the key was given to the IMSI; since then the key was given to no one and the IMSI not dropped.
  ghost predicate HoldsSince(h: seq<Event>, key: Key, imsi: string, i: int) {
    && 0 <= i < |h| && h[i] == Indexed(key, imsi)
    && forall j :: i < j < |h| ==> !(h[j].Indexed? && h[j].key == key) && !Drops(h[j], imsi)
  }

  // The IMSI a key stands for now.
  ghost predicate Holds(h: seq<Event>, key: Key, imsi: string) {
    exists i :: HoldsSince(h, key, imsi, i)
  }

  ghost predicate TrackedSince(h: seq<Event>, imsi: string, b: Bundle, i: int) {
    && 0 <= i < |h| && h[i] == Created(imsi, b)
    && forall j :: i < j < |h| ==> !(h[j].Created? && h[j].imsi == imsi) && !Drops(h[j], imsi)
  }

  // The bundle of an IMSI now: the one last created for it, unless the IMSI was dropped since.
  ghost predicate Tracked(h: seq<Event>, imsi: string, b: Bundle) {
    exists i :: TrackedSince(h, imsi, b, i)
  }

  // ---- What one event does to the history's meaning ----

  lemma HoldsStep(h: seq<Event>, e: Event, key: Key, imsi: string)
    ensures Holds(h + [e], key, imsi) <==>
            e == Indexed(key, imsi)
            || (Holds(h, key, imsi) && !(e.Indexed? && e.key == key) && !Drops(e, imsi))
  {
    if e == Indexed(key, imsi) {
      assert HoldsSince(h + [e], key, imsi, |h|);
    }
    if i :| HoldsSince(h, key, imsi, i) && !(e.Indexed? && e.key == key) && !Drops(e, imsi) {
      assert HoldsSince(h + [e], key, imsi, i);
    }
    if i :| HoldsSince(h + [e], key, imsi, i) && i < |h| {
      assert (h + [e])[|h|] == e;
      assert forall j :: i <= j < |h| ==> (h + [e])[j] == h[j];
      assert HoldsSince(h, key, imsi, i);
    }
  }

  lemma TrackedStep(h: seq<Event>, e: Event, imsi: string, b: Bundle)
    ensures Tracked(h + [e], imsi, b) <==>
            e == Created(imsi, b)
            || (Tracked(h, imsi, b) && !(e.Created? && e.imsi == imsi) && !Drops(e, imsi))
  {
    if e == Created(imsi, b) {
      assert TrackedSince(h + [e], imsi, b, |h|);
    }
    if i :| TrackedSince(h, imsi, b, i) && !(e.Created? && e.imsi == imsi) && !Drops(e, imsi) {
      assert TrackedSince(h + [e], imsi, b, i);
    }
    if i :| TrackedSince(h + [e], imsi, b, i) && i < |h| {
      assert (h + [e])[|h|] == e;
      assert forall j :: i <= j < |h| ==> (h + [e])[j] == h[j];
      assert TrackedSince(h, imsi, b, i);
    }
  }

  // A key stands for at most one IMSI, an IMSI has at most one bundle.
  lemma HoldsUnique(h: seq<Event>, key: Key, imsi: string, imsi': string)
    requires Holds(h, key, imsi) && Holds(h, key, imsi')
    ensures imsi == imsi'
  {
    var i :| HoldsSince(h, key, imsi, i);
    var j :| HoldsSince(h, key, imsi', j);
    assert !(i < j) && !(j < i);
  }

  lemma TrackedUnique(h: seq<Event>, imsi: string, b: Bundle, b': Bundle)
    requires Tracked(h, imsi, b) && Tracked(h, imsi, b')
    ensures b == b'
  {
    var i :| TrackedSince(h, imsi, b, i);
    var j :| TrackedSince(h, imsi, b', j);
    assert !(i < j) && !(j < i);
  }

  // What came before an IMSI was dropped is forgotten: only a later event can lead a key to it again, however
  // often the IMSI is created anew in between.
  lemma NoStaleKey(h: seq<Event>, key: Key, imsi: string, k: nat)
    requires k < |h| && (h[k] == Removed(imsi) || h[k] == Cleared)
    ensures Holds(h, key, imsi) <==> Holds(h[k + 1..], key, imsi)
  {
    var later := h[k + 1..];
    if i :| HoldsSince(h, key, imsi, i) {
      assert i > k && later[i - k - 1] == h[i];
      assert forall j :: 0 <= j < |later| ==> later[j] == h[j + k + 1];
      assert HoldsSince(later, key, imsi, i - k - 1);
    }
    if i :| HoldsSince(later, key, imsi, i) {
      assert forall j :: k < j < |h| ==> h[j] == later[j - k - 1];
      assert HoldsSince(h, key, imsi, i + k + 1);
    }
  }

  // Nor does a bundle that was dropped come back.
  lemma NoStaleBundle(h: seq<Event>, imsi: string, b: Bundle, k: nat)
    requires k < |h| && (h[k] == Removed(imsi) || h[k] == Cleared)
    ensures Tracked(h, imsi, b) <==> Tracked(h[k + 1..], imsi, b)
  {
    var later := h[k + 1..];
    if i :| TrackedSince(h, imsi, b, i) {
      assert i > k && later[i - k - 1] == h[i];
      assert forall j :: 0 <= j < |later| ==> later[j] == h[j + k + 1];
      assert TrackedSince(later, imsi, b, i - k - 1);
    }
    if i :| TrackedSince(later, imsi, b, i) {
      assert forall j :: k < j < |h| ==> h[j] == later[j - k - 1];
      assert TrackedSince(h, imsi, b, i + k + 1);
    }
  }

  // ---- The store ----

  ghost predicate BundlesAgree(m: map<string, Bundle>, h: seq<Event>) {
    && (forall imsi :: imsi in m ==> Tracked(h, imsi, m[imsi]))
    && (forall i :: 0 <= i < |h| && h[i].Created? && TrackedSince(h, h[i].imsi, h[i].bundle, i) ==>
          h[i].imsi in m && m[h[i].imsi] == h[i].bundle)
  }

  ghost predicate AmfIdsAgree(m: map<int, string>, h: seq<Event>) {
    forall a, imsi :: (a in m && m[a] == imsi) <==> Holds(h, AmfId(a), imsi)
  }

  ghost predicate GutisAgree(m: map<Guti, string>, h: seq<Event>) {
    forall g, imsi :: (g in m && m[g] == imsi) <==> Holds(h, ByGuti(g), imsi)
  }

  // What an event leaves of an entry for an IMSI.
  predicate Keeps(e: Event, key: Key, imsi: string) {
    !(e.Indexed? && e.key == key) && !Drops(e, imsi)
  }

  lemma BundlesRecorded(m: map<string, Bundle>, h: seq<Event>, m': map<string, Bundle>, e: Event)
    requires BundlesAgree(m, h)
    requires forall imsi :: imsi in m' <==> (e.Created? && e.imsi == imsi) || (imsi in m && !Drops(e, imsi))
    requires forall imsi :: imsi in m' ==> m'[imsi] == if e.Created? && e.imsi == imsi then e.bundle else m[imsi]
    ensures BundlesAgree(m', h + [e])
  {
    var h' := h + [e];
    forall imsi | imsi in m'
      ensures Tracked(h', imsi, m'[imsi])
    {
      TrackedStep(h, e, imsi, m'[imsi]);
    }
    forall i | 0 <= i < |h'| && h'[i].Created? && TrackedSince(h', h'[i].imsi, h'[i].bundle, i)
      ensures h'[i].imsi in m' && m'[h'[i].imsi] == h'[i].bundle
    {
      var imsi, b := h'[i].imsi, h'[i].bundle;
      TrackedStep(h, e, imsi, b);
      if e != Created(imsi, b) {
        var j :| TrackedSince(h, imsi, b, j);
        assert h[j] == Created(imsi, b);
      }
    }
  }

  lemma AmfIdsRecorded(m: map<int, string>, h: seq<Event>, m': map<int, string>, e: Event)
    requires AmfIdsAgree(m, h)
    requires forall a, imsi :: (a in m' && m'[a] == imsi) <==>
               e == Indexed(AmfId(a), imsi) || (a in m && m[a] == imsi && Keeps(e, AmfId(a), imsi))
    ensures AmfIdsAgree(m', h + [e])
  {
    forall a, imsi
      ensures (a in m' && m'[a] == imsi) <==> Holds(h + [e], AmfId(a), imsi)
    {
      HoldsStep(h, e, AmfId(a), imsi);
    }
  }

  lemma GutisRecorded(m: map<Guti, string>, h: seq<Event>, m': map<Guti, string>, e: Event)
    requires GutisAgree(m, h)
    requires forall g, imsi :: (g in m' && m'[g] == imsi) <==>
               e == Indexed(ByGuti(g), imsi) || (g in m && m[g] == imsi && Keeps(e, ByGuti(g), imsi))
    ensures GutisAgree(m', h + [e])
  {
    forall g, imsi
      ensures (g in m' && m'[g] == imsi) <==> Holds(h + [e], ByGuti(g), imsi)
    {
      HoldsStep(h, e, ByGuti(g), imsi);
    }
  }

  // now is before without the entries of one IMSI.
  ghost predicate Purged<K>(before: map<K, string>, now: map<K, string>, imsi: string) {
    && (forall k :: k in now ==> k in before && now[k] == before[k] && now[k] != imsi)
    && (forall k :: k in before && before[k] != imsi ==> k in now)
  }

  // The delete loop of Remove over one index.
  method Purge<K(==)>(index: map<K, string>, imsi: string) returns (now: map<K, string>)
    ensures Purged(index, now, imsi)
  {
    now := index;
    var left := index.Keys;
    while left != {}
      invariant left <= index.Keys
      invariant forall k :: k in now ==> k in index && now[k] == index[k] && (k in left || now[k] != imsi)
      invariant forall k :: k in index && (k in left || index[k] != imsi) ==> k in now
      decreases |left|
    {
      var k :| k in left;
      left := left - {k};
      if now[k] == imsi {
        now := now - {k};
      }
    }
  }

  class Store {
    var byIMSI: map<string, Bundle>
    var byAmfID: map<int, string>
    var byGUTI: map<Guti, string>
    ghost var history: seq<Event>

    // The three maps say what the history says.
    ghost predicate Valid()
      reads this
    {
      BundlesAgree(byIMSI, history) && AmfIdsAgree(byAmfID, history) && GutisAgree(byGUTI, history)
    }

    constructor ()
      ensures Valid() && history == []
    {
      byIMSI, byAmfID, byGUTI, history := map[], map[], map[], [];
    }

    method GetOrCreate(imsi: string) returns (b: Bundle)
      requires Valid()
      modifies this
      ensures Valid() && Tracked(history, imsi, b)
      ensures byAmfID == old(byAmfID) && byGUTI == old(byGUTI)
      ensures imsi in byIMSI && byIMSI[imsi] == b && byIMSI == old(byIMSI)[imsi := b]
      ensures imsi in old(byIMSI) ==> unchanged(this)
      ensures imsi !in old(byIMSI) ==> fresh(b) && history == old(history) + [Created(imsi, b)]
    {
      if imsi in byIMSI {
        b := byIMSI[imsi];
      } else {
        b := new Bundle();
        byIMSI := byIMSI[imsi := b];
        history := history + [Created(imsi, b)];
        BundlesRecorded(old(byIMSI), old(history), byIMSI, Created(imsi, b));
        AmfIdsRecorded(old(byAmfID), old(history), byAmfID, Created(imsi, b));
        GutisRecorded(old(byGUTI), old(history), byGUTI, Created(imsi, b));
        TrackedStep(old(history), Created(imsi, b), imsi, b);
      }
    }

    method GetByIMSI(imsi: string) returns (b: Bundle?)
      requires Valid()
      ensures b != null ==> Tracked(history, imsi, b)
      ensures b == null ==> forall x :: !Tracked(history, imsi, x)
      ensures b == if imsi in byIMSI then byIMSI[imsi] else null
    {
      if imsi in byIMSI {
        b := byIMSI[imsi];
      } else {
        b := null;
      }
    }

    method GetByAmfID(id: int) returns (b: Bundle?)
      requires Valid()
      ensures b != null ==> exists imsi :: Holds(history, AmfId(id), imsi) && Tracked(history, imsi, b)
      ensures b == null ==> forall imsi, x :: !(Holds(history, AmfId(id), imsi) && Tracked(history, imsi, x))
      ensures b == if id in byAmfID && byAmfID[id] in byIMSI then byIMSI[byAmfID[id]] else null
    {
      b := null;
      if id in byAmfID {
        var imsi := byAmfID[id];
        assert Holds(history, AmfId(id), imsi);
        if imsi in byIMSI {
          b := byIMSI[imsi];
        }
      }
    }

    method GetByGUTI(g: Guti) returns (b: Bundle?)
      requires Valid()
      ensures b != null ==> exists imsi :: Holds(history, ByGuti(g), imsi) && Tracked(history, imsi, b)
      ensures b == null ==> forall imsi, x :: !(Holds(history, ByGuti(g), imsi) && Tracked(history, imsi, x))
      ensures b == if g in byGUTI && byGUTI[g] in byIMSI then byIMSI[byGUTI[g]] else null
    {
      b := null;
      if g in byGUTI {
        var imsi := byGUTI[g];
        assert Holds(history, ByGuti(g), imsi);
        if imsi in byIMSI {
          b := byIMSI[imsi];
        }
      }
    }

    method IndexAmfID(id: int, imsi: string)
      requires Valid()
      modifies this
      ensures Valid() && history == old(history) + [Indexed(AmfId(id), imsi)]
      ensures byAmfID == old(byAmfID)[id := imsi] && byGUTI == old(byGUTI) && byIMSI == old(byIMSI)
    {
      byAmfID := byAmfID[id := imsi];
      history := history + [Indexed(AmfId(id), imsi)];
      BundlesRecorded(old(byIMSI), old(history), byIMSI, Indexed(AmfId(id), imsi));
      AmfIdsRecorded(old(byAmfID), old(history), byAmfID, Indexed(AmfId(id), imsi));
      GutisRecorded(old(byGUTI), old(history), byGUTI, Indexed(AmfId(id), imsi));
    }

    method IndexGUTI(g: Guti, imsi: string)
      requires Valid()
      modifies this
      ensures Valid() && history == old(history) + [Indexed(ByGuti(g), imsi)]
      ensures byGUTI == old(byGUTI)[g := imsi] && byAmfID == old(byAmfID) && byIMSI == old(byIMSI)
    {
      byGUTI := byGUTI[g := imsi];
      history := history + [Indexed(ByGuti(g), imsi)];
      BundlesRecorded(old(byIMSI), old(history), byIMSI, Indexed(ByGuti(g), imsi));
      AmfIdsRecorded(old(byAmfID), old(history), byAmfID, Indexed(ByGuti(g), imsi));
      GutisRecorded(old(byGUTI), old(history), byGUTI, Indexed(ByGuti(g), imsi));
    }

    // Remove: the bundle and every index entry of the IMSI.
    method Remove(imsi: string) returns (b: Bundle?)
      requires Valid()
      modifies this
      ensures Valid() && history == old(history) + [Removed(imsi)]
      ensures b == if imsi in old(byIMSI) then old(byIMSI)[imsi] else null
      ensures byIMSI == old(byIMSI) - {imsi}
      ensures forall a :: a in byAmfID <==> a in old(byAmfID) && old(byAmfID)[a] != imsi
      ensures forall a :: a in byAmfID ==> byAmfID[a] == old(byAmfID)[a]
      ensures forall g :: g in byGUTI <==> g in old(byGUTI) && old(byGUTI)[g] != imsi
      ensures forall g :: g in byGUTI ==> byGUTI[g] == old(byGUTI)[g]
    {
      b := if imsi in byIMSI then byIMSI[imsi] else null;
      byIMSI := byIMSI - {imsi};
      byAmfID := Purge(byAmfID, imsi);
      byGUTI := Purge(byGUTI, imsi);
      history := history + [Removed(imsi)];
      BundlesRecorded(old(byIMSI), old(history), byIMSI, Removed(imsi));
      AmfIdsRecorded(old(byAmfID), old(history), byAmfID, Removed(imsi));
      GutisRecorded(old(byGUTI), old(history), byGUTI, Removed(imsi));
    }

    method Clear()
      requires Valid()
      modifies this
      ensures Valid() && history == old(history) + [Cleared]
      ensures byIMSI == map[] && byAmfID == map[] && byGUTI == map[]
    {
      byIMSI, byAmfID, byGUTI := map[], map[], map[];
      history := history + [Cleared];
      BundlesRecorded(old(byIMSI), old(history), byIMSI, Cleared);
      AmfIdsRecorded(old(byAmfID), old(history), byAmfID, Cleared);
      GutisRecorded(old(byGUTI), old(history), byGUTI, Cleared);
    }
  }
}
