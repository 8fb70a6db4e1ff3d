// Deleting a UE, and ranges of IMSIs: what a range clone leaves, and that a range delete undoes it.
module SubscriberRanges {
  import opened Wrappers
  import opened Text
  import opened Decimal
  import opened SubscriberTables
  import opened SubscriberSpec
  import opened SubscriberTrees
  import opened SubscriberTheorems

  // ---- Deleting one UE ----

  // Nothing of a UE is left.
  ghost predicate Gone(v: View, ue: int) {
    && ue !in v.ues.rows && ue !in v.auths
    && (forall k: SliceKey :: k.ue == ue ==> k !in v.forest.slices)
    && (forall k: DnnKey :: k.Ue() == ue ==> k !in v.forest.dnns)
    && (forall k: ServiceKey :: k.Ue() == ue ==> k !in v.forest.services)
  }

  // Deleting an IMSI removes its UE's row, authentication data and tree, and nothing else.
  lemma DeleteRemovesOne(v: View, imsi: string)
    requires ViewOk(v)
    ensures ViewOk(Delete(v, imsi))
    ensures FindUe(Delete(v, imsi).ues.rows, imsi) == None
    ensures FindUe(v.ues.rows, imsi).None? ==> Delete(v, imsi) == v
    ensures FindUe(v.ues.rows, imsi).Some? ==>
              var ue := FindUe(v.ues.rows, imsi).value;
              Gone(Delete(v, imsi), ue) && OthersSame(v, Delete(v, imsi), imsi, ue)
  {
    if FindUe(v.ues.rows, imsi).Some? {
      var ue := FindUe(v.ues.rows, imsi).value;
      var v' := Delete(v, imsi);
      DeleteKeepsOthers(v, ue, v');
      forall other | other != imsi
        ensures FindUe(v'.ues.rows, other) == FindUe(v.ues.rows, other)
      {
        if FindUe(v.ues.rows, other).Some? {
          assert v'.ues.rows[FindUe(v.ues.rows, other).value].imsi == other;
        }
      }
    }
  }

  lemma DeleteKeepsOthers(v: View, ue: int, v': View)
    requires v' == v.(ues := v.ues.(rows := v.ues.rows - {ue}), auths := v.auths - {ue}, forest := Without(v.forest, ue))
    ensures OtherAuths(v.auths, v'.auths, ue) && SameOthers(v.forest, v'.forest, ue)
  {
  }

  // ---- A range clone ----

  lemma DigitsTrimmed(s: string)
    requires IsDigits(s)
    ensures Trim(s) == s
  {
  }

  lemma NthImsis(a: string, b: string, start: string, i: nat, j: nat)
    requires IsNth(a, start, i) && IsNth(b, start, j)
    ensures Trim(a) == a
    ensures a == b <==> i == j
  {
    DigitsTrimmed(a);
    if i == j { ValueInjective(a, b); }
  }

  lemma ConsecutiveDistinct(start: string, imsis: seq<string>)
    requires Consecutive(start, imsis)
    ensures forall i :: 0 <= i < |imsis| ==> Trim(imsis[i]) == imsis[i]
    ensures forall i, j :: 0 <= i < j < |imsis| ==> imsis[i] != imsis[j]
  {
    forall i | 0 <= i < |imsis| ensures Trim(imsis[i]) == imsis[i] { NthImsis(imsis[i], imsis[i], start, i, i); }
    forall i, j | 0 <= i < j < |imsis| ensures imsis[i] != imsis[j] { NthImsis(imsis[i], imsis[j], start, i, j); }
  }

  lemma OneMore(start: string, imsis: seq<string>, n: nat)
    requires Consecutive(start, imsis) && 0 < n <= |imsis|
    ensures imsis[..n] == imsis[..n - 1] + [imsis[n - 1]] && imsis[n - 1] !in imsis[..n - 1]
    ensures Trim(imsis[n - 1]) == imsis[n - 1]
  {
    ConsecutiveDistinct(start, imsis);
  }

  lemma ConsecutiveUnique(start: string, a: seq<string>, b: seq<string>)
    requires Consecutive(start, a) && Consecutive(start, b) && |a| == |b|
    ensures a == b
  {
    forall i | 0 <= i < |a| ensures a[i] == b[i] { NthImsis(a[i], b[i], start, i, i); }
  }

  // In v', the IMSI has the tree it had in v merged with the source's, its own flags winning.
  ghost predicate ClonedInto(v: View, v': View, src: int, imsi: string) {
    && FindUe(v'.ues.rows, imsi).Some?
    && MergedTree(v.forest, v'.forest, src, FindUe(v'.ues.rows, imsi).value)
  }

  lemma ClonedStays(v: View, u: View, w: View, src: int, imsi: string)
    requires ClonedInto(v, u, src, imsi) && SameImsi(u, w, imsi)
    ensures ClonedInto(v, w, src, imsi)
  {
  }

  // A clone onto an IMSI that has not changed since v.
  lemma ClonedNow(v: View, u: View, w: View, src: int, imsi: string, dst: int)
    requires ViewOk(v) && ViewOk(u) && SameImsi(v, u, imsi) && SameTreeOf(v.forest, u.forest, src)
    requires forall x :: x in v.ues.rows ==> x in u.ues.rows
    requires FindUe(w.ues.rows, imsi) == Some(dst) && MergedTree(u.forest, w.forest, src, dst)
    requires dst in u.ues.rows <==> FindUe(u.ues.rows, imsi).Some?
    requires FindUe(u.ues.rows, imsi).Some? ==> FindUe(u.ues.rows, imsi) == Some(dst)
    ensures ClonedInto(v, w, src, imsi)
  {
    if dst !in u.ues.rows {
      NoTree(u, dst);
      NoTree(v, dst);
    }
  }

  // The source is there as before, with the same tree: a range may hold it, and cloning it onto itself only
  // resets its authentication data.
  ghost predicate SourceKept(v: View, u: View, srcImsi: string) {
    && FindUe(u.ues.rows, srcImsi) == FindUe(v.ues.rows, srcImsi)
    && (FindUe(v.ues.rows, srcImsi).Some? ==> SameTreeOf(v.forest, u.forest, FindUe(v.ues.rows, srcImsi).value))
  }

  lemma SourceStays(v: View, u: View, w: View, srcImsi: string, s: int, imsi: string, dst: int)
    requires SourceKept(v, u, srcImsi) && FindUe(u.ues.rows, srcImsi) == Some(s)
    requires FindUe(w.ues.rows, imsi) == Some(dst) && OthersSame(u, w, imsi, dst) && MergedTree(u.forest, w.forest, s, dst)
    requires dst in u.ues.rows <==> FindUe(u.ues.rows, imsi).Some?
    requires FindUe(u.ues.rows, imsi).Some? ==> FindUe(u.ues.rows, imsi) == Some(dst)
    ensures SourceKept(v, w, srcImsi)
  {
    if imsi == srcImsi {
      OwnTreeMerged(u.forest, w.forest, s);
    } else {
      assert dst != s;
    }
  }

  lemma OwnTreeMerged(f: Forest, g: Forest, ue: int)
    requires MergedTree(f, g, ue, ue)
    ensures SameTreeOf(f, g, ue)
  {
    forall k: SliceKey | k.ue == ue ensures Flag(f.slices, k) == Flag(g.slices, k) { assert k.At(ue) == k; }
    forall k: DnnKey | k.Ue() == ue ensures Flag(f.dnns, k) == Flag(g.dnns, k) { assert k.At(ue) == k; }
    forall k: ServiceKey | k.Ue() == ue ensures Flag(f.services, k) == Flag(g.services, k) { assert k.At(ue) == k; }
  }

  // What holds after a range clone made its rounds on `done`.
  ghost predicate ClonedSoFar(v: View, u: View, srcImsi: string, done: seq<string>) {
    && ViewOk(u)
    && (forall x :: x in v.ues.rows ==> x in u.ues.rows)
    && (forall imsi :: imsi !in done ==> SameImsi(v, u, imsi))
    && SourceKept(v, u, srcImsi)
    && (done != [] ==> FindUe(v.ues.rows, srcImsi).Some?)
    && (forall imsi :: imsi in done ==> ClonedInto(v, u, FindUe(v.ues.rows, srcImsi).value, imsi))
  }

  // What one clone does, told by IMSIs: srcImsi is UE s, and dst becomes the UE of imsi.
  ghost predicate CloneStep(u: View, w: View, srcImsi: string, s: int, imsi: string, dst: int) {
    && ViewOk(w) && FindUe(u.ues.rows, srcImsi) == Some(s) && FindUe(w.ues.rows, imsi) == Some(dst)
    && MergedTree(u.forest, w.forest, s, dst) && OthersSame(u, w, imsi, dst)
    && (dst in u.ues.rows <==> FindUe(u.ues.rows, imsi).Some?)
    && (FindUe(u.ues.rows, imsi).Some? ==> FindUe(u.ues.rows, imsi) == Some(dst))
    && (forall x :: x in u.ues.rows ==> x in w.ues.rows)
  }

  lemma CloneOnce(u: View, src: string, imsi: string, w: View) returns (s: int, dst: int)
    requires ViewOk(u) && Cloned(src, imsi, u, w) && Trim(imsi) == imsi
    ensures CloneStep(u, w, Trim(src), s, imsi, dst)
  {
    s, dst := CloneMergesTrees(u, src, imsi, MsisdnOf(imsi), w);
    CloneAtOk(u, s, imsi, MsisdnOf(imsi));
    CloneAtUes(u, s, imsi, MsisdnOf(imsi));
  }

  lemma CloneRound(v: View, u: View, w: View, srcImsi: string, s: int, done: seq<string>, imsi: string, dst: int)
    requires ViewOk(v) && ClonedSoFar(v, u, srcImsi, done) && imsi !in done
    requires CloneStep(u, w, srcImsi, s, imsi, dst)
    ensures ClonedSoFar(v, w, srcImsi, done + [imsi])
  {
    assert SameImsi(v, u, imsi);
    SourceStays(v, u, w, srcImsi, s, imsi, dst);
    ClonedNow(v, u, w, s, imsi, dst);
    forall other | other != imsi
      ensures other !in done ==> SameImsi(v, w, other)
      ensures other in done ==> ClonedInto(v, w, s, other)
    {
      OthersSameImsi(u, w, imsi, dst, other);
      if other in done {
        ClonedStays(v, u, w, s, other);
      } else {
        SameImsiTrans(v, u, w, other);
      }
    }
  }

  lemma {:induction false} CloneRounds(src: string, start: string, imsis: seq<string>, views: seq<View>, n: nat)
    requires CloneTrace(src, imsis, views) && Consecutive(start, imsis) && n <= |imsis|
    requires ViewOk(views[0])
    ensures ClonedSoFar(views[0], views[n], Trim(src), imsis[..n])
  {
    if n == 0 {
    } else {
      CloneRounds(src, start, imsis, views, n - 1);
      OneMore(start, imsis, n);
      assert Cloned(src, imsis[n - 1], views[n - 1], views[n]);
      var s, dst := CloneOnce(views[n - 1], src, imsis[n - 1], views[n]);
      CloneRound(views[0], views[n - 1], views[n], Trim(src), s, imsis[..n - 1], imsis[n - 1], dst);
    }
  }

  // A range clone: each of the consecutive IMSIs gets the source's tree beside its own paths, the source keeps
  // its tree even when the range holds it, and no other IMSI changes.
  lemma RangeCloneMerges(src: string, start: string, r: Rounds, before: View, now: View)
    requires r.Span(start, before, now) && CloneTrace(src, r.imsis, r.views)
    requires ViewOk(before)
    ensures ViewOk(now) && SourceKept(before, now, Trim(src))
    ensures r.imsis != [] ==> FindUe(before.ues.rows, Trim(src)).Some?
    ensures forall imsi :: imsi in r.imsis ==> ClonedInto(before, now, FindUe(before.ues.rows, Trim(src)).value, imsi)
    ensures forall imsi :: imsi !in r.imsis ==> SameImsi(before, now, imsi)
  {
    CloneRounds(src, start, r.imsis, r.views, |r.imsis|);
    assert r.imsis[..|r.imsis|] == r.imsis;
  }

  // What the columns show of an IMSI cloned from UE s of v: the source's authentication data, flag and rates, and
  // its own digits as MSISDN.
  ghost predicate ClonedColumns(v: View, u: View, s: int, imsi: string)
    requires s in v.ues.rows && s in v.auths
  {
    && FindUe(u.ues.rows, imsi).Some?
    && var d := FindUe(u.ues.rows, imsi).value;
       && d in u.auths && CopiedAuth(v.auths[s], u.auths[d]) && CopiedRow(v.ues.rows[s], u.ues.rows[d])
       && u.ues.rows[d].msisdn == Some(MsisdnOf(imsi))
  }

  // Cloning from UE s of u gives what cloning from it in v would.
  ghost predicate CopiesAlike(v: View, u: View, s: int) {
    && s in v.ues.rows && s in v.auths && s in u.ues.rows && s in u.auths
    && CopiedRow(v.ues.rows[s], u.ues.rows[s])
    && (u.auths[s] == v.auths[s] || CopiedAuth(v.auths[s], u.auths[s]))
  }

  lemma ColumnsOnce(v: View, u: View, src: string, imsi: string, w: View, s: int)
    requires ViewOk(v) && ViewOk(u) && Cloned(src, imsi, u, w) && Trim(imsi) == imsi
    requires FindUe(u.ues.rows, Trim(src)) == Some(s) && CopiesAlike(v, u, s)
    ensures ClonedColumns(v, w, s, imsi)
  {
    var a, d := CloneColumns(u, src, imsi, MsisdnOf(imsi), w);
    var s', dst := CloneOnce(u, src, imsi, w);
    assert a == s && d == FindUe(w.ues.rows, imsi).value;
    if u.auths[s] != v.auths[s] { CopiedTwice(v.auths[s], u.auths[s], w.auths[d]); }
  }

  lemma ColumnsRound(v: View, u: View, src: string, done: seq<string>, imsi: string, w: View, s: int)
    requires ViewOk(v) && ViewOk(u) && Cloned(src, imsi, u, w) && Trim(imsi) == imsi && imsi !in done
    requires FindUe(u.ues.rows, Trim(src)) == Some(s) && CopiesAlike(v, u, s)
    requires forall other :: other in done ==> ClonedColumns(v, u, s, other)
    ensures FindUe(w.ues.rows, Trim(src)) == Some(s) && CopiesAlike(v, w, s)
    ensures forall other :: other in done + [imsi] ==> ClonedColumns(v, w, s, other)
  {
    ColumnsOnce(v, u, src, imsi, w, s);
    var s', dst := CloneOnce(u, src, imsi, w);
    if imsi != Trim(src) { OthersSameImsi(u, w, imsi, dst, Trim(src)); }
    forall other | other in done
      ensures ClonedColumns(v, w, s, other)
    {
      OthersSameImsi(u, w, imsi, dst, other);
    }
  }

  lemma {:induction false} ColumnsRounds(src: string, start: string, imsis: seq<string>, views: seq<View>, n: nat) returns (s: int)
    requires CloneTrace(src, imsis, views) && Consecutive(start, imsis) && 0 < n <= |imsis| && ViewOk(views[0])
    ensures FindUe(views[0].ues.rows, Trim(src)) == FindUe(views[n].ues.rows, Trim(src)) == Some(s)
    ensures CopiesAlike(views[0], views[n], s)
    ensures forall imsi :: imsi in imsis[..n] ==> ClonedColumns(views[0], views[n], s, imsi)
    decreases n
  {
    OneMore(start, imsis, n);
    assert Cloned(src, imsis[n - 1], views[n - 1], views[n]);
    CloneRounds(src, start, imsis, views, n - 1);
    if n > 1 {
      s := ColumnsRounds(src, start, imsis, views, n - 1);
    } else {
      s := FindUe(views[0].ues.rows, Trim(src)).value;
    }
    ColumnsRound(views[0], views[n - 1], src, imsis[..n - 1], imsis[n - 1], views[n], s);
  }

  // The rows a range clone leaves: every IMSI of the range has the source's authentication data, flag and rates
  // as they were before the first round, and its own digits as MSISDN.
  lemma RangeCloneColumns(src: string, start: string, r: Rounds, before: View, now: View) returns (s: int)
    requires r.Span(start, before, now) && CloneTrace(src, r.imsis, r.views) && r.imsis != []
    requires ViewOk(before)
    ensures FindUe(before.ues.rows, Trim(src)) == Some(s) && s in before.auths
    ensures forall imsi :: imsi in r.imsis ==> ClonedColumns(before, now, s, imsi)
  {
    s := ColumnsRounds(src, start, r.imsis, r.views, |r.imsis|);
    assert r.imsis[..|r.imsis|] == r.imsis;
  }

  // Unless the driver fails, a range clone stops early only before its first round, for want of the source.
  lemma RangeCloneStops(src: string, start: string, r: Rounds, before: View, now: View, imsi: string, e: Error)
    requires r.Span(start, before, now) && CloneTrace(src, r.imsis, r.views) && ViewOk(before)
    requires IsNth(imsi, start, |r.imsis|) && imsi != "" && CloneFails(src, imsi, now, e) && e != Driver && Trim(src) != ""
    ensures r.imsis == [] && now == before && e == NotFound
    ensures !exists u :: u in before.ues.rows && before.ues.rows[u].imsi == Trim(src) && u in before.auths
  {
    NthImsis(imsi, imsi, start, |r.imsis|, |r.imsis|);
    CloneAnswers(now, src, imsi, MsisdnOf(imsi));
    if r.imsis != [] { var s := ColumnsRounds(src, start, r.imsis, r.views, |r.imsis|); }
  }

  // A range is taken when its start is a decimal number and it has an IMSI.
  lemma RangeArgsMeans(start: string, count: int)
    ensures RangeArgsOk(start, count) <==>
            start != "" && (forall i :: 0 <= i < |start| ==> '0' <= start[i] <= '9') && count >= 1
  {
  }

  // Cloned IMSIs get the digits behind the first five as MSISDN; a shorter IMSI is its own.
  lemma MsisdnMeans(imsi: string)
    ensures |imsi| <= 5 ==> MsisdnOf(imsi) == imsi
    ensures |imsi| > 5 ==> |MsisdnOf(imsi)| == |imsi| - 5 && forall i :: 0 <= i < |imsi| - 5 ==> MsisdnOf(imsi)[i] == imsi[i + 5]
  {
  }

  // ---- A range delete undoes a range clone ----

  function Among(imsis: seq<string>): set<string> {
    set imsi | imsi in imsis
  }

  // v is v0 with, at most, further UEs whose IMSI is in extra.
  ghost predicate Beside(v0: View, v: View, extra: set<string>) {
    && ViewOk(v)
    && v.apns == v0.apns && v.services == v0.services && v.catalog == v0.catalog
    && (forall u :: u in v0.ues.rows ==> u in v.ues.rows && v.ues.rows[u] == v0.ues.rows[u])
    && (forall u :: u in v.ues.rows && u !in v0.ues.rows ==> v.ues.rows[u].imsi in extra)
    && (forall u :: u in v0.ues.rows ==> Lookup(v.auths, u) == Lookup(v0.auths, u))
    && (forall k: SliceKey :: k.ue in v0.ues.rows ==> Flag(v.forest.slices, k) == Flag(v0.forest.slices, k))
    && (forall k: DnnKey :: k.Ue() in v0.ues.rows ==> Flag(v.forest.dnns, k) == Flag(v0.forest.dnns, k))
    && (forall k: ServiceKey :: k.Ue() in v0.ues.rows ==> Flag(v.forest.services, k) == Flag(v0.forest.services, k))
  }

  lemma BesideClone(v0: View, v: View, src: string, imsi: string, v': View, extra: set<string>)
    requires Beside(v0, v, extra) && Cloned(src, imsi, v, v') && Trim(imsi) == imsi
    requires FindUe(v0.ues.rows, imsi) == None
    ensures Beside(v0, v', extra + {imsi})
  {
    var s, dst := CloneMergesTrees(v, src, imsi, MsisdnOf(imsi), v');
    CloneAtOk(v, s, imsi, MsisdnOf(imsi));
    CloneAtUes(v, s, imsi, MsisdnOf(imsi));
    assert dst !in v0.ues.rows;
    BesideOthers(v0, v, v', imsi, dst, extra + {imsi});
  }

  lemma BesideOthers(v0: View, v: View, v': View, imsi: string, ue: int, extra: set<string>)
    requires Beside(v0, v, extra) && ViewOk(v') && OthersSame(v, v', imsi, ue) && ue !in v0.ues.rows
    requires v'.apns == v.apns && v'.services == v.services && v'.catalog == v.catalog
    requires forall u :: u in v'.ues.rows ==> u in v.ues.rows || v'.ues.rows[u].imsi == imsi
    requires ue in v'.ues.rows ==> imsi in extra && v'.ues.rows[ue].imsi == imsi
    requires forall u :: u in v'.ues.rows && u !in v.ues.rows ==> u == ue
    ensures Beside(v0, v', extra)
  {
  }

  lemma BesideDelete(v0: View, v: View, imsi: string, extra: set<string>)
    requires Beside(v0, v, extra) && FindUe(v0.ues.rows, imsi) == None
    ensures Beside(v0, Delete(v, imsi), extra - {imsi})
  {
    DeleteRemovesOne(v, imsi);
    if FindUe(v.ues.rows, imsi).Some? {
      var ue := FindUe(v.ues.rows, imsi).value;
      assert ue !in v0.ues.rows;
      BesideOthers(v0, v, Delete(v, imsi), imsi, ue, extra);
    }
  }

  // The count of a range delete is the number of UE rows that are gone.
  lemma {:induction false} FoundIsGone(d: Rounds, n: nat)
    requires DeleteTrace(d.imsis, d.views) && n <= |d.imsis|
    ensures |d.views[0].ues.rows| - |d.views[n].ues.rows| == d.Found(n)
  {
    if n == 0 {
    } else {
      FoundIsGone(d, n - 1);
      assert Deleted(d.imsis[n - 1], d.views[n - 1], d.views[n]);
      OneRowGone(d.views[n - 1], d.imsis[n - 1]);
    }
  }

  lemma OneRowGone(v: View, imsi: string)
    ensures |v.ues.rows| - |Delete(v, imsi).ues.rows| == if FindUe(v.ues.rows, imsi).Some? then 1 else 0
  {
    if FindUe(v.ues.rows, imsi).Some? {
      var ue := FindUe(v.ues.rows, imsi).value;
      assert v.ues.rows.Keys == (v.ues.rows - {ue}).Keys + {ue};
    }
  }

  // With no further UE left, the view is the old one up to the next UE id.
  lemma NothingBeside(v0: View, v: View)
    requires ViewOk(v0) && Beside(v0, v, {})
    ensures v == v0.(ues := v.ues) && v.ues.rows == v0.ues.rows
  {
    SameRows(v.ues.rows, v0.ues.rows);
    SameLookups(v.auths, v0.auths, v0.ues.rows.Keys);
    SameForestOfUes(v.forest, v0.forest, v0.ues.rows.Keys);
  }

  lemma SameLookups<V>(m: map<int, V>, n: map<int, V>, ids: set<int>)
    requires (forall u :: u in m || u in n ==> u in ids) && forall u :: u in ids ==> Lookup(m, u) == Lookup(n, u)
    ensures m == n
  {
    forall u ensures u in m <==> u in n { if u in ids { assert Lookup(m, u) == Lookup(n, u); } }
    forall u | u in m ensures m[u] == n[u] { assert Lookup(m, u) == Lookup(n, u); }
  }

  lemma SameForestOfUes(f: Forest, g: Forest, ids: set<int>)
    requires Closed(f) && Closed(g)
    requires forall k :: k in f.slices || k in g.slices ==> k.ue in ids
    requires forall k: SliceKey :: k.ue in ids ==> Flag(f.slices, k) == Flag(g.slices, k)
    requires forall k: DnnKey :: k.Ue() in ids ==> Flag(f.dnns, k) == Flag(g.dnns, k)
    requires forall k: ServiceKey :: k.Ue() in ids ==> Flag(f.services, k) == Flag(g.services, k)
    ensures f == g
  {
    forall k: SliceKey ensures Flag(f.slices, k) == Flag(g.slices, k) { if k.ue in ids {} }
    forall k: DnnKey ensures Flag(f.dnns, k) == Flag(g.dnns, k) {
      if k.Ue() !in ids { assert k.slice !in f.slices && k.slice !in g.slices; }
    }
    forall k: ServiceKey ensures Flag(f.services, k) == Flag(g.services, k) {
      if k.Ue() !in ids {
        assert k.dnn.slice !in f.slices && k.dnn.slice !in g.slices;
        assert k.dnn !in f.dnns && k.dnn !in g.dnns;
      }
    }
    SameForest(f, g);
  }

  lemma BesideCloneAt(v0: View, src: string, start: string, imsis: seq<string>, views: seq<View>, n: nat)
    requires CloneTrace(src, imsis, views) && Consecutive(start, imsis) && 0 < n <= |imsis|
    requires Beside(v0, views[n - 1], Among(imsis[..n - 1])) && FindUe(v0.ues.rows, imsis[n - 1]) == None
    ensures Beside(v0, views[n], Among(imsis[..n]))
  {
    OneMore(start, imsis, n);
    assert Among(imsis[..n]) == Among(imsis[..n - 1]) + {imsis[n - 1]};
    assert Cloned(src, imsis[n - 1], views[n - 1], views[n]);
    BesideClone(v0, views[n - 1], src, imsis[n - 1], views[n], Among(imsis[..n - 1]));
  }

  lemma {:induction false} BesideClones(v0: View, src: string, start: string, imsis: seq<string>, views: seq<View>, n: nat)
    requires CloneTrace(src, imsis, views) && Consecutive(start, imsis) && n <= |imsis|
    requires views[0] == v0 && ViewOk(v0)
    requires forall i :: 0 <= i < |imsis| ==> FindUe(v0.ues.rows, imsis[i]) == None
    ensures Beside(v0, views[n], Among(imsis[..n]))
  {
    if n == 0 {
    } else {
      BesideClones(v0, src, start, imsis, views, n - 1);
      BesideCloneAt(v0, src, start, imsis, views, n);
    }
  }

  lemma {:induction false} BesideDeletes(v0: View, imsis: seq<string>, views: seq<View>, n: nat)
    requires DeleteTrace(imsis, views) && n <= |imsis|
    requires Beside(v0, views[0], Among(imsis))
    requires forall i :: 0 <= i < |imsis| ==> FindUe(v0.ues.rows, imsis[i]) == None
    ensures Beside(v0, views[n], Among(imsis[n..]))
  {
    if n == 0 {
    } else {
      BesideDeletes(v0, imsis, views, n - 1);
      assert Deleted(imsis[n - 1], views[n - 1], views[n]);
      var extra := Among(imsis[n - 1..]);
      BesideDelete(v0, views[n - 1], imsis[n - 1], extra);
      assert extra - {imsis[n - 1]} <= (Among(imsis[n..]));
    }
  }

  // A clone over IMSIs none of which is there, then a delete over as many from the same start: the store is
  // as before, up to the ids that were used.
  lemma RangeDeleteUndoesClone(src: string, start: string, c: Rounds, d: Rounds, v0: View, v1: View, v2: View)
    requires c.Span(start, v0, v1) && CloneTrace(src, c.imsis, c.views)
    requires d.Span(start, v1, v2) && DeleteTrace(d.imsis, d.views)
    requires |c.imsis| == |d.imsis| && ViewOk(v0)
    requires forall i :: 0 <= i < |c.imsis| ==> FindUe(v0.ues.rows, c.imsis[i]) == None
    ensures v2 == v0.(ues := v2.ues) && v2.ues.rows == v0.ues.rows
  {
    var n := |c.imsis|;
    ConsecutiveUnique(start, c.imsis, d.imsis);
    assert c.imsis[..n] == c.imsis;
    BesideClones(v0, src, start, c.imsis, c.views, n);
    BesideDeletes(v0, d.imsis, d.views, n);
    assert Among(d.imsis[n..]) == {};
    NothingBeside(v0, v2);
  }
}
