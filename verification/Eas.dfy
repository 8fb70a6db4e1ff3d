// Edge application server discovery (core/edge/eas): candidate selection, scoring and the in-place ranking sort.
module Eas {
  import opened Wrappers
  import opened Text

  // A registry row. The JSON columns are taken parsed: None when NULL or not a list; a slice element is its
  // SST, or None when it has none. Scores are hundredths.
  datatype Server = Server(id: int, appId: string, endpointUrl: string, dnai: Option<string>,
                           latitude: Option<real>, longitude: Option<real>,
                           dnns: Option<seq<string>>, slices: Option<seq<Option<int>>>,
                           capacity: int, activeConnections: int, status: string,
                           distanceKm: Option<real>, score: int)

  datatype Criteria = Criteria(appId: string, dnai: string, dnn: string, sst: Option<int>,
                               latitude: Option<real>, longitude: Option<real>)

  // The geometry: the rounded great-circle distance of two points, and the proximity score of a distance.
  datatype Geometry = Geometry(distance: (real, real, real, real) -> real, proximity: real -> real)

  // ---- Scores ----

  function Distance(e: Server, lat: Option<real>, lon: Option<real>, g: Geometry): Option<real> {
    if lat.None? || lon.None? || e.latitude.None? || e.longitude.None? then None
    else Some(g.distance(lat.value, lon.value, e.latitude.value, e.longitude.value))
  }

  function DnaiPoints(e: Server, c: Criteria): int {
    if c.dnai != "" && e.dnai == Some(c.dnai) then 50 else 0
  }

  function DnnPoints(e: Server, c: Criteria): int {
    if c.dnn != "" && e.dnns.Some? && c.dnn in e.dnns.value then 30 else 0
  }

  // 20 for every matching element: a slice listed twice counts twice.
  function SlicePoints(slices: seq<Option<int>>, sst: int): int {
    if slices == [] then 0 else
      SlicePoints(slices[..|slices| - 1], sst) + if slices[|slices| - 1] == Some(sst) then 20 else 0
  }

  function CapacityPoints(e: Server): real {
    if e.capacity <= 0 || e.activeConnections > e.capacity then 0.0
    else (e.capacity - e.activeConnections) as real / e.capacity as real * 20.0
  }

  function ProximityPoints(e: Server, g: Geometry): real {
    if e.distanceKm.Some? && e.distanceKm.value < 99999.0 then g.proximity(e.distanceKm.value) else 0.0
  }

  // math.Round(x * 100): the nearest hundredth, halves away from zero.
  function Hundredths(x: real): int {
    if x >= 0.0 then (x * 100.0 + 0.5).Floor else -(-x * 100.0 + 0.5).Floor
  }

  function ScoreOf(e: Server, c: Criteria, g: Geometry): int {
    var slices := if c.sst.Some? && e.slices.Some? then SlicePoints(e.slices.value, c.sst.value) else 0;
    Hundredths((DnaiPoints(e, c) + DnnPoints(e, c) + slices) as real + CapacityPoints(e) + ProximityPoints(e, g))
  }

  method ScoreEas(e: Server, c: Criteria, g: Geometry) returns (score: int)
    ensures score == ScoreOf(e, c, g)
  {
    var s := 0;
    if c.dnai != "" && e.dnai == Some(c.dnai) {
      s := s + 50;
    }
    if c.dnn != "" && e.dnns.Some? {
      var found := HasDnn(e.dnns.value, c.dnn);
      if found {
        s := s + 30;
      }
    }
    if c.sst.Some? && e.slices.Some? {
      var slices := e.slices.value;
      ghost var before := s;
      for i := 0 to |slices|
        invariant s == before + SlicePoints(slices[..i], c.sst.value)
      {
        assert slices[..i + 1][..i] == slices[..i];
        if slices[i] == c.sst {
          s := s + 20;
        }
      }
      assert slices[..|slices|] == slices;
    }
    var total := s as real;
    if e.capacity > 0 {
      var avail := (e.capacity - e.activeConnections) as real / e.capacity as real;
      AvailSign(e.capacity, e.activeConnections);
      if avail < 0.0 {
        avail := 0.0;
      }
      total := total + avail * 20.0;
    }
    if e.distanceKm.Some? && e.distanceKm.value < 99999.0 {
      total := total + g.proximity(e.distanceKm.value);
    }
    score := Hundredths(total);
  }

  // The hundredth nearest to x, halves away from zero.
  lemma HundredthsNearest(x: real)
    ensures -0.5 <= x * 100.0 - Hundredths(x) as real <= 0.5
    ensures x >= 0.0 ==> x * 100.0 - Hundredths(x) as real < 0.5
    ensures x <= 0.0 ==> x * 100.0 - Hundredths(x) as real > -0.5
  {
  }

  // The score is the hundredth nearest to the sum of the terms.
  lemma ScoreSums(e: Server, c: Criteria, g: Geometry)
    ensures var total :=
              (if c.dnai != "" && e.dnai == Some(c.dnai) then 50.0 else 0.0)
              + (if c.dnn != "" && e.dnns.Some? && c.dnn in e.dnns.value then 30.0 else 0.0)
              + (if c.sst.Some? && e.slices.Some? then 20.0 * multiset(e.slices.value)[c.sst] as real else 0.0)
              + CapacityPoints(e)
              + (if e.distanceKm.Some? && e.distanceKm.value < 99999.0 then g.proximity(e.distanceKm.value) else 0.0);
            -0.5 <= total * 100.0 - ScoreOf(e, c, g) as real <= 0.5
  {
    if c.sst.Some? && e.slices.Some? { SlicePointsCount(e.slices.value, c.sst.value); }
    var slices := if c.sst.Some? && e.slices.Some? then SlicePoints(e.slices.value, c.sst.value) else 0;
    HundredthsNearest((DnaiPoints(e, c) + DnnPoints(e, c) + slices) as real + CapacityPoints(e) + ProximityPoints(e, g));
  }

  // What each criterion adds, in hundredths: a matching DNAI 50, a supported DNN 30, each matching slice element
  // 20; free capacity between 0 and 20, by its share.
  lemma HundredthsShift(x: real, n: int)
    requires x >= 0.0 && n >= 0
    ensures Hundredths(x + n as real) == Hundredths(x) + 100 * n
  {
    assert (x + n as real) * 100.0 + 0.5 == x * 100.0 + 0.5 + (100 * n) as real;
  }

  lemma CriteriaAdd(e: Server, c: Criteria, g: Geometry, dnns: seq<string>, slices: seq<Option<int>>)
    requires forall d :: g.proximity(d) >= 0.0
    requires e.dnai == None && e.dnns == Some(dnns) && e.slices == Some(slices) && c.dnn !in dnns
    ensures c.dnai != "" ==> ScoreOf(e.(dnai := Some(c.dnai)), c, g) == ScoreOf(e, c, g) + 5000
    ensures c.dnn != "" ==> ScoreOf(e.(dnns := Some(dnns + [c.dnn])), c, g) == ScoreOf(e, c, g) + 3000
    ensures c.sst.Some? ==> ScoreOf(e.(slices := Some(slices + [c.sst])), c, g) == ScoreOf(e, c, g) + 2000
  {
    SlicePointsCount(slices, if c.sst.Some? then c.sst.value else 0);
    CapacityShare(e);
    var base := (if c.sst.Some? then SlicePoints(slices, c.sst.value) else 0) as real + CapacityPoints(e) + ProximityPoints(e, g);
    HundredthsShift(base, 50);
    HundredthsShift(base, 30);
    HundredthsShift(base, 20);
    assert (slices + [c.sst])[..|slices|] == slices;
  }

  // A slice counts once per matching element.
  lemma {:induction false} SlicePointsCount(slices: seq<Option<int>>, sst: int)
    ensures SlicePoints(slices, sst) == 20 * multiset(slices)[Some(sst)]
  {
    if slices == [] {
    } else {
      SlicePointsCount(slices[..|slices| - 1], sst);
      assert slices == slices[..|slices| - 1] + [slices[|slices| - 1]];
    }
  }

  lemma CapacityShare(e: Server)
    ensures e.capacity <= 0 || e.activeConnections >= e.capacity ==> CapacityPoints(e) == 0.0
    ensures 0 <= e.activeConnections < e.capacity ==>
              CapacityPoints(e) * e.capacity as real == 20.0 * (e.capacity - e.activeConnections) as real
    ensures CapacityPoints(e) >= 0.0
  {
  }

  lemma AvailSign(capacity: int, active: int)
    requires capacity > 0
    ensures (capacity - active) as real / capacity as real < 0.0 <==> active > capacity
  {
  }

  // The loop over the DNNs, left at the first match.
  method HasDnn(dnns: seq<string>, dnn: string) returns (found: bool)
    ensures found <==> dnn in dnns
  {
    for i := 0 to |dnns|
      invariant dnn !in dnns[..i]
    {
      if dnns[i] == dnn { return true; }
      assert dnns[..i + 1] == dnns[..i] + [dnns[i]];
    }
    assert dnns[..|dnns|] == dnns;
    found := false;
  }

  // ---- The ranking ----

  // x put behind everything that scores at least as much.
  function Insert(ranked: seq<Server>, x: Server): seq<Server> {
    if ranked == [] || ranked[|ranked| - 1].score >= x.score then ranked + [x]
    else Insert(ranked[..|ranked| - 1], x) + [ranked[|ranked| - 1]]
  }

  function Ranked(s: seq<Server>): seq<Server> {
    if s == [] then [] else Insert(Ranked(s[..|s| - 1]), s[|s| - 1])
  }

  ghost predicate Descending(s: seq<Server>) {
    forall i, j :: 0 <= i < j < |s| ==> s[i].score >= s[j].score
  }

  // The candidates of one score, in order.
  function OfScore(s: seq<Server>, score: int): seq<Server> {
    if s == [] then [] else
      OfScore(s[..|s| - 1], score) + if s[|s| - 1].score == score then [s[|s| - 1]] else []
  }

  lemma {:induction false} OfScoreAppend(a: seq<Server>, b: seq<Server>, score: int)
    ensures OfScore(a + b, score) == OfScore(a, score) + OfScore(b, score)
    decreases |b|
  {
    if b == [] {
      assert a + b == a;
    } else {
      assert (a + b)[..|a + b| - 1] == a + b[..|b| - 1];
      OfScoreAppend(a, b[..|b| - 1], score);
    }
  }

  // Where Insert puts x in a descending list.
  lemma {:induction false} InsertAt(ranked: seq<Server>, x: Server, j: nat)
    requires j <= |ranked|
    requires j > 0 ==> ranked[j - 1].score >= x.score
    requires forall k :: j <= k < |ranked| ==> ranked[k].score < x.score
    ensures Insert(ranked, x) == ranked[..j] + [x] + ranked[j..]
    decreases |ranked|
  {
    if j < |ranked| {
      var n := |ranked| - 1;
      InsertAt(ranked[..n], x, j);
      assert ranked[..n][..j] == ranked[..j] && ranked[..n][j..] + [ranked[n]] == ranked[j..];
    } else {
      assert ranked[..j] == ranked && ranked[j..] == [];
    }
  }

  lemma {:induction false} InsertMembers(ranked: seq<Server>, x: Server, y: Server)
    ensures y in Insert(ranked, x) <==> y in ranked || y == x
    decreases |ranked|
  {
    if !(ranked == [] || ranked[|ranked| - 1].score >= x.score) {
      var n := |ranked| - 1;
      assert ranked == ranked[..n] + [ranked[n]];
      InsertMembers(ranked[..n], x, y);
    }
  }

  lemma {:induction false} InsertDescending(ranked: seq<Server>, x: Server)
    requires Descending(ranked)
    ensures Descending(Insert(ranked, x))
    decreases |ranked|
  {
    if !(ranked == [] || ranked[|ranked| - 1].score >= x.score) {
      var n := |ranked| - 1;
      var r := Insert(ranked[..n], x);
      InsertDescending(ranked[..n], x);
      forall i | 0 <= i < |r| ensures r[i].score >= ranked[n].score {
        InsertMembers(ranked[..n], x, r[i]);
        if r[i] in ranked[..n] { var k :| 0 <= k < n && ranked[..n][k] == r[i]; }
      }
    }
  }

  lemma {:induction false} InsertOfScore(ranked: seq<Server>, x: Server, score: int)
    ensures OfScore(Insert(ranked, x), score) == OfScore(ranked + [x], score)
    decreases |ranked|
  {
    if !(ranked == [] || ranked[|ranked| - 1].score >= x.score) {
      var n := |ranked| - 1;
      var before, last := ranked[..n], ranked[n];
      assert ranked == before + [last];
      InsertOfScore(before, x, score);
      OfScoreAppend(Insert(before, x), [last], score);
      OfScoreAppend(before, [x], score);
      OfScoreAppend(before, [last], score);
      OfScoreAppend(ranked, [x], score);
    }
  }

  // The ranking is descending and, score by score, the candidates in their old order: a stable permutation.
  lemma {:induction false} RankedMeans(s: seq<Server>)
    ensures Descending(Ranked(s))
    ensures forall y :: y in Ranked(s) <==> y in s
    ensures forall score :: OfScore(Ranked(s), score) == OfScore(s, score)
  {
    if s == [] {
    } else {
      var before, x := s[..|s| - 1], s[|s| - 1];
      assert s == before + [x];
      RankedMeans(before);
      InsertDescending(Ranked(before), x);
      forall y ensures y in Ranked(s) <==> y in s { InsertMembers(Ranked(before), x, y); }
      forall score ensures OfScore(Ranked(s), score) == OfScore(s, score) {
        InsertOfScore(Ranked(before), x, score);
        OfScoreAppend(Ranked(before), [x], score);
        OfScoreAppend(before, [x], score);
      }
    }
  }

  // The first of a list's elements of maximal score.
  ghost predicate IsBest(s: seq<Server>, best: nat) {
    && best < |s|
    && (forall k :: 0 <= k < |s| ==> s[k].score <= s[best].score)
    && (forall k :: 0 <= k < best ==> s[k].score < s[best].score)
  }

  lemma {:induction false} FirstOfScore(s: seq<Server>, i: nat)
    requires i < |s| && forall k :: 0 <= k < i ==> s[k].score != s[i].score
    ensures OfScore(s, s[i].score) != [] && OfScore(s, s[i].score)[0] == s[i]
  {
    if i < |s| - 1 {
      FirstOfScore(s[..|s| - 1], i);
    } else {
      NoneOfScore(s[..i], s[i].score);
    }
  }

  lemma {:induction false} NoneOfScore(s: seq<Server>, score: int)
    requires forall k :: 0 <= k < |s| ==> s[k].score != score
    ensures OfScore(s, score) == []
  {
    if s == [] {
    } else {
      NoneOfScore(s[..|s| - 1], score);
    }
  }

  // The pick is the first candidate of maximal score.
  lemma RankedFirst(s: seq<Server>, best: nat)
    requires IsBest(s, best)
    ensures Ranked(s) != [] && Ranked(s)[0] == s[best]
  {
    RankedMeans(s);
    var r := Ranked(s);
    assert s[best] in r;
    assert r[0] in s;
    FirstOfScore(s, best);
    FirstOfScore(r, 0);
  }

  // The insertion sort: swap each element down while it scores more than the one before it.
  method SortByScore(a: array<Server>)
    modifies a
    ensures a[..] == Ranked(old(a[..]))
  {
    ghost var s := a[..];
    for i := 0 to a.Length
      invariant a[..i] == Ranked(s[..i]) && a[i..] == s[i..]
    {
      assert s[..i + 1][..i] == s[..i] && s[..i + 1][i] == s[i..][0] == a[i];
      assert a[i + 1..] == a[i..][1..] == s[i + 1..];
      MoveUp(a, i);
    }
    assert a[..] == a[..a.Length] && s[..a.Length] == s;
  }

  method MoveUp(a: array<Server>, i: nat)
    requires i < a.Length
    modifies a
    ensures a[..i + 1] == Insert(old(a[..i]), old(a[i])) && a[i + 1..] == old(a[i + 1..])
  {
    ghost var ranked, x := a[..i], a[i];
    var j := i;
    while j > 0 && a[j].score > a[j - 1].score
      invariant 0 <= j <= i && a[j] == x
      invariant forall k :: 0 <= k < j ==> a[k] == ranked[k]
      invariant forall k :: j < k <= i ==> a[k] == ranked[k - 1]
      invariant forall k :: j <= k < i ==> ranked[k].score < x.score
      invariant forall k :: i < k < a.Length ==> a[k] == old(a[k])
    {
      a[j], a[j - 1] := a[j - 1], a[j];
      j := j - 1;
    }
    assert a[..i + 1] == ranked[..j] + [x] + ranked[j..];
    InsertAt(ranked, x, j);
  }

  // ---- Discovery ----

  datatype LogEntry = LogEntry(criteria: Criteria, count: nat, selected: Option<int>)

  function Active(rows: seq<Server>, appId: Option<string>): seq<Server> {
    if rows == [] then [] else
      var e := rows[|rows| - 1];
      Active(rows[..|rows| - 1], appId)
      + if e.status == "active" && (appId.Some? ==> e.appId == appId.value) then [e] else []
  }

  function AtUrl(rows: seq<Server>, fqdn: string): seq<Server> {
    if rows == [] then [] else
      var e := rows[|rows| - 1];
      AtUrl(rows[..|rows| - 1], fqdn) + if Contains(Lower(e.endpointUrl), fqdn) then [e] else []
  }

  function Scored(e: Server, distanceKm: Option<real>, c: Criteria, g: Geometry): Server {
    var e' := e.(distanceKm := distanceKm);
    e'.(score := ScoreOf(e', c, g))
  }

  // Every candidate with its distance and its score.
  function Near(rows: seq<Server>, c: Criteria, g: Geometry): (r: seq<Server>)
    ensures |r| == |rows|
  {
    seq(|rows|, i requires 0 <= i < |rows| => Scored(rows[i], Distance(rows[i], c.latitude, c.longitude, g), c, g))
  }

  // Every candidate with its score, the distance left out.
  function Anywhere(rows: seq<Server>, c: Criteria, g: Geometry): (r: seq<Server>)
    ensures |r| == |rows|
  {
    seq(|rows|, i requires 0 <= i < |rows| => Scored(rows[i], None, c, g))
  }

  // An active server, of the application if one is asked for.
  predicate Wanted(e: Server, appId: Option<string>) {
    e.status == "active" && (appId == None || appId == Some(e.appId))
  }

  lemma ActiveNext(rows: seq<Server>, appId: Option<string>, e: Server)
    ensures Active(rows + [e], appId) == Active(rows, appId) + if Wanted(e, appId) then [e] else []
  {
    assert (rows + [e])[..|rows|] == rows;
  }

  // Selecting keeps those, each as often as it is registered.
  lemma {:induction false} ActiveMeans(rows: seq<Server>, appId: Option<string>, e: Server)
    ensures multiset(Active(rows, appId))[e] == if Wanted(e, appId) then multiset(rows)[e] else 0
  {
    if rows == [] {
    } else {
      var before, last := rows[..|rows| - 1], rows[|rows| - 1];
      ActiveMeans(before, appId, e);
      ActiveNext(before, appId, last);
      assert rows == before + [last];
    }
  }

  // And the ones whose URL, in lower case, has the name in it.
  lemma {:induction false} AtUrlMeans(rows: seq<Server>, fqdn: string, e: Server)
    ensures multiset(AtUrl(rows, fqdn))[e]
            == if exists x, y :: Lower(e.endpointUrl) == x + fqdn + y then multiset(rows)[e] else 0
  {
    if Contains(Lower(e.endpointUrl), fqdn) { var x, y := ContainsFinds(Lower(e.endpointUrl), fqdn); }
    if x, y :| Lower(e.endpointUrl) == x + fqdn + y { ContainsEach(x, fqdn, y); }
    if rows == [] {
    } else {
      AtUrlMeans(rows[..|rows| - 1], fqdn, e);
      assert rows == rows[..|rows| - 1] + [rows[|rows| - 1]];
    }
  }

  // The candidates for a name: the active servers whose URL holds it, or else those of the application.
  function NameCandidates(rows: seq<Server>, fqdn: string, appId: string): seq<Server> {
    var matched := AtUrl(Active(rows, None), Lower(fqdn));
    if matched == [] && appId != "" then Active(rows, Some(appId)) else matched
  }

  // An active server whose lower-case URL holds the lower-case name.
  ghost predicate Named(e: Server, fqdn: string) {
    e.status == "active" && exists x, y :: Lower(e.endpointUrl) == x + Lower(fqdn) + y
  }

  // They are exactly the servers named, each as often as registered, or, when there is none and an application is
  // asked for, its active ones.
  lemma CandidatesMeans(rows: seq<Server>, fqdn: string, appId: string, e: Server)
    ensures (exists s :: s in rows && Named(s, fqdn)) ==>
              multiset(NameCandidates(rows, fqdn, appId))[e] == if Named(e, fqdn) then multiset(rows)[e] else 0
    ensures !(exists s :: s in rows && Named(s, fqdn)) && appId == "" ==> NameCandidates(rows, fqdn, appId) == []
    ensures !(exists s :: s in rows && Named(s, fqdn)) && appId != "" ==>
              multiset(NameCandidates(rows, fqdn, appId))[e]
              == if e.status == "active" && e.appId == appId then multiset(rows)[e] else 0
  {
    var matched := AtUrl(Active(rows, None), Lower(fqdn));
    NamedMatched(rows, fqdn, e);
    ActiveMeans(rows, Some(appId), e);
    if matched != [] {
      NamedMatched(rows, fqdn, matched[0]);
      assert matched[0] in multiset(matched) && matched[0] in multiset(rows);
      assert matched[0] in rows && Named(matched[0], fqdn);
    }
    if s :| s in rows && Named(s, fqdn) {
      NamedMatched(rows, fqdn, s);
      assert s in multiset(matched);
    }
  }

  lemma NamedMatched(rows: seq<Server>, fqdn: string, e: Server)
    ensures multiset(AtUrl(Active(rows, None), Lower(fqdn)))[e] == if Named(e, fqdn) then multiset(rows)[e] else 0
  {
    ActiveMeans(rows, None, e);
    AtUrlMeans(Active(rows, None), Lower(fqdn), e);
  }

  // The answer to a name query does not depend on where the UE is.
  lemma NameAnswerIgnoresPlace(rows: seq<Server>, fqdn: string, c: Criteria, g: Geometry, lat: Option<real>, lon: Option<real>)
    ensures var c' := c.(latitude := lat, longitude := lon);
      Ranked(Anywhere(NameCandidates(rows, fqdn, c'.appId), c', g)) == Ranked(Anywhere(NameCandidates(rows, fqdn, c.appId), c, g))
  {
    var c' := c.(latitude := lat, longitude := lon);
    var rows' := NameCandidates(rows, fqdn, c.appId);
    forall i | 0 <= i < |rows'| ensures Scored(rows'[i], None, c', g) == Scored(rows'[i], None, c, g) {
      SameScore(rows'[i].(distanceKm := None), c, c', g);
    }
    assert Anywhere(rows', c', g) == Anywhere(rows', c, g);
  }

  lemma RankedPair(a: Server, b: Server)
    ensures Ranked([a, b]) == if a.score >= b.score then [a, b] else [b, a]
  {
    assert [a, b][..1] == [a] && [a][..0] == [];
    assert Ranked([a]) == [a];
    if a.score < b.score {
      assert Insert([], b) == [b];
    }
  }

  function ServerAt(id: int, lat: real): Server {
    Server(id, "app", "u", None, Some(lat), Some(0.0), None, None, 0, 0, "active", None, 0)
  }

  function UeAt(lat: real): Criteria {
    Criteria("app", "", "", None, Some(lat), Some(0.0))
  }

  // Ranked with their distances, as Discover does it, the first of two like servers is the one whose distance
  // from the UE scores more: there the answer does depend on the place.
  lemma NearestFirst(lat: real, a: real, b: real, g: Geometry)
    requires g.distance(lat, 0.0, a, 0.0) < 99999.0 && g.distance(lat, 0.0, b, 0.0) < 99999.0
    ensures var x := Hundredths(g.proximity(g.distance(lat, 0.0, a, 0.0)));
      var y := Hundredths(g.proximity(g.distance(lat, 0.0, b, 0.0)));
      Ranked(Near([ServerAt(1, a), ServerAt(2, b)], UeAt(lat), g))[..1] ==
        [if x >= y then Scored(ServerAt(1, a), Some(g.distance(lat, 0.0, a, 0.0)), UeAt(lat), g)
         else Scored(ServerAt(2, b), Some(g.distance(lat, 0.0, b, 0.0)), UeAt(lat), g)]
  {
    var rows, c := [ServerAt(1, a), ServerAt(2, b)], UeAt(lat);
    var p := Scored(rows[0], Some(g.distance(lat, 0.0, a, 0.0)), c, g);
    var q := Scored(rows[1], Some(g.distance(lat, 0.0, b, 0.0)), c, g);
    assert Near(rows, c, g) == [p, q];
    RankedPair(p, q);
  }

  lemma SameScore(e: Server, c: Criteria, c': Criteria, g: Geometry)
    requires c' == c.(latitude := c'.latitude, longitude := c'.longitude)
    ensures ScoreOf(e, c', g) == ScoreOf(e, c, g)
  {
  }

  lemma {:induction false} ActiveByApp(rows: seq<Server>, appId: string)
    ensures Active(Active(rows, None), Some(appId)) == Active(rows, Some(appId))
  {
    if rows == [] {
    } else {
      var before, e := rows[..|rows| - 1], rows[|rows| - 1];
      ActiveByApp(before, appId);
      if e.status == "active" {
        assert (Active(before, None) + [e])[..|Active(before, None)|] == Active(before, None);
      } else {
        assert Active(rows, None) == Active(before, None);
      }
    }
  }

  class Registry {
    // eas_registry in the order the query reads it.
    var rows: seq<Server>
    var log: seq<LogEntry>
    const geometry: Geometry

    constructor (rows: seq<Server>, geometry: Geometry)
      ensures this.rows == rows && log == [] && this.geometry == geometry
    {
      this.rows, this.log, this.geometry := rows, [], geometry;
    }

    // The WHERE clause of the queries.
    method SelectActive(appId: Option<string>) returns (out: seq<Server>)
      ensures out == Active(rows, appId)
    {
      out := [];
      for i := 0 to |rows|
        invariant out == Active(rows[..i], appId)
      {
        assert rows[..i + 1][..i] == rows[..i];
        if rows[i].status == "active" && (appId.Some? ==> rows[i].appId == appId.value) {
          out := out + [rows[i]];
        }
      }
      assert rows[..|rows|] == rows;
    }

    // Score every candidate in place.
    method ScoreAll(a: array<Server>, c: Criteria, near: bool)
      modifies a
      ensures a[..] == if near then Near(old(a[..]), c, geometry) else Anywhere(old(a[..]), c, geometry)
    {
      for i := 0 to a.Length
        invariant forall k :: i <= k < a.Length ==> a[k] == old(a[k])
        invariant forall k :: 0 <= k < i ==>
                    a[k] == Scored(old(a[k]), if near then Distance(old(a[k]), c.latitude, c.longitude, geometry) else None,
                                   c, geometry)
      {
        var e := a[i].(distanceKm := if near then Distance(a[i], c.latitude, c.longitude, geometry) else None);
        var score := ScoreEas(e, c, geometry);
        a[i] := e.(score := score);
      }
    }

    // The candidates, scored and sorted in an array of their own.
    method Rank(candidates: seq<Server>, c: Criteria, near: bool) returns (ranked: seq<Server>)
      ensures ranked == Ranked(if near then Near(candidates, c, geometry) else Anywhere(candidates, c, geometry))
    {
      var a := new Server[|candidates|](i requires 0 <= i < |candidates| => candidates[i]);
      assert a[..] == candidates;
      ScoreAll(a, c, near);
      SortByScore(a);
      ranked := a[..];
    }

    // Discover: the active servers of the application, ranked; the log names the first.
    method Discover(c: Criteria) returns (ranked: seq<Server>)
      modifies this`log
      ensures c.appId == "" ==> ranked == [] && log == old(log)
      ensures c.appId != "" ==> ranked == Ranked(Near(Active(rows, Some(c.appId)), c, geometry))
      ensures c.appId != "" ==>
                log == old(log) + [LogEntry(c, |ranked|, if ranked == [] then None else Some(ranked[0].id))]
    {
      if c.appId == "" { return []; }
      var candidates := SelectActive(Some(c.appId));
      ranked := Rank(candidates, c, true);
      log := log + [LogEntry(c, |ranked|, if ranked == [] then None else Some(ranked[0].id))];
    }

    method Candidates(fqdn: string, appId: string) returns (matched: seq<Server>)
      ensures matched == NameCandidates(rows, fqdn, appId)
    {
      var all := SelectActive(None);
      var name := Lower(fqdn);
      matched := [];
      for i := 0 to |all|
        invariant matched == AtUrl(all[..i], name)
      {
        assert all[..i + 1][..i] == all[..i];
        if Contains(Lower(all[i].endpointUrl), name) {
          matched := matched + [all[i]];
        }
      }
      assert all[..|all|] == all;
      if |matched| == 0 && appId != "" {
        matched := OfApplication(all, appId);
        ActiveByApp(rows, appId);
      }
    }

    method OfApplication(all: seq<Server>, appId: string) returns (matched: seq<Server>)
      requires all == Active(rows, None)
      ensures matched == Active(all, Some(appId))
    {
      matched := [];
      for i := 0 to |all|
        invariant matched == Active(all[..i], Some(appId))
      {
        assert all[..i + 1][..i] == all[..i];
        ActiveOnly(rows, all, i);
        if all[i].appId == appId {
          matched := matched + [all[i]];
        }
      }
      assert all[..|all|] == all;
    }

    // DiscoverViaEASDF: the best active server whose URL holds the name, or of the application when none does.
    // None for a blank name (an error) and when there is no candidate.
    method DiscoverViaEasdf(fqdn: string, c: Criteria) returns (pick: Option<Server>)
      modifies this`log
      ensures pick.Some? <==> Trim(fqdn) != "" && NameCandidates(rows, fqdn, c.appId) != []
      ensures pick.Some? ==> var ranked := Ranked(Anywhere(NameCandidates(rows, fqdn, c.appId), c, geometry));
                ranked != [] && pick.value == ranked[0]
      ensures log == old(log) + if pick.Some? then [LogEntry(c, |NameCandidates(rows, fqdn, c.appId)|, Some(pick.value.id))] else []
    {
      pick := None;
      if Trim(fqdn) == "" { return; }
      var matched := Candidates(fqdn, c.appId);
      if |matched| == 0 { return; }
      var ranked := Rank(matched, c, false);
      RankedLength(Anywhere(matched, c, geometry));
      pick := Some(ranked[0]);
      log := log + [LogEntry(c, |matched|, Some(ranked[0].id))];
    }
  }

  lemma {:induction false} ActiveOnly(rows: seq<Server>, all: seq<Server>, i: nat)
    requires all == Active(rows, None) && i < |all|
    ensures all[i].status == "active"
    decreases |rows|
  {
    if rows == [] {
    } else {
      var before := Active(rows[..|rows| - 1], None);
      if i < |before| { ActiveOnly(rows[..|rows| - 1], before, i); }
    }
  }

  lemma {:induction false} RankedLength(s: seq<Server>)
    ensures |Ranked(s)| == |s|
  {
    if s == [] {
    } else {
      RankedLength(s[..|s| - 1]);
      InsertLength(Ranked(s[..|s| - 1]), s[|s| - 1]);
    }
  }

  lemma {:induction false} InsertLength(ranked: seq<Server>, x: Server)
    ensures |Insert(ranked, x)| == |ranked| + 1
    decreases |ranked|
  {
    if !(ranked == [] || ranked[|ranked| - 1].score >= x.score) {
      InsertLength(ranked[..|ranked| - 1], x);
    }
  }
}
