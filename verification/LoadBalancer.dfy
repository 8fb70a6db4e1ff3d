// The load balancer (core/infra/lb): its address list, and the pick of a backend.
module LoadBalancer {

  // ---- The configured address list ----

  predicate IsBlank(c: char) {
    c == ' ' || c == '\t'
  }

  function DropBlanks(s: string): (r: string)
    ensures r != [] ==> !IsBlank(r[0])
  {
    if s == [] || !IsBlank(s[0]) then s else DropBlanks(s[1..])
  }

  function CutBlanks(s: string): (r: string)
    ensures r <= s
    ensures r != [] ==> !IsBlank(r[|r| - 1])
  {
    if s == [] || !IsBlank(s[|s| - 1]) then s else CutBlanks(s[..|s| - 1])
  }

  // The argument without the blanks at either end.
  function TrimBlanks(s: string): string {
    CutBlanks(DropBlanks(s))
  }

  // What is cut off at either end is blank, and what is left neither starts nor ends with a blank.
  lemma TrimBlanksMeans(s: string) returns (i: nat, j: nat)
    ensures i <= j <= |s| && TrimBlanks(s) == s[i..j]
    ensures forall k :: 0 <= k < i || j <= k < |s| ==> s[k] == ' ' || s[k] == '\t'
    ensures i < j ==> s[i] !in {' ', '\t'} && s[j - 1] !in {' ', '\t'}
  {
    i := DropsBlanks(s);
    var k := CutsBlanks(s[i..]);
    j := i + k;
    assert s[i..][..k] == s[i..j];
    forall m | 0 <= m < i || j <= m < |s| ensures IsBlank(s[m]) {
      if j <= m { assert s[m] == s[i..][m - i]; }
    }
  }

  lemma {:induction false} DropsBlanks(s: string) returns (i: nat)
    ensures i <= |s| && DropBlanks(s) == s[i..] && forall k :: 0 <= k < i ==> IsBlank(s[k])
  {
    if s == [] || !IsBlank(s[0]) {
      i := 0;
    } else {
      var k := DropsBlanks(s[1..]);
      i := k + 1;
      assert s[1..][k..] == s[i..];
      forall m | 0 <= m < i ensures IsBlank(s[m]) {
        if m > 0 { assert s[m] == s[1..][m - 1]; }
      }
    }
  }

  lemma {:induction false} CutsBlanks(s: string) returns (j: nat)
    ensures j <= |s| && CutBlanks(s) == s[..j] && forall k :: j <= k < |s| ==> IsBlank(s[k])
  {
    if s == [] || !IsBlank(s[|s| - 1]) {
      j := |s|;
    } else {
      j := CutsBlanks(s[..|s| - 1]);
      assert s[..|s| - 1][..j] == s[..j];
      forall m | j <= m < |s| ensures IsBlank(s[m]) {
        if m < |s| - 1 { assert s[m] == s[..|s| - 1][m]; }
      }
    }
  }

  lemma CutStep(s: string, i: nat, j: nat)
    requires i < j <= |s| && IsBlank(s[j - 1])
    ensures CutBlanks(s[i..j - 1]) == CutBlanks(s[i..j])
  {
    assert s[i..j][..j - i - 1] == s[i..j - 1];
  }

  method FirstNonBlank(s: string) returns (i: nat)
    ensures i <= |s| && s[i..] == DropBlanks(s)
  {
    i := 0;
    while i < |s| && IsBlank(s[i])
      invariant i <= |s| && DropBlanks(s[i..]) == DropBlanks(s)
    {
      assert s[i..][1..] == s[i + 1..];
      i := i + 1;
    }
  }

  method LastNonBlank(s: string, i: nat) returns (j: nat)
    requires i <= |s|
    ensures i <= j <= |s| && s[i..j] == CutBlanks(s[i..])
  {
    j := |s|;
    assert s[i..j] == s[i..];
    while j > i && IsBlank(s[j - 1])
      invariant i <= j <= |s| && CutBlanks(s[i..j]) == CutBlanks(s[i..])
    {
      CutStep(s, i, j);
      j := j - 1;
    }
  }

  method TrimSpace(s: string) returns (r: string)
    ensures r == TrimBlanks(s)
  {
    var i := FirstNonBlank(s);
    var j := LastNonBlank(s, i);
    r := s[i..j];
  }

  // The fields of a comma-separated list, trimmed, without the empty ones. `field` is what was read of the
  // first field so far.
  function Fields(field: string, s: string): seq<string>
    decreases |s|
  {
    if s == [] then Kept(field)
    else if s[0] == ',' then Kept(field) + Fields([], s[1..])
    else Fields(field + [s[0]], s[1..])
  }

  function Kept(field: string): seq<string> {
    if TrimBlanks(field) == "" then [] else [TrimBlanks(field)]
  }

  method SplitComma(s: string) returns (out: seq<string>)
    ensures out == Fields([], s)
  {
    out := [];
    var start := 0;
    for i := 0 to |s|
      invariant 0 <= start <= i
      invariant out + Fields(s[start..i], s[i..]) == Fields([], s)
    {
      assert s[i..][1..] == s[i + 1..];
      assert s[start..i] + [s[i]] == s[start..i + 1];
      if s[i] == ',' {
        var t := TrimSpace(s[start..i]);
        if t != "" {
          out := out + [t];
        }
        start := i + 1;
        assert s[start..i + 1] == [];
      }
    }
    assert s[start..|s|] == s[start..] && s[|s|..] == [];
    var t := TrimSpace(s[start..]);
    if t != "" {
      out := out + [t];
    }
  }

  function Join(fields: seq<string>): string {
    if fields == [] then "" else if |fields| == 1 then fields[0] else fields[0] + "," + Join(fields[1..])
  }

  // An address as the list can carry it: not empty, no comma, no blank at either end.
  predicate IsAddress(a: string) {
    a != "" && ',' !in a && !IsBlank(a[0]) && !IsBlank(a[|a| - 1])
  }

  lemma {:induction false} FieldsOfWord(field: string, word: string, rest: string)
    requires ',' !in word && (rest == "" || rest[0] == ',')
    ensures Fields(field, word + rest) == Kept(field + word) + if rest == "" then [] else Fields([], rest[1..])
    decreases |word|
  {
    if word == [] {
      assert word + rest == rest && field + word == field;
    } else {
      assert (word + rest)[1..] == word[1..] + rest;
      FieldsOfWord(field + [word[0]], word[1..], rest);
      assert field + [word[0]] + word[1..] == field + word;
    }
  }

  // Splitting undoes joining.
  lemma {:induction false} SplitJoin(addrs: seq<string>)
    requires forall i :: 0 <= i < |addrs| ==> IsAddress(addrs[i])
    ensures Fields([], Join(addrs)) == addrs
  {
    if addrs == [] {
    } else {
      var a := addrs[0];
      assert IsAddress(a) && [] + a == a;
      if |addrs| == 1 {
        assert a + "" == a;
        FieldsOfWord([], a, "");
      } else {
        var rest := "," + Join(addrs[1..]);
        assert Join(addrs) == a + rest && rest[1..] == Join(addrs[1..]);
        FieldsOfWord([], a, rest);
        SplitJoin(addrs[1..]);
      }
    }
  }

  lemma {:induction false} FieldsAreAddresses(field: string, s: string)
    requires ',' !in field
    ensures forall a :: a in Fields(field, s) ==> IsAddress(a)
    decreases |s|
  {
    KeptIsAddress(field);
    if s != [] && s[0] == ',' {
      FieldsAreAddresses([], s[1..]);
    } else if s != [] {
      FieldsAreAddresses(field + [s[0]], s[1..]);
    }
  }

  lemma {:induction false} DropPart(s: string)
    ensures forall c :: c in DropBlanks(s) ==> c in s
  {
    if s != [] && IsBlank(s[0]) { DropPart(s[1..]); }
  }

  lemma KeptIsAddress(field: string)
    requires ',' !in field
    ensures forall a :: a in Kept(field) ==> IsAddress(a)
  {
    DropPart(field);
    var d, t := DropBlanks(field), TrimBlanks(field);
    if t != "" {
      assert t[0] == d[0];
      assert forall i :: 0 <= i < |t| ==> t[i] == d[i];
    }
  }

  // ---- Picking a backend ----

  datatype Instance = Instance(addr: string, healthy: bool, activeConns: int)

  predicate HealthyAt(bs: seq<Instance>, i: int) {
    0 <= i < |bs| && bs[i].healthy
  }

  // x modulo n, for x below 2 * n.
  function Turn(x: int, n: int): int {
    if x < n then x else x - n
  }

  lemma TurnIsMod(x: nat, n: nat)
    requires x < n
    ensures (x + 1) % n == Turn(x + 1, n)
  {
    if x + 1 < n { SmallMod(x + 1, n); }
  }

  lemma SmallMod(x: nat, n: nat)
    requires x < n
    ensures x % n == x
  {
  }

  // The first healthy index after r, going round.
  ghost predicate IsNext(bs: seq<Instance>, r: int, p: int) {
    && HealthyAt(bs, p)
    && if p > r then forall i :: r < i < p ==> !HealthyAt(bs, i)
       else forall i :: i < p || r < i ==> !HealthyAt(bs, i)
  }

  ghost predicate IsLeast(bs: seq<Instance>, p: int) {
    && HealthyAt(bs, p)
    && (forall i :: HealthyAt(bs, i) ==> bs[p].activeConns <= bs[i].activeConns)
    && (forall i :: HealthyAt(bs, i) && i < p ==> bs[p].activeConns < bs[i].activeConns)
  }

  method LeastConn(bs: seq<Instance>) returns (best: int)
    ensures best < 0 ==> best == -1 && forall i :: !HealthyAt(bs, i)
    ensures best >= 0 ==> IsLeast(bs, best)
  {
    best := -1;
    for i := 0 to |bs|
      invariant best < i && (best < 0 ==> best == -1)
      invariant best < 0 ==> forall m :: m < i ==> !HealthyAt(bs, m)
      invariant best >= 0 ==> HealthyAt(bs, best)
      invariant best >= 0 ==> forall m :: HealthyAt(bs, m) && m < i ==> bs[best].activeConns <= bs[m].activeConns
      invariant best >= 0 ==> forall m :: HealthyAt(bs, m) && m < best ==> bs[best].activeConns < bs[m].activeConns
    {
      if bs[i].healthy && (best < 0 || bs[i].activeConns < bs[best].activeConns) {
        best := i;
      }
    }
  }

  class LB {
    var enabled: bool
    var strategy: string
    var instances: seq<Instance>
    var rrIndex: int

    // Every backend has an address, so "" always means that none was picked.
    ghost predicate Valid()
      reads this
    {
      && (forall i :: 0 <= i < |instances| ==> instances[i].addr != "")
      && 0 <= rrIndex && (rrIndex == 0 || rrIndex < |instances|)
    }

    constructor ()
      ensures Valid() && !enabled && instances == [] && rrIndex == 0
    {
      enabled, strategy, instances, rrIndex := false, "", [], 0;
    }

    // Init: a disabled balancer is left alone; otherwise the configured addresses are appended, all healthy.
    method Init(lbEnabled: bool, lbStrategy: string, addrs: string)
      requires Valid()
      modifies this
      ensures Valid() && rrIndex == old(rrIndex)
      ensures !lbEnabled ==> unchanged(this)
      ensures lbEnabled ==> enabled && strategy == if lbStrategy == "" then "least_conn" else lbStrategy
      ensures lbEnabled ==> |instances| == |old(instances)| + |Fields([], addrs)| && old(instances) <= instances
      ensures lbEnabled ==> forall i :: 0 <= i < |Fields([], addrs)| ==>
                                          instances[|old(instances)| + i] == Instance(Fields([], addrs)[i], true, 0)
    {
      if !lbEnabled { return; }
      enabled := true;
      strategy := if lbStrategy == "" then "least_conn" else lbStrategy;
      if addrs != "" {
        var list := SplitComma(addrs);
        FieldsAreAddresses([], addrs);
        for i := 0 to |list|
          invariant enabled && strategy == (if lbStrategy == "" then "least_conn" else lbStrategy) && rrIndex == old(rrIndex)
          invariant |instances| == |old(instances)| + i && old(instances) <= instances
          invariant forall k :: 0 <= k < i ==> instances[|old(instances)| + k] == Instance(list[k], true, 0)
          invariant Valid()
        {
          assert IsAddress(list[i]) by { assert list[i] in list; }
          instances := instances + [Instance(list[i], true, 0)];
        }
      }
    }

    // Pick: the address of a healthy backend, "" exactly when the balancer is off, its strategy unknown or no
    // backend healthy. Round robin moves on to the next healthy index; least_conn reads the counters.
    method Pick() returns (addr: string, p: int)
      requires Valid()
      modifies this`rrIndex
      ensures Valid()
      ensures addr == "" <==> !enabled || strategy !in {"round_robin", "least_conn"} || !exists i :: HealthyAt(instances, i)
      ensures addr != "" ==> HealthyAt(instances, p) && addr == instances[p].addr
      ensures addr != "" && strategy == "round_robin" ==> IsNext(instances, old(rrIndex), p) && rrIndex == p
      ensures addr != "" && strategy == "least_conn" ==>
                forall i :: 0 <= i < |instances| && instances[i].healthy ==>
                              instances[p].activeConns < instances[i].activeConns
                              || (instances[p].activeConns == instances[i].activeConns && p <= i)
      ensures addr == "" || strategy != "round_robin" ==> rrIndex == old(rrIndex)
    {
      addr, p := "", -1;
      if !enabled || |instances| == 0 { return; }
      var n := |instances|;
      if strategy == "round_robin" {
        for k := 0 to n
          invariant Valid()
          invariant rrIndex == Turn(old(rrIndex) + k, n)
          invariant forall i :: old(rrIndex) < i <= old(rrIndex) + k && i < n ==> !instances[i].healthy
          invariant forall i :: 0 <= i <= old(rrIndex) + k - n ==> !instances[i].healthy
        {
          TurnIsMod(rrIndex, n);
          rrIndex := (rrIndex + 1) % n;
          if instances[rrIndex].healthy {
            assert HealthyAt(instances, rrIndex);
            return instances[rrIndex].addr, rrIndex;
          }
        }
      } else if strategy == "least_conn" {
        p := LeastConn(instances);
        if p >= 0 {
          return instances[p].addr, p;
        }
      }
    }
  }

  // ---- Fairness of round robin ----

  // How many of the first k backends are healthy: the rank of index k.
  function Rank(bs: seq<Instance>, k: nat): nat
    requires k <= |bs|
  {
    if k == 0 then 0 else Rank(bs, k - 1) + if bs[k - 1].healthy then 1 else 0
  }

  lemma {:induction false} RankGap(bs: seq<Instance>, a: nat, b: nat)
    requires a <= b <= |bs| && forall i :: a <= i < b ==> !HealthyAt(bs, i)
    ensures Rank(bs, b) == Rank(bs, a)
    decreases b
  {
    if a == b {
    } else {
      RankGap(bs, a, b - 1);
      assert !HealthyAt(bs, b - 1);
    }
  }

  lemma {:induction false} RankGrows(bs: seq<Instance>, a: nat, b: nat)
    requires a <= b <= |bs|
    ensures Rank(bs, a) <= Rank(bs, b)
    decreases b
  {
    if a == b {
    } else {
      RankGrows(bs, a, b - 1);
    }
  }

  lemma RankInjective(bs: seq<Instance>, p: int, q: int)
    requires HealthyAt(bs, p) && HealthyAt(bs, q) && Rank(bs, p) == Rank(bs, q)
    ensures p == q
  {
    if p != q {
      RankGrows(bs, (if p < q then p else q) + 1, if p < q then q else p);
    }
  }

  // From a healthy index, the next one is the next rank, going round.
  lemma NextRank(bs: seq<Instance>, r: int, p: int)
    requires HealthyAt(bs, r) && IsNext(bs, r, p)
    ensures Rank(bs, r) < Rank(bs, |bs|) && Rank(bs, p) == Turn(Rank(bs, r) + 1, Rank(bs, |bs|))
  {
    RankGrows(bs, p + 1, |bs|);
    RankGrows(bs, r + 1, |bs|);
    if p > r {
      RankGap(bs, r + 1, p);
    } else {
      RankGap(bs, 0, p);
      RankGap(bs, r + 1, |bs|);
    }
  }

  // Consecutive picks, each from the index of the one before.
  ghost predicate Picks(bs: seq<Instance>, start: int, ps: seq<int>) {
    && (forall k :: 0 <= k < |ps| ==> HealthyAt(bs, ps[k]))
    && forall k {:trigger Before(start, ps, k)} :: 0 <= k < |ps| ==> IsNext(bs, Before(start, ps, k), ps[k])
  }

  function Before(start: int, ps: seq<int>, k: int): int
    requires 0 <= k < |ps|
  {
    if k == 0 then start else ps[k - 1]
  }

  lemma {:induction false} PickRanks(bs: seq<Instance>, start: int, ps: seq<int>, k: nat)
    requires Picks(bs, start, ps) && k < |ps| <= Rank(bs, |bs|)
    ensures Rank(bs, ps[0]) < Rank(bs, |bs|) && Rank(bs, ps[k]) == Turn(Rank(bs, ps[0]) + k, Rank(bs, |bs|))
  {
    if k == 0 {
      RankGrows(bs, ps[0] + 1, |bs|);
    } else {
      PickRanks(bs, start, ps, k - 1);
      assert IsNext(bs, Before(start, ps, k), ps[k]);
      NextRank(bs, ps[k - 1], ps[k]);
    }
  }

  lemma PicksApart(bs: seq<Instance>, start: int, ps: seq<int>, j: nat, k: nat)
    requires Picks(bs, start, ps) && |ps| == Rank(bs, |bs|) && j < k < |ps|
    ensures ps[j] != ps[k]
  {
    PickRanks(bs, start, ps, j);
    PickRanks(bs, start, ps, k);
  }

  lemma PickReaches(bs: seq<Instance>, start: int, ps: seq<int>, p: int) returns (k: nat)
    requires Picks(bs, start, ps) && |ps| == Rank(bs, |bs|) && HealthyAt(bs, p)
    ensures k < |ps| && ps[k] == p
  {
    var h, b := |ps|, Rank(bs, p);
    RankGrows(bs, p + 1, |bs|);
    PickRanks(bs, start, ps, 0);
    var a := Rank(bs, ps[0]);
    k := if b >= a then b - a else b - a + h;
    PickRanks(bs, start, ps, k);
    RankInjective(bs, ps[k], p);
  }

  // Fairness: with the healthy backends fixed, any as many consecutive picks as there are healthy backends
  // give each of them exactly once.
  lemma RoundRobinFair(bs: seq<Instance>, start: int, ps: seq<int>)
    requires Picks(bs, start, ps) && |ps| == Rank(bs, |bs|)
    ensures forall j, k :: 0 <= j < k < |ps| ==> ps[j] != ps[k]
    ensures forall p :: HealthyAt(bs, p) <==> p in ps
  {
    forall j, k | 0 <= j < k < |ps| ensures ps[j] != ps[k] { PicksApart(bs, start, ps, j, k); }
    forall p | HealthyAt(bs, p) ensures p in ps { var k := PickReaches(bs, start, ps, p); }
  }

  lemma PicksGrow(bs: seq<Instance>, start: int, ps: seq<int>, p: int)
    requires Picks(bs, start, ps) && IsNext(bs, if ps == [] then start else ps[|ps| - 1], p)
    ensures Picks(bs, start, ps + [p])
  {
    forall k | 0 <= k < |ps + [p]|
      ensures IsNext(bs, Before(start, ps + [p], k), (ps + [p])[k])
    {
      if k == |ps| {
      } else {
        assert IsNext(bs, Before(start, ps, k), ps[k]);
      }
    }
  }

  // A caller of a round-robin balancer that picks as often as there are healthy backends, none of which
  // changes: each healthy backend is picked exactly once.
  method PickRound(lb: LB) returns (addrs: seq<string>, ghost ps: seq<int>)
    requires lb.Valid() && lb.enabled && lb.strategy == "round_robin" && exists i :: HealthyAt(lb.instances, i)
    modifies lb`rrIndex
    ensures lb.Valid() && |addrs| == |ps| == Rank(lb.instances, |lb.instances|)
    ensures forall k :: 0 <= k < |ps| ==> HealthyAt(lb.instances, ps[k]) && addrs[k] == lb.instances[ps[k]].addr
    ensures forall j, k :: 0 <= j < k < |ps| ==> ps[j] != ps[k]
    ensures forall p :: HealthyAt(lb.instances, p) <==> p in ps
  {
    addrs, ps := [], [];
    ghost var start := lb.rrIndex;
    for k := 0 to Rank(lb.instances, |lb.instances|)
      invariant lb.Valid() && |addrs| == |ps| == k
      invariant Picks(lb.instances, start, ps) && lb.rrIndex == if ps == [] then start else ps[|ps| - 1]
      invariant forall k :: 0 <= k < |ps| ==> addrs[k] == lb.instances[ps[k]].addr
    {
      var addr, p := lb.Pick();
      PicksGrow(lb.instances, start, ps, p);
      addrs, ps := addrs + [addr], ps + [p];
    }
    RoundRobinFair(lb.instances, start, ps);
  }
}
