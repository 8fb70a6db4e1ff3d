// UE buckets of the baseline manifest: the server's interval-overlap test (core/db/seed/manifest.go) and the
// tester's eager enumeration with a duplicate check (tester/src/baseline.py).
module Manifest {
  import opened Wrappers
  import opened Decimal

  const TWO_64: int := 0x1_0000_0000_0000_0000

  datatype Bucket = Bucket(name: string, count: int, imsiStart: string, msisdnStart: string)

  // ---- Zero-padded decimals ----

  function Width(v: nat): (w: nat)
    ensures w > 0 && v < Pow10(w)
  {
    if v < 10 then assert Pow10(1) == 10; 1 else 1 + Width(v / 10)
  }

  // %0*d: at least w digits, more when the value needs them.
  function Padded(v: nat, w: nat): string {
    Render(v, if w < Width(v) then Width(v) else w)
  }

  lemma {:induction false} Pow10Grows(a: nat, b: nat)
    requires a <= b
    ensures Pow10(a) <= Pow10(b)
  {
    if a == b {
    } else {
      Pow10Grows(a, b - 1);
    }
  }

  // A padded number is digits of its value, and so tells its number.
  lemma PaddedValue(v: nat, w: nat)
    ensures IsDigits(Padded(v, w)) && Value(Padded(v, w)) == v
    ensures |Padded(v, w)| == if w < Width(v) then Width(v) else w
  {
    var n := if w < Width(v) then Width(v) else w;
    Pow10Grows(Width(v), n);
    ValueOfRender(v, n);
  }

  lemma PaddedInjective(u: nat, v: nat, w: nat)
    requires Padded(u, w) == Padded(v, w)
    ensures u == v
  {
    PaddedValue(u, w);
    PaddedValue(v, w);
  }

  // ---- The server's side ----

  predicate IsNumber(s: string) {
    s != "" && IsDigits(s)
  }

  // strconv.ParseUint(s, 10, 64).
  function ParseUint(s: string): Option<nat> {
    if IsNumber(s) && Value(s) < TWO_64 then Some(Value(s)) else None
  }

  // The value strconv.ParseUint returns beside its error.
  function ParseOrLimit(s: string): nat {
    if !IsNumber(s) then 0 else if Value(s) < TWO_64 then Value(s) else TWO_64 - 1
  }

  // UEBucket.IMSI and UEBucket.MSISDN, in 64-bit arithmetic.
  function BucketImsi(b: Bucket, idx: nat): string {
    Padded((ParseOrLimit(b.imsiStart) + idx) % TWO_64, 15)
  }

  function BucketMsisdn(b: Bucket, idx: nat): string {
    Padded((ParseOrLimit(b.msisdnStart) + idx) % TWO_64, |b.msisdnStart|)
  }

  lemma TwoTo64()
    ensures TWO_64 == 65536 * 65536 * 65536 * 65536 == 18446744073709551616
  {
  }

  // What strconv.ParseUint accepts, and what its value is where it refuses: 0, or the largest 64-bit number.
  lemma ParseMeans(s: string)
    ensures ParseUint(s) == (if IsNumber(s) && Value(s) <= 18446744073709551615 then Some(Value(s)) else None)
    ensures !IsNumber(s) ==> ParseOrLimit(s) == 0
    ensures IsNumber(s) ==> ParseOrLimit(s) == if Value(s) <= 18446744073709551615 then Value(s) else 18446744073709551615
  {
    TwoTo64();
  }

  datatype Range = Range(lo: nat, hi: nat)

  predicate Overlap(a: Range, b: Range) {
    a.lo <= b.hi && b.lo <= a.hi
  }

  function RangeOf(b: Bucket): Range
    requires b.count > 0 && ParseUint(b.imsiStart).Some?
  {
    var start := ParseUint(b.imsiStart).value;
    Range(start, (start + b.count - 1) % TWO_64)
  }

  predicate Parses(b: Bucket) {
    b.count > 0 && ParseUint(b.imsiStart).Some?
  }

  ghost predicate Accepts(bs: seq<Bucket>) {
    && (forall i :: 0 <= i < |bs| ==> Parses(bs[i]))
    && (forall i, j :: 0 <= i < j < |bs| ==> !Overlap(RangeOf(bs[i]), RangeOf(bs[j])))
  }

  // The bucket part of validateManifest.
  method ValidateBuckets(bs: seq<Bucket>) returns (ok: bool)
    ensures ok <==> Accepts(bs)
  {
    var ranges: seq<Range> := [];
    for i := 0 to |bs|
      invariant |ranges| == i
      invariant forall k :: 0 <= k < i ==> Parses(bs[k]) && ranges[k] == RangeOf(bs[k])
    {
      if bs[i].count <= 0 { return false; }
      var start := ParseUint(bs[i].imsiStart);
      if start.None? { return false; }
      ranges := ranges + [Range(start.value, (start.value + bs[i].count - 1) % TWO_64)];
    }
    for i := 0 to |ranges|
      invariant forall k, l :: 0 <= k < i && k < l < |ranges| ==> !Overlap(ranges[k], ranges[l])
    {
      for j := i + 1 to |ranges|
        invariant forall l :: i < l < j ==> !Overlap(ranges[i], ranges[l])
      {
        if Overlap(ranges[i], ranges[j]) {
          assert Overlap(RangeOf(bs[i]), RangeOf(bs[j]));
          return false;
        }
      }
    }
    ok := true;
  }

  // ---- The tester's side ----

  // f"{imsi_int + k:015d}" and the MSISDN of the same index, in unbounded arithmetic.
  function Imsi(b: Bucket, k: nat): string
    requires IsDigits(b.imsiStart)
  {
    Padded(Value(b.imsiStart) + k, 15)
  }

  function Msisdn(b: Bucket, k: nat): string
    requires IsDigits(b.msisdnStart)
  {
    Padded(Value(b.msisdnStart) + k, |b.msisdnStart|)
  }

  // IMSIs count up from the start in at least 15 digits, MSISDNs in at least as many as theirs has.
  lemma NumberedMeans(b: Bucket, k: nat)
    requires IsNumber(b.imsiStart) && IsNumber(b.msisdnStart)
    ensures IsDigits(Imsi(b, k)) && Value(Imsi(b, k)) == Value(b.imsiStart) + k && |Imsi(b, k)| >= 15
    ensures Value(b.imsiStart) + k < Pow10(15) ==> |Imsi(b, k)| == 15
    ensures IsDigits(Msisdn(b, k)) && Value(Msisdn(b, k)) == Value(b.msisdnStart) + k
    ensures |Msisdn(b, k)| >= |b.msisdnStart|
  {
    PaddedMeans(Value(b.imsiStart) + k, 15);
    PaddedMeans(Value(b.msisdnStart) + k, |b.msisdnStart|);
  }

  lemma PaddedMeans(v: nat, w: nat)
    requires w > 0
    ensures IsDigits(Padded(v, w)) && Value(Padded(v, w)) == v && |Padded(v, w)| >= w
    ensures v < Pow10(w) ==> |Padded(v, w)| == w
  {
    PaddedValue(v, w);
    if v < Pow10(w) { NarrowWidth(v, w); }
  }

  lemma {:induction false} NarrowWidth(v: nat, w: nat)
    requires w > 0 && v < Pow10(w)
    ensures Width(v) <= w
  {
    if v < 10 {
    } else {
      assert Pow10(1) == 10;
      NarrowWidth(v / 10, w - 1);
    }
  }

  // Starts as the manifest format has them: digit strings.
  predicate Numbered(bs: seq<Bucket>) {
    forall i :: 0 <= i < |bs| ==> IsNumber(bs[i].imsiStart) && IsNumber(bs[i].msisdnStart)
  }

  predicate At(bs: seq<Bucket>, i: int, k: int) {
    0 <= i < |bs| && 0 <= k < bs[i].count
  }

  // No IMSI string is enumerated twice.
  ghost predicate Distinct(bs: seq<Bucket>)
    requires Numbered(bs)
  {
    forall i, k, j, l :: At(bs, i, k) && At(bs, j, l) && Imsi(bs[i], k) == Imsi(bs[j], l) ==> i == j && k == l
  }

  // (j, l) is a place of the enumeration before index k of bucket i.
  predicate Before(bs: seq<Bucket>, j: int, l: int, i: int, k: int) {
    At(bs, j, l) && (j < i || (j == i && l < k))
  }

  // s is enumerated before index k of bucket i.
  ghost predicate Seen(bs: seq<Bucket>, s: string, i: int, k: int)
    requires Numbered(bs)
  {
    exists j, l :: Before(bs, j, l, i, k) && Imsi(bs[j], l) == s
  }

  ghost predicate DistinctBefore(bs: seq<Bucket>, i: int, k: int)
    requires Numbered(bs)
  {
    forall j, l, j', l' ::
      Before(bs, j, l, i, k) && Before(bs, j', l', i, k) && Imsi(bs[j], l) == Imsi(bs[j'], l') ==> j == j' && l == l'
  }

  // The place's IMSI is listed with the name of its bucket and its MSISDN.
  predicate Listed(bs: seq<Bucket>, toBucket: map<string, string>, toMsisdn: map<string, string>, j: int, l: int)
    requires Numbered(bs) && At(bs, j, l)
  {
    var s := Imsi(bs[j], l);
    s in toBucket && s in toMsisdn && toBucket[s] == bs[j].name && toMsisdn[s] == Msisdn(bs[j], l)
  }

  // The two tables hold exactly the places enumerated so far.
  ghost predicate Indexed(bs: seq<Bucket>, toBucket: map<string, string>, toMsisdn: map<string, string>, i: int, k: int)
    requires Numbered(bs)
  {
    && (forall s :: s in toBucket ==> Seen(bs, s, i, k))
    && (forall j, l :: Before(bs, j, l, i, k) ==> Listed(bs, toBucket, toMsisdn, j, l))
  }

  lemma BeforeNext(bs: seq<Bucket>, i: int, k: int)
    requires At(bs, i, k)
    ensures forall j, l :: Before(bs, j, l, i, k + 1) <==> Before(bs, j, l, i, k) || (j == i && l == k)
  {
  }

  lemma DistinctNext(bs: seq<Bucket>, toBucket: map<string, string>, toMsisdn: map<string, string>, i: int, k: int)
    requires Numbered(bs) && At(bs, i, k) && Indexed(bs, toBucket, toMsisdn, i, k) && Imsi(bs[i], k) !in toBucket
    requires DistinctBefore(bs, i, k)
    ensures DistinctBefore(bs, i, k + 1)
  {
    BeforeNext(bs, i, k);
    forall j, l | Before(bs, j, l, i, k)
      ensures Imsi(bs[j], l) != Imsi(bs[i], k)
    {
      assert Listed(bs, toBucket, toMsisdn, j, l);
    }
  }

  lemma IndexedNext(bs: seq<Bucket>, toBucket: map<string, string>, toMsisdn: map<string, string>, i: int, k: int)
    requires Numbered(bs) && At(bs, i, k) && Indexed(bs, toBucket, toMsisdn, i, k) && Imsi(bs[i], k) !in toBucket
    ensures Indexed(bs, toBucket[Imsi(bs[i], k) := bs[i].name], toMsisdn[Imsi(bs[i], k) := Msisdn(bs[i], k)], i, k + 1)
  {
    BeforeNext(bs, i, k);
    var toBucket', toMsisdn' := toBucket[Imsi(bs[i], k) := bs[i].name], toMsisdn[Imsi(bs[i], k) := Msisdn(bs[i], k)];
    forall s | s in toBucket'
      ensures Seen(bs, s, i, k + 1)
    {
      if s in toBucket {
        var j, l :| Before(bs, j, l, i, k) && Imsi(bs[j], l) == s;
        assert Before(bs, j, l, i, k + 1);
      } else {
        assert Before(bs, i, k, i, k + 1);
      }
    }
    forall j, l | Before(bs, j, l, i, k + 1)
      ensures Listed(bs, toBucket', toMsisdn', j, l)
    {
      if Before(bs, j, l, i, k) { assert Listed(bs, toBucket, toMsisdn, j, l); }
    }
  }

  method LoadBucket(bs: seq<Bucket>, i: int, toBucket0: map<string, string>, toMsisdn0: map<string, string>)
    returns (ok: bool, toBucket: map<string, string>, toMsisdn: map<string, string>)
    requires Numbered(bs) && 0 <= i < |bs| && bs[i].count > 0
    requires Indexed(bs, toBucket0, toMsisdn0, i, 0) && DistinctBefore(bs, i, 0)
    ensures !ok ==> !Distinct(bs)
    ensures ok ==> Indexed(bs, toBucket, toMsisdn, i, bs[i].count) && DistinctBefore(bs, i, bs[i].count)
  {
    toBucket, toMsisdn := toBucket0, toMsisdn0;
    for k := 0 to bs[i].count
      invariant Indexed(bs, toBucket, toMsisdn, i, k) && DistinctBefore(bs, i, k)
    {
      var imsi := Imsi(bs[i], k);
      assert At(bs, i, k);
      if imsi in toBucket {
        Repeated(bs, i, k);
        return false, toBucket, toMsisdn;
      }
      DistinctNext(bs, toBucket, toMsisdn, i, k);
      IndexedNext(bs, toBucket, toMsisdn, i, k);
      toBucket := toBucket[imsi := bs[i].name];
      toMsisdn := toMsisdn[imsi := Msisdn(bs[i], k)];
    }
    ok := true;
  }

  // The bucket part of _load_locked: enumerate, index, refuse a repeated IMSI.
  method LoadBuckets(bs: seq<Bucket>) returns (ok: bool, toBucket: map<string, string>, toMsisdn: map<string, string>)
    requires Numbered(bs)
    ensures ok <==> Counted(bs) && Distinct(bs)
    ensures ok ==> Indexed(bs, toBucket, toMsisdn, |bs|, 0)
  {
    toBucket, toMsisdn := map[], map[];
    for i := 0 to |bs|
      invariant forall j :: 0 <= j < i ==> bs[j].count > 0
      invariant Indexed(bs, toBucket, toMsisdn, i, 0) && DistinctBefore(bs, i, 0)
    {
      if bs[i].count <= 0 { return false, toBucket, toMsisdn; }
      var distinct;
      distinct, toBucket, toMsisdn := LoadBucket(bs, i, toBucket, toMsisdn);
      if !distinct { return false, toBucket, toMsisdn; }
      NextBucket(bs, toBucket, toMsisdn, i);
    }
    AllDistinct(bs);
    ok := true;
  }

  predicate Counted(bs: seq<Bucket>) {
    forall i :: 0 <= i < |bs| ==> bs[i].count > 0
  }

  lemma Repeated(bs: seq<Bucket>, i: int, k: int)
    requires Numbered(bs) && At(bs, i, k) && Seen(bs, Imsi(bs[i], k), i, k)
    ensures !Distinct(bs)
  {
    var j, l :| Before(bs, j, l, i, k) && Imsi(bs[j], l) == Imsi(bs[i], k);
    assert At(bs, j, l);
  }

  lemma NextBucket(bs: seq<Bucket>, toBucket: map<string, string>, toMsisdn: map<string, string>, i: int)
    requires Numbered(bs) && 0 <= i < |bs| && bs[i].count > 0
    requires Indexed(bs, toBucket, toMsisdn, i, bs[i].count) && DistinctBefore(bs, i, bs[i].count)
    ensures Indexed(bs, toBucket, toMsisdn, i + 1, 0) && DistinctBefore(bs, i + 1, 0)
  {
    assert forall j, l :: Before(bs, j, l, i, bs[i].count) <==> Before(bs, j, l, i + 1, 0);
    forall s | s in toBucket
      ensures Seen(bs, s, i + 1, 0)
    {
      var j, l :| Before(bs, j, l, i, bs[i].count) && Imsi(bs[j], l) == s;
      assert Before(bs, j, l, i + 1, 0);
    }
  }

  lemma AllDistinct(bs: seq<Bucket>)
    requires Numbered(bs) && DistinctBefore(bs, |bs|, 0)
    ensures Distinct(bs)
  {
    assert forall j, l :: At(bs, j, l) ==> Before(bs, j, l, |bs|, 0);
  }

  // ---- The two agree ----

  // Every bucket's range fits 64 bits.
  predicate Fits(bs: seq<Bucket>)
    requires Numbered(bs)
  {
    forall i :: 0 <= i < |bs| ==> Value(bs[i].imsiStart) + bs[i].count <= TWO_64
  }

  // Some IMSI is enumerated in both buckets.
  ghost predicate Share(a: Bucket, b: Bucket)
    requires IsDigits(a.imsiStart) && IsDigits(b.imsiStart)
  {
    exists k, l :: 0 <= k < a.count && 0 <= l < b.count && Imsi(a, k) == Imsi(b, l)
  }

  // The last number of a bucket, in unbounded arithmetic.
  function Last(b: Bucket): int
    requires IsDigits(b.imsiStart)
  {
    Value(b.imsiStart) + b.count - 1
  }

  predicate Meet(a: Bucket, b: Bucket)
    requires IsDigits(a.imsiStart) && IsDigits(b.imsiStart)
  {
    Value(a.imsiStart) <= Last(b) && Value(b.imsiStart) <= Last(a)
  }

  lemma MeetMeans(a: Bucket, b: Bucket)
    requires IsDigits(a.imsiStart) && IsDigits(b.imsiStart) && a.count > 0 && b.count > 0
    ensures Meet(a, b) <==> Share(a, b)
  {
    var x, y := Value(a.imsiStart), Value(b.imsiStart);
    if Meet(a, b) {
      var v := if x <= y then y else x;
      assert Imsi(a, v - x) == Imsi(b, v - y);
    }
    if k, l :| 0 <= k < a.count && 0 <= l < b.count && Imsi(a, k) == Imsi(b, l) {
      PaddedInjective(x + k, y + l, 15);
    }
  }

  // The end of a wraps round at 64 bits, and b starts above where it comes out.
  predicate PastEnd(a: Bucket, b: Bucket)
    requires IsDigits(a.imsiStart) && IsDigits(b.imsiStart)
  {
    Last(a) >= TWO_64 && Value(b.imsiStart) > Last(a) - TWO_64
  }

  // The server sees a shared IMSI exactly when neither bucket starts past the wrapped end of the other.
  lemma OverlapIff(a: Bucket, b: Bucket)
    requires Parses(a) && Parses(b) && a.count <= TWO_64 && b.count <= TWO_64
    ensures Overlap(RangeOf(a), RangeOf(b)) <==> Share(a, b) && !PastEnd(a, b) && !PastEnd(b, a)
  {
    EndOf(a);
    EndOf(b);
    MeetMeans(a, b);
  }

  lemma EndOf(b: Bucket)
    requires Parses(b) && b.count <= TWO_64
    ensures RangeOf(b) == Range(Value(b.imsiStart), if Last(b) < TWO_64 then Last(b) else Last(b) - TWO_64)
  {
  }

  // Two ranges within 64 bits overlap exactly when an IMSI is in both.
  lemma OverlapMeans(a: Bucket, b: Bucket)
    requires IsNumber(a.imsiStart) && IsNumber(b.imsiStart) && Parses(a) && Parses(b)
    requires Value(a.imsiStart) + a.count <= TWO_64 && Value(b.imsiStart) + b.count <= TWO_64
    ensures Overlap(RangeOf(a), RangeOf(b)) <==> Share(a, b)
  {
    MeetMeans(a, b);
    assert RangeOf(a) == Range(Value(a.imsiStart), Last(a)) && RangeOf(b) == Range(Value(b.imsiStart), Last(b));
  }

  // The tester finds a repeated IMSI exactly when two buckets meet.
  lemma DistinctIff(bs: seq<Bucket>)
    requires Numbered(bs) && Counted(bs)
    ensures Distinct(bs) <==> forall i, j :: 0 <= i < j < |bs| ==> !Meet(bs[i], bs[j])
  {
    if Distinct(bs) {
      forall i, j | 0 <= i < j < |bs| ensures !Meet(bs[i], bs[j]) {
        MeetMeans(bs[i], bs[j]);
        if k, l :| 0 <= k < bs[i].count && 0 <= l < bs[j].count && Imsi(bs[i], k) == Imsi(bs[j], l) {
          assert At(bs, i, k) && At(bs, j, l);
        }
      }
    } else {
      var i, k, j, l :| At(bs, i, k) && At(bs, j, l) && Imsi(bs[i], k) == Imsi(bs[j], l) && !(i == j && k == l);
      PaddedInjective(Value(bs[i].imsiStart) + k, Value(bs[j].imsiStart) + l, 15);
      assert Meet(bs[i], bs[j]) && Meet(bs[j], bs[i]);
    }
  }

  // Two buckets meet, and the server sees it, or does not.
  predicate Caught(a: Bucket, b: Bucket)
    requires IsDigits(a.imsiStart) && IsDigits(b.imsiStart)
  {
    Meet(a, b) && !PastEnd(a, b) && !PastEnd(b, a)
  }

  predicate Missed(a: Bucket, b: Bucket)
    requires IsDigits(a.imsiStart) && IsDigits(b.imsiStart)
  {
    Meet(a, b) && (PastEnd(a, b) || PastEnd(b, a))
  }

  predicate Starts64(bs: seq<Bucket>) {
    forall i :: 0 <= i < |bs| ==> ParseUint(bs[i].imsiStart).Some?
  }

  lemma AcceptsIff(bs: seq<Bucket>)
    requires Numbered(bs) && forall i :: 0 <= i < |bs| ==> bs[i].count <= TWO_64
    ensures Accepts(bs) <==>
            Counted(bs) && Starts64(bs) && forall i, j :: 0 <= i < j < |bs| ==> !Caught(bs[i], bs[j])
  {
    if Counted(bs) && Starts64(bs) {
      assert forall i :: 0 <= i < |bs| ==> Parses(bs[i]);
      forall i, j | 0 <= i < j < |bs|
        ensures Overlap(RangeOf(bs[i]), RangeOf(bs[j])) <==> Caught(bs[i], bs[j])
      {
        OverlapIff(bs[i], bs[j]);
        MeetMeans(bs[i], bs[j]);
      }
    }
  }

  // When the validators agree on a list of buckets whose counts fit 64 bits. A count that is not positive both
  // refuse. A start beyond 64 bits the server refuses, so two buckets must meet for the tester to refuse the
  // list too. Otherwise they agree exactly when the server sees some pair that meets, or misses none.
  lemma ValidatorsAgreeIff(bs: seq<Bucket>)
    requires Numbered(bs) && forall i :: 0 <= i < |bs| ==> bs[i].count <= TWO_64
    ensures (Accepts(bs) <==> Counted(bs) && Distinct(bs)) <==>
            || !Counted(bs)
            || (exists i, j :: 0 <= i < j < |bs| && Caught(bs[i], bs[j]))
            || (!Starts64(bs) && exists i, j :: 0 <= i < j < |bs| && Meet(bs[i], bs[j]))
            || (Starts64(bs) && forall i, j :: 0 <= i < j < |bs| ==> !Missed(bs[i], bs[j]))
  {
    AcceptsIff(bs);
    if Counted(bs) {
      DistinctIff(bs);
    }
  }

  // The server accepts a list of buckets exactly when the tester loads it, when the starts are digit strings
  // and the ranges fit 64 bits.
  lemma ValidatorsAgree(bs: seq<Bucket>)
    requires Numbered(bs) && Fits(bs)
    ensures Accepts(bs) <==> Counted(bs) && Distinct(bs)
  {
    ValidatorsAgreeIff(bs);
    if Counted(bs) {
      assert Starts64(bs);
      assert forall i, j :: 0 <= i < j < |bs| ==> !Missed(bs[i], bs[j]);
    }
  }

  // Both sides give an index of a bucket the same IMSI, and the same MSISDN where that range fits too.
  lemma SameImsis(bs: seq<Bucket>, i: int, k: int)
    requires Numbered(bs) && Fits(bs) && At(bs, i, k)
    ensures BucketImsi(bs[i], k) == Imsi(bs[i], k)
    ensures Value(bs[i].msisdnStart) + bs[i].count <= TWO_64 ==> BucketMsisdn(bs[i], k) == Msisdn(bs[i], k)
  {
    var a, b := Value(bs[i].imsiStart) + k, Value(bs[i].msisdnStart) + k;
    assert a < TWO_64 && a % TWO_64 == a;
    if b < TWO_64 { assert b % TWO_64 == b; }
  }

  // Where a range leaves 64 bits they disagree: the end wraps round, so the server sees no overlap in two
  // buckets that start on the same number.
  lemma WrappedRangesPass()
    ensures var s := Render(TWO_64 - 1, 20);
      var bs := [Bucket("a", 2, s, "0"), Bucket("b", 1, s, "0")];
      Numbered(bs) && Accepts(bs) && !Distinct(bs)
  {
    var s := Render(TWO_64 - 1, 20);
    assert Pow10(4) == 10000 && Pow10(8) == 100000000 && Pow10(12) == 1000000000000;
    assert Pow10(16) == 10000000000000000 && Pow10(20) == 100000000000000000000;
    ValueOfRender(TWO_64 - 1, 20);
    var bs := [Bucket("a", 2, s, "0"), Bucket("b", 1, s, "0")];
    assert At(bs, 0, 0) && At(bs, 1, 0) && Imsi(bs[0], 0) == Imsi(bs[1], 0);
    assert RangeOf(bs[0]) == Range(TWO_64 - 1, 0) && RangeOf(bs[1]) == Range(TWO_64 - 1, TWO_64 - 1);
  }
}
