// GPRS Timer 3 (core/infra/timers/gprstimer.go), section 10.5.7.4a of 3GPP TS 24.008.
module GprsTimer {
  import opened Wrappers

  // Durations are in nanoseconds.
  const SECOND: int := 1_000_000_000
  const MINUTE: int := 60 * SECOND
  const HOUR: int := 60 * MINUTE

  datatype Tier = Tier(unit: nat, step: int)

  // The units, finest first.
  const TIERS: seq<Tier> := [
    Tier(3, 2 * SECOND),
    Tier(4, 30 * SECOND),
    Tier(5, MINUTE),
    Tier(0, 10 * MINUTE),
    Tier(1, HOUR),
    Tier(2, 10 * HOUR),
    Tier(6, 320 * HOUR)
  ]

  const DEACTIVATED: nat := 0xE0
  const LONGEST: nat := 0xDF

  // d is 1 to 31 whole steps.
  predicate FitsStep(d: int, step: int)
    requires step > 0
  {
    d > 0 && d % step == 0 && d / step <= 31
  }

  lemma Steps()
    ensures forall i :: 0 <= i < |TIERS| ==> TIERS[i].step > 0 && TIERS[i].unit < 7
    ensures forall i, j :: 0 <= i < j < |TIERS| ==> TIERS[i].step < TIERS[j].step && TIERS[i].unit != TIERS[j].unit
  {
  }

  // The first tier from i on that d fits.
  function FirstTier(d: int, i: nat): (r: Option<nat>)
    requires i <= |TIERS|
    ensures r.Some? ==> i <= r.value < |TIERS| && FitsStep(d, TIERS[r.value].step)
                        && forall k :: i <= k < r.value ==> !FitsStep(d, TIERS[k].step)
    ensures r.None? ==> forall k :: i <= k < |TIERS| ==> !FitsStep(d, TIERS[k].step)
    decreases |TIERS| - i
  {
    if i == |TIERS| then None
    else if FitsStep(d, TIERS[i].step) then Some(i)
    else FirstTier(d, i + 1)
  }

  function Encode(d: int): nat {
    if d <= 0 then DEACTIVATED else
      match FirstTier(d, 0)
      case Some(i) => TIERS[i].unit * 32 + d / TIERS[i].step
      case None => LONGEST
  }

  // What an octet stands for by the standard; None is deactivated.
  function Decode(octet: nat): Option<int>
    requires octet < 256
  {
    var unit, value := octet / 32, octet % 32;
    match unit
    case 0 => Some(value * 10 * MINUTE)
    case 1 => Some(value * HOUR)
    case 2 => Some(value * 10 * HOUR)
    case 3 => Some(value * 2 * SECOND)
    case 4 => Some(value * 30 * SECOND)
    case 5 => Some(value * MINUTE)
    case 6 => Some(value * 320 * HOUR)
    case _ => None
  }

  // The durations the octet can carry.
  ghost predicate Representable(d: int) {
    exists i :: 0 <= i < |TIERS| && FitsStep(d, TIERS[i].step)
  }

  lemma DecodeTier(i: nat, value: nat)
    requires i < |TIERS| && value <= 31
    ensures TIERS[i].unit * 32 + value < 0xE0
    ensures Decode(TIERS[i].unit * 32 + value) == Some(value * TIERS[i].step)
  {
    var octet := TIERS[i].unit * 32 + value;
    assert octet / 32 == TIERS[i].unit && octet % 32 == value;
    assert i == 0 || i == 1 || i == 2 || i == 3 || i == 4 || i == 5 || i == 6;
  }

  lemma WholeSteps(d: int, step: int)
    requires step > 0 && FitsStep(d, step)
    ensures 1 <= d / step <= 31 && d / step * step == d
  {
  }

  // Encoding is exact on the representable durations, with the finest unit that fits, and every other positive
  // duration becomes the longest one.
  lemma EncodeIsExact(d: int)
    requires d > 0
    ensures Encode(d) < 256
    ensures Decode(Encode(d)) == Some(d) <==> Representable(d)
    ensures Representable(d) ==>
              exists i :: 0 <= i < |TIERS| && Encode(d) / 32 == TIERS[i].unit && FitsStep(d, TIERS[i].step)
                          && forall k :: 0 <= k < |TIERS| && FitsStep(d, TIERS[k].step) ==> TIERS[i].step <= TIERS[k].step
    ensures !Representable(d) ==> Encode(d) == LONGEST
  {
    Steps();
    match FirstTier(d, 0)
    case Some(i) =>
      WholeSteps(d, TIERS[i].step);
      DecodeTier(i, d / TIERS[i].step);
      assert Encode(d) / 32 == TIERS[i].unit;
      assert Representable(d);
    case None =>
      LongestIsRepresentable();
  }

  lemma LongestIsRepresentable()
    ensures Decode(LONGEST) == Some(31 * 320 * HOUR) && Representable(31 * 320 * HOUR)
  {
    assert TIERS[6].step == 320 * HOUR;
    assert FitsStep(31 * 320 * HOUR, TIERS[6].step);
  }

  // Only a duration that is not positive is sent as deactivated.
  lemma DeactivatedIff(d: int)
    ensures Encode(d) < 256 && (Decode(Encode(d)) == None <==> d <= 0)
  {
    if d > 0 {
      match FirstTier(d, 0)
      case Some(i) =>
        WholeSteps(d, TIERS[i].step);
        DecodeTier(i, d / TIERS[i].step);
      case None =>
    }
  }
}
