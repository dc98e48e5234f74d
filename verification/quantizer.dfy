/**
 * The speed quantizer of the Lossnay fan: a requested percentage is bucketed
 * into one of the discrete speed levels 0..MaxSpeed, and each level selects
 * one fixed output value of the digital-to-analog converter (DAC).
 *
 * Percentages are integers. `update_fan_speed` compares `|p - c| <= step / 2`
 * with `step = 25`; here the comparison is doubled (`2 * |p - c| <= 25`) so
 * that it stays exact. An integer request is never exactly 12.5 from a level,
 * so the tie-break that `<=` and the upward scan decide never arises here.
 */
module Quantizer {

  /** Number of non-zero speed levels (`_max_speed`). */
  const MaxSpeed: nat := 4

  /** Percentage between two adjacent levels (`_speed_step`, 100 / MaxSpeed). */
  const SpeedStep: nat := 25

  /** `SPEED_DAC_VALUES` (0, 0.2, 0.4, 0.6, 0.9) in tenths of full scale. */
  const DacTenths: seq<nat> := [0, 2, 4, 6, 9]

  function Abs(x: int): nat
  {
    if x < 0 then -x else x
  }

  /** `|p - c| <= SpeedStep / 2`, doubled. */
  predicate WithinHalfStep(p: int, c: int)
  {
    2 * Abs(p - c) <= SpeedStep
  }

  /** The percentage that speed level `level` stands for. */
  function LevelPercentage(level: nat): int
  {
    level * SpeedStep
  }

  /** Level `level` lies within half a step of the request `p`. */
  predicate Matches(p: int, level: nat)
  {
    WithinHalfStep(p, LevelPercentage(level))
  }

  /**
   * Tries the levels `from`, `from + 1`, ... below MaxSpeed in order and
   * returns the first that matches; MaxSpeed when none of them does.
   */
  function FirstMatchFrom(p: int, from: nat): (level: nat)
    requires from <= MaxSpeed
    ensures from <= level <= MaxSpeed
    ensures level < MaxSpeed ==> Matches(p, level)
    ensures forall k: nat :: from <= k < level ==> !Matches(p, k)
    decreases MaxSpeed - from
  {
    if from == MaxSpeed then MaxSpeed
    else if Matches(p, from) then from
    else FirstMatchFrom(p, from + 1)
  }

  /**
   * The level the quantizer selects for request `p`: the smallest level
   * below MaxSpeed within half a step of `p`, or MaxSpeed when there is none.
   */
  function TargetLevel(p: int): (level: nat)
    ensures level <= MaxSpeed
    ensures level < MaxSpeed ==> Matches(p, level)
    ensures forall k: nat :: k < level ==> !Matches(p, k)
  {
    FirstMatchFrom(p, 0)
  }

  /** The percentage stored back after quantizing request `p`. */
  function Quantize(p: int): (q: int)
    ensures 0 <= q <= 100
    ensures q % SpeedStep == 0
  {
    LevelPercentage(TargetLevel(p))
  }

  /** The DAC output (in tenths) for speed level `level`. */
  function DacValue(level: nat): (tenths: nat)
    requires level <= MaxSpeed
    ensures tenths <= 9
    ensures tenths == 0 <==> level == 0
  {
    DacTenths[level]
  }

  /**
   * The loop of `update_fan_speed`: walks the levels upward, accumulating the
   * candidate percentage, and stops at the first one within half a step of
   * `p`; when none below MaxSpeed matches it ends at MaxSpeed.
   */
  method SpeedLoop(p: int) returns (speed: nat, percentage: int)
    ensures speed == TargetLevel(p)
    ensures speed < |DacTenths|
    ensures percentage == LevelPercentage(speed)
  {
    speed := 0;
    percentage := 0;
    while speed < MaxSpeed
      invariant speed <= MaxSpeed
      invariant percentage == LevelPercentage(speed)
      invariant forall k: nat :: k < speed ==> !Matches(p, k)
    {
      if WithinHalfStep(p, percentage) {
        break;
      }
      percentage := percentage + SpeedStep;
      speed := speed + 1;
    }
    TargetLevelUnique(p, speed);
  }

  /**
   * TargetLevel is the only level that is in range, matches unless it is
   * MaxSpeed, and has no matching level below it.
   */
  lemma TargetLevelUnique(p: int, level: nat)
    ensures (level <= MaxSpeed
             && (level < MaxSpeed ==> Matches(p, level))
             && (forall k: nat :: k < level ==> !Matches(p, k)))
            <==> level == TargetLevel(p)
  {
    var t := TargetLevel(p);
    if level <= MaxSpeed && (level < MaxSpeed ==> Matches(p, level))
       && (forall k: nat :: k < level ==> !Matches(p, k)) {
      assert !(level < t);
      assert !(t < level);
    }
  }

  /**
   * An independent closed form of the quantizer: a request below -12.5
   * falls through to MaxSpeed; otherwise the level is ceil((2p - 25) / 50),
   * capped at MaxSpeed.
   */
  function ClosedFormLevel(p: int): nat
  {
    if 2 * p + SpeedStep < 0 then MaxSpeed
    else
      var k := (2 * p + SpeedStep - 1) / (2 * SpeedStep);
      if k < MaxSpeed then k else MaxSpeed
  }

  /** The loop's level agrees with the closed form for every request. */
  lemma TargetLevelClosedForm(p: int)
    ensures TargetLevel(p) == ClosedFormLevel(p)
  {
    var c := ClosedFormLevel(p);
    assert SpeedStep == 25;
    if 2 * p + SpeedStep >= 0 && c < MaxSpeed {
      assert Matches(p, c);
    }
    forall k: nat | k < c
      ensures !Matches(p, k)
    {
    }
    TargetLevelUnique(p, c);
  }

  /**
   * For a request of at least -12.5 the selected level is a nearest one:
   * no level is strictly closer, and every lower level is strictly farther.
   * Integer requests never tie, so no tie-break is exercised.
   */
  lemma TargetLevelNearest(p: int)
    requires 2 * p + SpeedStep >= 0
    ensures forall k: nat :: k <= MaxSpeed ==>
              Abs(p - LevelPercentage(TargetLevel(p))) <= Abs(p - LevelPercentage(k))
    ensures forall k: nat :: k < TargetLevel(p) ==>
              Abs(p - LevelPercentage(TargetLevel(p))) < Abs(p - LevelPercentage(k))
  {
    TargetLevelClosedForm(p);
  }

  /**
   * The quantizer falls through to MaxSpeed exactly for requests below
   * -12.5 or above 87.5 (including everything above 100).
   */
  lemma FallThroughExactly(p: int)
    ensures TargetLevel(p) == MaxSpeed
            <==> (2 * p + SpeedStep < 0 || 2 * p > 2 * LevelPercentage(MaxSpeed - 1) + SpeedStep)
  {
    TargetLevelClosedForm(p);
  }

  /** Requests 12 and 13 straddle the boundary between levels 0 and 1. */
  lemma BoundaryExamples()
    ensures TargetLevel(12) == 0 && TargetLevel(13) == 1
    ensures TargetLevel(87) == 3 && TargetLevel(88) == 4
    ensures TargetLevel(-12) == 0 && TargetLevel(-13) == 4
  {
    TargetLevelClosedForm(12);
    TargetLevelClosedForm(13);
    TargetLevelClosedForm(87);
    TargetLevelClosedForm(88);
    TargetLevelClosedForm(-12);
    TargetLevelClosedForm(-13);
  }

  /** A level's own percentage quantizes back to that level. */
  lemma LevelRoundTrip(level: nat)
    requires level <= MaxSpeed
    ensures TargetLevel(LevelPercentage(level)) == level
  {
    TargetLevelUnique(LevelPercentage(level), level);
  }

  /** Quantizing an already quantized percentage changes nothing. */
  lemma QuantizeIdempotent(p: int)
    ensures TargetLevel(Quantize(p)) == TargetLevel(p)
    ensures Quantize(Quantize(p)) == Quantize(p)
  {
    LevelRoundTrip(TargetLevel(p));
  }

  /** From -12.5 upward a larger request never selects a lower level. */
  lemma TargetLevelMonotone(p: int, q: int)
    requires 2 * p + SpeedStep >= 0
    requires p <= q
    ensures TargetLevel(p) <= TargetLevel(q)
    ensures Quantize(p) <= Quantize(q)
  {
    TargetLevelClosedForm(p);
    TargetLevelClosedForm(q);
  }

  /** Below -12.5 monotonicity fails: -13 runs the fan faster than 0. */
  lemma NegativeRequestNotMonotone()
    ensures TargetLevel(-13) > TargetLevel(0)
  {
    TargetLevelClosedForm(-13);
    TargetLevelClosedForm(0);
  }

  /** The DAC table rises strictly with the level. */
  lemma DacStrictlyIncreasing(i: nat, j: nat)
    requires i < j <= MaxSpeed
    ensures DacValue(i) < DacValue(j)
  {
  }
}
