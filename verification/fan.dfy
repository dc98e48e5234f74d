/**
 * The `LossnayFan` entity as a state machine over immutable states: an on
 * flag, an optional stored percentage, and the DAC level last written
 * (`None` until the first write). Every operation is one atomic step.
 */
module LossnayFan {
  import opened Wrappers
  import opened Quantizer

  /** The percentage `async_turn_on` stores when nothing is stored yet. */
  const DefaultOnPercentage: int := 25

  datatype Fan = Fan(isOn: bool, pct: Option<int>, dacLevel: Option<nat>)

  /** A value read from the fan together with the state the read leaves. */
  datatype Read = Read(value: int, fan: Fan)

  /** Every DAC level ever written indexes the DAC table. */
  predicate Valid(f: Fan)
  {
    f.dacLevel.Some? ==> f.dacLevel.value <= MaxSpeed
  }

  /** The stored percentage is exactly the one the DAC is driving. */
  predicate Synced(f: Fan)
  {
    f.dacLevel.Some? && f.dacLevel.value <= MaxSpeed
    && f.pct == Some(LevelPercentage(f.dacLevel.value))
  }

  /** The state right after construction: off, no percentage, DAC not yet written. */
  function Init(): (f: Fan)
    ensures Valid(f)
    ensures !f.isOn && f.pct.None? && f.dacLevel.None?
  {
    Fan(false, None, None)
  }

  /** `speed_count`: the number of non-zero speeds; level 0..n indexes the DAC table. */
  function SpeedCount(): (n: nat)
    ensures n + 1 == |DacTenths|
    ensures n * SpeedStep == 100
  {
    MaxSpeed
  }

  /**
   * The `percentage` getter. It never reports "unset": when nothing is stored
   * it stores the speed step and reports that. Nothing but the percentage
   * can change.
   */
  function GetPercentage(f: Fan): (r: Read)
    ensures r.fan.pct == Some(r.value)
    ensures r.fan.isOn == f.isOn && r.fan.dacLevel == f.dacLevel
    ensures f.pct.Some? ==> r.value == f.pct.value && r.fan == f
    ensures f.pct.None? ==> r.value == SpeedStep
  {
    match f.pct
    case Some(v) => Read(v, f)
    case None => Read(SpeedStep, f.(pct := Some(SpeedStep)))
  }

  /**
   * `update_fan_speed`: quantizes the percentage the getter reports, stores
   * the level's percentage and writes the level to the DAC. The loop itself
   * is `Quantizer.SpeedLoop`, which computes `TargetLevel`.
   */
  function UpdateFanSpeed(f: Fan): (g: Fan)
    ensures Synced(g)
    ensures g.isOn == f.isOn
    ensures g.dacLevel == Some(TargetLevel(f.pct.GetOr(SpeedStep)))
  {
    var read := GetPercentage(f);
    var level := TargetLevel(read.value);
    read.fan.(pct := Some(LevelPercentage(level)), dacLevel := Some(level))
  }

  /**
   * `async_set_percentage`: stores the request, quantizes it onto the DAC,
   * and only then sets the on flag from the RAW request.
   */
  function SetPercentage(f: Fan, p: int): (g: Fan)
    ensures Synced(g)
    ensures g.isOn <==> p > 0
    ensures g.pct == Some(Quantize(p))
    ensures g.dacLevel == Some(TargetLevel(p))
  {
    var g := UpdateFanSpeed(f.(pct := Some(p)));
    g.(isOn := p > 0)
  }

  /** `async_turn_off`: off and unset; the DAC keeps its last value. */
  function TurnOff(f: Fan): (g: Fan)
    ensures !g.isOn && g.pct.None?
    ensures g.dacLevel == f.dacLevel
  {
    f.(isOn := false, pct := None)
  }

  /**
   * `async_turn_on`: on; an explicit percentage is stored as given, without
   * quantizing; without one, a stored value is kept and an unset one becomes
   * DefaultOnPercentage. The DAC is never written.
   */
  function TurnOn(f: Fan, request: Option<int>): (g: Fan)
    ensures g.isOn && g.pct.Some?
    ensures g.dacLevel == f.dacLevel
    ensures request.Some? ==> g.pct == request
    ensures request.None? && f.pct.Some? ==> g == f.(isOn := true)
    ensures request.None? && f.pct.None? ==> g.pct == Some(DefaultOnPercentage)
  {
    var stored :=
      if request.Some? then request
      else if f.pct.None? then Some(DefaultOnPercentage)
      else f.pct;
    f.(isOn := true, pct := stored)
  }

  /** The calls the host can make on the entity. */
  datatype Op = SetPct(p: int) | On(request: Option<int>) | Off | ReadPct

  function Step(f: Fan, op: Op): Fan
  {
    match op
    case SetPct(p) => SetPercentage(f, p)
    case On(request) => TurnOn(f, request)
    case Off => TurnOff(f)
    case ReadPct => GetPercentage(f).fan
  }

  /** The state after performing `ops` in order from `f`. */
  function Run(f: Fan, ops: seq<Op>): Fan
    decreases |ops|
  {
    if |ops| == 0 then f else Step(Run(f, ops[..|ops| - 1]), ops[|ops| - 1])
  }

  /** The request of the last `SetPct` in `ops`, if there is one. */
  function LastRequest(ops: seq<Op>): Option<int>
    decreases |ops|
  {
    if |ops| == 0 then None
    else if ops[|ops| - 1].SetPct? then Some(ops[|ops| - 1].p)
    else LastRequest(ops[..|ops| - 1])
  }

  /**
   * Only `async_set_percentage` writes the DAC: after any sequence of calls
   * the DAC holds the level of the last percentage request, or what it held
   * before when there was none.
   */
  lemma {:induction false} RunDacIsLastRequest(f: Fan, ops: seq<Op>)
    ensures Run(f, ops).dacLevel
            == (match LastRequest(ops)
                case Some(p) => Some(TargetLevel(p))
                case None => f.dacLevel)
    decreases |ops|
  {
    if |ops| > 0 {
      RunDacIsLastRequest(f, ops[..|ops| - 1]);
    }
  }

  /** Every reachable state is Valid. */
  lemma {:induction false} RunPreservesValid(f: Fan, ops: seq<Op>)
    requires Valid(f)
    ensures Valid(Run(f, ops))
  {
    RunDacIsLastRequest(f, ops);
  }

  /** A request of 1..12 quantizes to level 0 yet leaves the fan on. */
  lemma SmallRequestStaysOn(f: Fan, p: int)
    requires 1 <= p <= 12
    ensures SetPercentage(f, p) == Fan(true, Some(0), Some(0))
  {
    TargetLevelClosedForm(p);
  }

  /** A request below -12.5 turns the fan off while driving the DAC at full speed. */
  lemma NegativeRequestOffAtFullSpeed(f: Fan, p: int)
    requires 2 * p + SpeedStep < 0
    ensures SetPercentage(f, p) == Fan(false, Some(100), Some(MaxSpeed))
  {
    FallThroughExactly(p);
  }

  /**
   * Feeding the reported percentage back into `async_set_percentage` leaves
   * the state unchanged exactly when the raw request and its quantized value
   * agree on whether the fan is on.
   */
  lemma SetReportedPercentageStable(f: Fan, p: int)
    ensures var g := SetPercentage(f, p);
            SetPercentage(g, GetPercentage(g).value) == g <==> (p > 0 <==> Quantize(p) > 0)
  {
    QuantizeIdempotent(p);
  }

  /** Reading the percentage twice reads the same value and changes nothing the second time. */
  lemma GetPercentageIdempotent(f: Fan)
    ensures GetPercentage(GetPercentage(f).fan) == GetPercentage(f)
  {
  }

  /** After turning off, the getter reports the speed step, the same value turn-on would store. */
  lemma ReadAfterTurnOff(f: Fan)
    ensures GetPercentage(TurnOff(f)).value == SpeedStep == DefaultOnPercentage
    ensures TurnOn(TurnOff(f), None).pct == Some(SpeedStep)
  {
  }

  /** An explicit turn-on percentage is not quantized and does not reach the DAC. */
  lemma TurnOnBreaksSync(f: Fan)
    ensures var g := TurnOn(SetPercentage(f, 50), Some(80));
            g.pct == Some(80) && g.dacLevel == Some(2) && !Synced(g)
  {
    LevelRoundTrip(2);
  }

  /**
   * The host publishes state after `async_turn_off` and reads the `percentage`
   * getter while doing so: from then on the stored percentage is the step,
   * and the state is Synced exactly when the DAC was last left at level 1.
   */
  lemma TurnOffThenHostRead(f: Fan)
    ensures GetPercentage(TurnOff(f)).fan == Fan(false, Some(SpeedStep), f.dacLevel)
    ensures Synced(GetPercentage(TurnOff(f)).fan) <==> f.dacLevel == Some(1)
  {
  }

  /** Turning on without a percentage keeps a Synced state Synced; turning off never does. */
  lemma SyncedUnderTurnOnOff(f: Fan)
    requires Synced(f)
    ensures Synced(TurnOn(f, None))
    ensures !Synced(TurnOff(f))
  {
  }
}
