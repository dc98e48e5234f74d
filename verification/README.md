# Lossnay fan speed logic in Dafny

This project models the speed logic of the `LossnayFan` Home Assistant entity,
which drives a Lossnay heat-exchange ventilator through a digital-to-analog
converter (DAC). It has two parts:

- **The speed quantizer** (`update_fan_speed`), in module `Quantizer`
  (`quantizer.dfy`). A requested percentage is bucketed into one of the speed
  levels 0..4, 25 percent apart. The loop stops at the first level within half
  a step (12.5) of the request and falls through to level 4 when none matches.
  The level's percentage is stored back, and the level selects one of the DAC
  outputs 0, 0.2, 0.4, 0.6 and 0.9. These are kept as tenths (0, 2, 4, 6, 9).
  The loop is the method `SpeedLoop`, proved to compute the recursive
  specification `TargetLevel`. `TargetLevel` is in turn proved equal to an
  independent closed form, `ClosedFormLevel`.
- **The entity's state machine**, in module `LossnayFan` (`fan.dfy`). A state
  is an on flag, an optional stored percentage, and the DAC level last written.
  The operations are construction, `async_set_percentage`, `async_turn_on`,
  `async_turn_off`, the side-effecting `percentage` getter, and `speed_count`.
  Each is a pure function from state to state. `Run` performs a sequence of
  host calls.

Percentages are integers, as the entity's interface declares them. The
half-step comparison `|p - c| <= 12.5` is written `2 * |p - c| <= 25`.
An integer request is never exactly 12.5 from a level. So the tie-break
that the `<=` and the upward scan decide cannot be observed in the model.
Nothing in the model distinguishes `<=` from `<` here.
The source computes the step as the float `100 / 4` and stores
quantized values as floats (25.0, 50.0, ...). These values are exact multiples
of 25, so integers represent them without loss.

Out-of-range requests are not left unspecified. The code lets any request
that matches no level below 4 fall through, and stores 100 with DAC level 4.
That happens for every request above 87.5, and also for every request below
-12.5. A negative request of -13 therefore runs the fan at full speed while
the on flag, computed from the raw request, says it is off. The model follows
the code here (`FallThroughExactly`, `NegativeRequestOffAtFullSpeed`).

## Model

| member | source | states |
|---|---|---|
| Quantizer.SpeedLoop | custom_components/lossnay/fan.py:101-109 | the while loop ends at level `TargetLevel(p)`, always a valid index into the DAC table, with the accumulated percentage equal to level × 25 |
| Quantizer.FirstMatchFrom | custom_components/lossnay/fan.py:104-108 | scanning levels upward from `from` yields a level in [from, 4]; it matches the request unless it is 4, and no level scanned before it matched |
| Quantizer.TargetLevel | custom_components/lossnay/fan.py:102-110 | the selected level is at most 4, lies within half a step of the request unless it is 4, and no lower level does |
| Quantizer.TargetLevelUnique | custom_components/lossnay/fan.py:104-110 | those three conditions hold of exactly one level, the selected one (both directions) |
| Quantizer.Quantize | custom_components/lossnay/fan.py:110 | the stored percentage is a multiple of 25 in [0, 100] |
| Quantizer.DacValue | custom_components/lossnay/fan.py:112-113 | every level 0..4 has a DAC output of at most 0.9, and the output is zero exactly at level 0 |
| Quantizer.TargetLevelClosedForm | custom_components/lossnay/fan.py:101-110 | for every integer request the loop's level equals the closed form: 4 below -12.5, otherwise ceil((2p − 25) / 50) capped at 4 |
| Quantizer.TargetLevelNearest | custom_components/lossnay/fan.py:104-106 | for requests of at least -12.5 no level is closer to the request than the selected one, and every lower level is strictly farther |
| Quantizer.FallThroughExactly | custom_components/lossnay/fan.py:104-110 | the quantizer ends at level 4 exactly for requests below -12.5 or above 87.5 |
| Quantizer.BoundaryExamples | custom_components/lossnay/fan.py:104-106 | 12 → 0, 13 → 1, 87 → 3, 88 → 4, -12 → 0, -13 → 4 |
| Quantizer.LevelRoundTrip | custom_components/lossnay/fan.py:104-110 | quantizing a level's own percentage returns that level |
| Quantizer.QuantizeIdempotent | custom_components/lossnay/fan.py:104-110 | quantizing a quantized percentage returns the same level and percentage |
| Quantizer.TargetLevelMonotone | custom_components/lossnay/fan.py:104-110 | from -12.5 upward a larger request never selects a lower level or percentage |
| Quantizer.NegativeRequestNotMonotone | custom_components/lossnay/fan.py:104-110 | below -12.5 monotonicity fails: -13 selects a higher level than 0 |
| Quantizer.DacStrictlyIncreasing | custom_components/lossnay/fan.py:112 | the DAC table rises strictly with the level |
| LossnayFan.Init | custom_components/lossnay/fan.py:34-38 | a new entity is off, has no percentage and has not written the DAC |
| LossnayFan.SpeedCount | custom_components/lossnay/fan.py:85-88 | the speed count plus one is the size of the DAC table, and count × step is 100 |
| LossnayFan.GetPercentage | custom_components/lossnay/fan.py:73-78 | the getter never reports "unset": it reports the stored value, or stores and reports the step (25); nothing else changes |
| LossnayFan.UpdateFanSpeed | custom_components/lossnay/fan.py:100-113 | quantizes the reported percentage (25 when unset), leaves the stored percentage equal to the DAC level's percentage, keeps the on flag |
| LossnayFan.SetPercentage | custom_components/lossnay/fan.py:41-45 | the on flag is `p > 0` on the raw request; the stored percentage and DAC level are the quantized ones |
| LossnayFan.TurnOff | custom_components/lossnay/fan.py:48-51 | off, percentage unset until the host next reads the state, DAC untouched |
| LossnayFan.TurnOn | custom_components/lossnay/fan.py:54-61 | on; an explicit percentage is stored unquantized; without one a stored value is kept and an unset one becomes 25; DAC untouched |
| LossnayFan.RunDacIsLastRequest | custom_components/lossnay/fan.py:41-113 | after any sequence of host calls the DAC holds the level of the last percentage request, or its earlier value when there was none |
| LossnayFan.RunPreservesValid | custom_components/lossnay/fan.py:41-113 | every DAC level reachable by any sequence of host calls indexes the DAC table |
| LossnayFan.SmallRequestStaysOn | custom_components/lossnay/fan.py:43-45 | a request of 1..12 leaves the fan on with stored percentage 0 and DAC level 0 |
| LossnayFan.NegativeRequestOffAtFullSpeed | custom_components/lossnay/fan.py:43-45 | a request below -12.5 leaves the fan off with stored percentage 100 and DAC level 4 |
| LossnayFan.SetReportedPercentageStable | custom_components/lossnay/fan.py:41-78 | setting the reported percentage again changes nothing exactly when the raw request and its quantized value agree on being positive |
| LossnayFan.GetPercentageIdempotent | custom_components/lossnay/fan.py:74-78 | a second read reports the same value and leaves the same state |
| LossnayFan.ReadAfterTurnOff | custom_components/lossnay/fan.py:48-78 | after turn-off the getter reports 25, the same value a bare turn-on stores |
| LossnayFan.TurnOffThenHostRead | custom_components/lossnay/fan.py:48-78 | once the host reads the state after turn-off, the stored percentage is 25 while the flag stays off and the DAC keeps its level; the state is Synced again exactly when that level is 1 |
| LossnayFan.TurnOnBreaksSync | custom_components/lossnay/fan.py:54-62 | turning on at 80 after setting 50 stores 80 while the DAC stays at level 2 |
| LossnayFan.SyncedUnderTurnOnOff | custom_components/lossnay/fan.py:48-61 | a bare turn-on keeps the stored percentage equal to the DAC level's percentage; turn-off always breaks it, until the host next reads the state |

## Left out

- Host-framework plumbing (`async_setup_entry`, `async_remove_entry`, `async_write_ha_state`) is not modelled as host code. When the host publishes the entity's state, it reads the side-effecting `percentage` getter, because the entity declares set-speed support. That happens after each operation and when the entity is added. The read stores 25 wherever the percentage was unset. The model represents that read as a separate `ReadPct` step in `Run` (see `TurnOffThenHostRead`).
- The I2C bus and MCP4725 driver construction: the DAC is modelled only as the last level index written. Before the first write it is `None`, because the hardware's power-on value is not under this code's control.
- Floating-point representation of the DAC values and of `100 / 4`: these are exact tenths and integers here.
- The async/await semantics: every call is one atomic sequential step.
- Constant properties `name`, `unique_id`, `should_poll`, `supported_features`, and the `is_on` getter: these only return fixed values or the `isOn` field.
- `async_set_percentage` called with `None`: the interface declares an integer. In the source such a call fails at `None > 0`, but only after `update_fan_speed` has already stored 25 through the getter, quantized it to level 1 and written 0.2 to the DAC.
- `async_turn_on`'s `preset_mode` and extra keyword arguments: the body ignores them.
