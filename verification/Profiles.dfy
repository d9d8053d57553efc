/**
 Cooling values: channels, curves, programs, and the validation each passes before a write.
 Models crates/core/src/profile.rs and crates/core/src/profile/curve.rs.
 */
module Profiles {
  import opened Basics

  const MIN_PUMP_DUTY: byte := 51
  const MIN_FAN_DUTY: byte := 0
  const MAX_DUTY: byte := 255
  const MAX_DUTY_PERCENT: byte := 100
  const CURVE_POINT_COUNT: nat := 40
  const CURVE_FIRST_TEMP_C: nat := 20
  const MIN_PROGRAM_INTERVAL_MS: nat := 200

  datatype Channel = Pump | Fan {
    function MinDuty(): byte {
      match this
      case Pump => MIN_PUMP_DUTY
      case Fan => MIN_FAN_DUTY
    }

    function Other(): Channel {
      match this
      case Pump => Fan
      case Fan => Pump
    }
  }

  /** Exactly one duty per kernel curve point. */
  type TemperatureCurve = s: seq<byte> | |s| == 40 witness seq(40, _ => 0)

  type PointIndex = i: nat | i < 40

  datatype Program =
    | Onboard
    | Fixed(pumpDuty: byte, fanDuty: byte)
    | Curve(pumpCurve: TemperatureCurve, fanCurve: TemperatureCurve)

  // ---------------------------------------------------------------- the driver's percentages

  function DutyFromPercent(percent: byte): byte {
    (Min(percent, MAX_DUTY_PERCENT) * MAX_DUTY + 50) / 100
  }

  function DutyToPercent(duty: byte): byte {
    (duty * 100 + MAX_DUTY / 2) / MAX_DUTY
  }

  /** What a duty reads back as after the driver stored it as a percentage. */
  function DriverRounding(duty: byte): byte {
    DutyFromPercent(DutyToPercent(duty))
  }

  /** A percentage survives the trip through a duty, and no two percentages share one. */
  lemma PercentagesRoundTrip(p: byte, q: byte)
    requires p <= MAX_DUTY_PERCENT && q <= MAX_DUTY_PERCENT
    ensures DutyToPercent(DutyFromPercent(p)) == p
    ensures p < q <==> DutyFromPercent(p) < DutyFromPercent(q)
  {
    var d, e := DutyFromPercent(p), DutyFromPercent(q);
    assert 100 * d <= 255 * p + 50 < 100 * d + 100;
    assert 100 * e <= 255 * q + 50 < 100 * e + 100;
  }

  /** The driver's two roundings move a duty by at most one step, never change a percentage
      already stored, and keep the order of duties. */
  lemma RoundingIsClose(d: byte, e: byte)
    ensures d - 1 <= DriverRounding(d) <= d + 1
    ensures DriverRounding(DriverRounding(d)) == DriverRounding(d)
    ensures d <= e ==> DriverRounding(d) <= DriverRounding(e)
  {
    var p, q := DutyToPercent(d), DutyToPercent(e);
    assert 255 * p <= 100 * d + 127 < 255 * p + 255;
    assert 255 * q <= 100 * e + 127 < 255 * q + 255;
    PercentagesRoundTrip(p, q);
    var r := DriverRounding(d);
    assert 100 * r <= 255 * p + 50 < 100 * r + 100;
  }

  /** The ends of the scale meet, a percentage above it counts as its top, and the pump's floor is a whole one. */
  lemma TheScalesMeet(percent: byte)
    ensures DutyFromPercent(0) == 0 && DutyFromPercent(MAX_DUTY_PERCENT) == MAX_DUTY
    ensures DutyToPercent(0) == 0 && DutyToPercent(MAX_DUTY) == MAX_DUTY_PERCENT
    ensures MAX_DUTY_PERCENT <= percent ==> DutyFromPercent(percent) == MAX_DUTY
    ensures DutyFromPercent(20) == MIN_PUMP_DUTY && DutyToPercent(MIN_PUMP_DUTY) == 20
  {
  }

  // ---------------------------------------------------------------- curves over temperature

  /** Index of the point that governs a temperature given in millidegrees: the nearest whole
      degree, clamped at both ends. */
  function PointIndexFor(milliCelsius: int): PointIndex {
    Clamp((milliCelsius - 1000 * CURVE_FIRST_TEMP_C + 500) / 1000, 0, CURVE_POINT_COUNT - 1)
  }

  function DutyAt(curve: TemperatureCurve, milliCelsius: int): byte {
    curve[PointIndexFor(milliCelsius)]
  }

  function HighestDuty(curve: TemperatureCurve): byte {
    curve[CURVE_POINT_COUNT - 1]
  }

  ghost predicate NonDecreasing(curve: TemperatureCurve) {
    forall i, j :: 0 <= i <= j < CURVE_POINT_COUNT ==> curve[i] <= curve[j]
  }

  ghost predicate AtLeast(curve: TemperatureCurve, floor: byte) {
    forall i :: 0 <= i < CURVE_POINT_COUNT ==> floor <= curve[i]
  }

  /** The distance of a temperature from the degree of a point. */
  function Distance(milliCelsius: int, index: PointIndex): nat {
    var t := milliCelsius - 1000 * TemperatureAt(index);
    if t < 0 then -t else t
  }

  /** No point is nearer to the temperature than the one it names. */
  lemma NoPointIsNearer(milliCelsius: int, other: PointIndex)
    ensures Distance(milliCelsius, PointIndexFor(milliCelsius)) <= Distance(milliCelsius, other)
  {
    var offset := (milliCelsius - 1000 * CURVE_FIRST_TEMP_C + 500) / 1000;
    assert 1000 * offset <= milliCelsius - 1000 * CURVE_FIRST_TEMP_C + 500 < 1000 * offset + 1000;
  }

  /** The fallback duty of a curve that never decreases is its highest. */
  lemma HighestIsHighest(curve: TemperatureCurve, index: PointIndex)
    requires NonDecreasing(curve)
    ensures curve[index] <= HighestDuty(curve) && HighestDuty(curve) in curve
  {
  }

  // ---------------------------------------------------------------- validation

  datatype ValidationError =
    | DutyOutOfRange(channel: Channel, value: byte, min: byte, max: byte)
    | CurveDutyOutOfRange(channel: Channel, temperatureC: nat, value: byte, min: byte, max: byte)
    | CurveNotMonotonic(channel: Channel, previous: byte, previousTemperatureC: nat,
                        value: byte, temperatureC: nat)

  datatype Verdict = Accepted | Refused(error: ValidationError)

  function TemperatureAt(index: nat): nat {
    CURVE_FIRST_TEMP_C + index
  }

  function ValidateDuty(channel: Channel, value: byte): Verdict {
    if value < channel.MinDuty()
    then Refused(DutyOutOfRange(channel, value, channel.MinDuty(), MAX_DUTY))
    else Accepted
  }

  /** The refusal the point at `index` earns on its own, if any. */
  function PointVerdict(channel: Channel, curve: TemperatureCurve, index: PointIndex): Verdict {
    if curve[index] < channel.MinDuty() then
      Refused(CurveDutyOutOfRange(channel, TemperatureAt(index), curve[index], channel.MinDuty(), MAX_DUTY))
    else if index > 0 && curve[index] < curve[index - 1] then
      Refused(CurveNotMonotonic(channel, curve[index - 1], TemperatureAt(index - 1),
                                curve[index], TemperatureAt(index)))
    else
      Accepted
  }

  /** The first refusal at or after `index`. */
  function CurveVerdict(channel: Channel, curve: TemperatureCurve, index: nat): Verdict
    requires index <= CURVE_POINT_COUNT
    decreases CURVE_POINT_COUNT - index
  {
    if index == CURVE_POINT_COUNT then Accepted
    else if PointVerdict(channel, curve, index).Refused? then PointVerdict(channel, curve, index)
    else CurveVerdict(channel, curve, index + 1)
  }

  /** What a curve has to be: every point at or above the channel's floor, never decreasing. */
  ghost predicate CurveIsSafe(channel: Channel, curve: TemperatureCurve) {
    AtLeast(curve, channel.MinDuty()) && NonDecreasing(curve)
  }

  lemma {:induction false} CurveVerdictFrom(channel: Channel, curve: TemperatureCurve, index: nat)
    requires index <= CURVE_POINT_COUNT
    ensures CurveVerdict(channel, curve, index).Accepted?
            <==> forall i: nat :: index <= i < CURVE_POINT_COUNT ==> PointVerdict(channel, curve, i).Accepted?
    decreases CURVE_POINT_COUNT - index
  {
    if index < CURVE_POINT_COUNT {
      CurveVerdictFrom(channel, curve, index + 1);
    }
  }

  lemma {:induction false} AdjacentSteps(curve: TemperatureCurve, i: nat, j: nat)
    requires forall k :: 0 < k < CURVE_POINT_COUNT ==> curve[k - 1] <= curve[k]
    requires i <= j < CURVE_POINT_COUNT
    ensures curve[i] <= curve[j]
    decreases j
  {
    if i < j {
      AdjacentSteps(curve, i, j - 1);
    }
  }

  /** The loop over adjacent points accepts exactly the curves that are safe as a whole. */
  lemma ValidationIsExact(channel: Channel, curve: TemperatureCurve)
    ensures CurveVerdict(channel, curve, 0).Accepted? <==> CurveIsSafe(channel, curve)
  {
    CurveVerdictFrom(channel, curve, 0);
    if CurveVerdict(channel, curve, 0).Accepted? {
      forall k | 0 <= k < CURVE_POINT_COUNT
        ensures channel.MinDuty() <= curve[k] && (k > 0 ==> curve[k - 1] <= curve[k])
      {
        assert PointVerdict(channel, curve, k).Accepted?;
      }
      forall i, j | 0 <= i <= j < CURVE_POINT_COUNT ensures curve[i] <= curve[j] {
        AdjacentSteps(curve, i, j);
      }
    }
  }

  /** A refusal is of the first point that is below the floor or below the point before it, and of the floor
      where both are so; it carries that point's own values. */
  lemma {:induction false} TheFirstOffenceIsNamed(channel: Channel, curve: TemperatureCurve, index: nat, bad: PointIndex)
    requires index <= bad
    requires forall k :: index <= k < bad ==>
      channel.MinDuty() <= curve[k] && (k > 0 ==> curve[k - 1] <= curve[k])
    requires curve[bad] < channel.MinDuty() || (bad > 0 && curve[bad] < curve[bad - 1])
    ensures CurveVerdict(channel, curve, index) == Refused(
      if curve[bad] < channel.MinDuty()
      then CurveDutyOutOfRange(channel, TemperatureAt(bad), curve[bad], channel.MinDuty(), MAX_DUTY)
      else CurveNotMonotonic(channel, curve[bad - 1], TemperatureAt(bad - 1), curve[bad], TemperatureAt(bad)))
    decreases bad - index
  {
    if index < bad {
      TheFirstOffenceIsNamed(channel, curve, index + 1, bad);
    }
  }

  /** The validation loop, with the value of the point before it carried along. */
  method ValidateCurve(channel: Channel, curve: TemperatureCurve) returns (verdict: Verdict)
    ensures verdict == CurveVerdict(channel, curve, 0)
    ensures verdict.Accepted? <==> CurveIsSafe(channel, curve)
  {
    ValidationIsExact(channel, curve);
    var min := channel.MinDuty();
    var previous: Option<(byte, nat)> := None;
    for index := 0 to CURVE_POINT_COUNT
      invariant previous == if index == 0 then None else Some((curve[index - 1], TemperatureAt(index - 1)))
      invariant CurveVerdict(channel, curve, 0) == CurveVerdict(channel, curve, index)
    {
      var value := curve[index];
      if value < min {
        return Refused(CurveDutyOutOfRange(channel, TemperatureAt(index), value, min, MAX_DUTY));
      }
      if previous.Some? && value < previous.value.0 {
        return Refused(CurveNotMonotonic(channel, previous.value.0, previous.value.1,
                                         value, TemperatureAt(index)));
      }
      previous := Some((value, TemperatureAt(index)));
    }
    return Accepted;
  }

  function ValidateProgram(program: Program): Verdict {
    match program
    case Onboard => Accepted
    case Fixed(pump, fan) =>
      if ValidateDuty(Pump, pump).Refused? then ValidateDuty(Pump, pump) else ValidateDuty(Fan, fan)
    case Curve(pump, fan) =>
      if CurveVerdict(Pump, pump, 0).Refused? then CurveVerdict(Pump, pump, 0) else CurveVerdict(Fan, fan, 0)
  }

  /** No value of a safe program may stop or starve the pump. */
  ghost predicate ProgramIsSafe(program: Program) {
    match program
    case Onboard => true
    case Fixed(pump, fan) => MIN_PUMP_DUTY <= pump
    case Curve(pump, fan) => CurveIsSafe(Pump, pump) && CurveIsSafe(Fan, fan)
  }

  lemma ProgramValidationIsExact(program: Program)
    ensures ValidateProgram(program).Accepted? <==> ProgramIsSafe(program)
  {
    if program.Curve? {
      ValidationIsExact(Pump, program.pumpCurve);
      ValidationIsExact(Fan, program.fanCurve);
    }
  }

  /** A refused program is refused for its pump where that is at fault, and for its fan only where it is not; a constant
      fan duty never is. */
  lemma TheRefusalIsThePumpsFirst(program: Program)
    ensures match program
      case Onboard => ValidateProgram(program) == Accepted
      case Fixed(pump, _) =>
        ValidateProgram(program) ==
          if pump < MIN_PUMP_DUTY then Refused(DutyOutOfRange(Pump, pump, MIN_PUMP_DUTY, MAX_DUTY)) else Accepted
      case Curve(pump, fan) =>
        ValidateProgram(program) ==
          if CurveIsSafe(Pump, pump) then CurveVerdict(Fan, fan, 0) else CurveVerdict(Pump, pump, 0)
  {
    if program.Curve? {
      ValidationIsExact(Pump, program.pumpCurve);
    }
  }
}
