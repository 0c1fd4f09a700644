/** A value between a minimum and a maximum driven by an input axis: the
    input accelerates it, and with no input it is pulled back towards a
    default value and snaps onto it once close enough. */
module Lerping {
  import opened UnityMath
  import opened Wrappers

  /** The changing part: acceleration, velocity and value. */
  datatype Motion = Motion(accel: real, velocity: real, value: real)

  /** The settings `Update` reads and never writes. */
  datatype Settings = Settings(
    minValue: real, maxValue: real, defaultValue: real,
    snapDist: real, inputAccelScale: real, restAccelScale: real)

  /** The acceleration: input times its scale, or, when that is zero, the
      pull towards the default. */
  function Acceleration(m: Motion, s: Settings, input: real): real {
    var a := Product(input, s.inputAccelScale);
    if a == 0.0 then Product(s.restAccelScale, s.defaultValue - m.value) else a
  }

  predicate OutOfRange(value: real, s: Settings) {
    value < s.minValue || value > s.maxValue
  }

  /** The velocity after one step: it grows by dt times the acceleration and
      is cancelled when the value is out of range and it does not point
      towards the default (in the sense of Mathf.Sign, where 0 counts as
      positive). */
  function StepVelocity(m: Motion, s: Settings, dt: real, input: real): real {
    var v := m.velocity + Product(dt, Acceleration(m, s, input));
    if OutOfRange(m.value, s) && Sign(v) != Sign(s.defaultValue - m.value) then 0.0 else v
  }

  /** Whether the value may take its step: the candidate stays in range, or
      the input points towards the default. */
  predicate MayMove(m: Motion, s: Settings, dt: real, input: real) {
    var candidate := m.value + Product(dt, StepVelocity(m, s, dt, input));
    (s.minValue <= candidate <= s.maxValue) || Sign(input) == Sign(s.defaultValue - m.value)
  }

  /** One `Update(dt, input)`, before and after the snap to the default.
      The value stays, moves by dt times the new velocity, or snaps to the
      default; out of range the velocity never points away from the
      default; an input pushing away from the default never takes an
      in-range value out of range; and with no input the value ends either
      on the default at rest or outside the snap distance. */
  function Step(m: Motion, s: Settings, dt: real, input: real): (r: Motion)
    ensures r.accel == Acceleration(m, s, input)
    ensures r.value == m.value || r.value == m.value + Product(dt, r.velocity) || r.value == s.defaultValue
    ensures OutOfRange(m.value, s) ==> r.velocity == 0.0 || Sign(r.velocity) == Sign(s.defaultValue - m.value)
    ensures s.minValue <= m.value <= s.maxValue && s.minValue <= s.defaultValue <= s.maxValue &&
            Sign(input) != Sign(s.defaultValue - m.value) ==>
              s.minValue <= r.value <= s.maxValue
    ensures input == 0.0 ==>
              (r.value == s.defaultValue && r.velocity == 0.0) || Abs(r.value - s.defaultValue) >= s.snapDist
  {
    var v := StepVelocity(m, s, dt, input);
    var value := if MayMove(m, s, dt, input) then m.value + Product(dt, v) else m.value;
    if input == 0.0 && Abs(value - s.defaultValue) < s.snapDist
    then Motion(Acceleration(m, s, input), 0.0, s.defaultValue)
    else Motion(Acceleration(m, s, input), v, value)
  }

  /** With no input, a value that ends the step within the snap distance of
      the default is put exactly on it, at rest. */
  lemma RestSnapsToDefault(m: Motion, s: Settings, dt: real)
    requires var v := StepVelocity(m, s, dt, 0.0);
             var value := if MayMove(m, s, dt, 0.0) then m.value + Product(dt, v) else m.value;
             Abs(value - s.defaultValue) < s.snapDist
    ensures Step(m, s, dt, 0.0).value == s.defaultValue && Step(m, s, dt, 0.0).velocity == 0.0
  {
  }

  /** With no input and the value at the default, the step leaves it there
      whenever the snap distance is positive. */
  lemma DefaultIsAtRest(m: Motion, s: Settings, dt: real)
    requires m.value == s.defaultValue && m.velocity == 0.0 && s.snapDist > 0.0
    ensures Step(m, s, dt, 0.0) == Motion(0.0, 0.0, s.defaultValue)
  {
    assert Product(s.restAccelScale, s.defaultValue - m.value) == 0.0;
    assert Product(dt, 0.0) == 0.0;
  }

  /** With no input, Mathf.Sign(0) == 1 lets a value at or below the default
      step past the maximum: here the value starts at the default, which is
      the maximum, with a positive velocity left from earlier input. */
  lemma RestCanOvershootMaximum()
    ensures var s := Settings(0.0, 1.0, 1.0, 0.0, 1.0, 1.0);
            var m := Motion(0.0, 1.0, 1.0);
            Step(m, s, 1.0, 0.0).value == 2.0
  {
    var s := Settings(0.0, 1.0, 1.0, 0.0, 1.0, 1.0);
    var m := Motion(0.0, 1.0, 1.0);
    assert Acceleration(m, s, 0.0) == 0.0;
    assert StepVelocity(m, s, 1.0, 0.0) == 1.0;
    assert MayMove(m, s, 1.0, 0.0);
  }

  class ControlledLerp {
    var currentAccel: real
    var currentVelocity: real
    var currentValue: real
    var minValue: real
    var maxValue: real
    var defaultValue: real
    var defaultValueSnapDist: real
    var inputAccelScale: real
    var restAccelScale: real

    function CurrentMotion(): Motion
      reads this
    {
      Motion(currentAccel, currentVelocity, currentValue)
    }

    function CurrentSettings(): Settings
      reads this
    {
      Settings(minValue, maxValue, defaultValue, defaultValueSnapDist, inputAccelScale, restAccelScale)
    }

    /** The constructor: a missing (NaN) default becomes the midpoint of the
        range; the value starts at the default, at rest. The snap distance
        is not set, so it keeps the field default of zero. */
    constructor (inputAccel: real, restAccel: real, min: real, max: real, defaultVal: Option<real>)
      ensures minValue == min && maxValue == max
      ensures defaultValue == if defaultVal.Some? then defaultVal.value else (min + max) * 0.5
      ensures currentValue == defaultValue && currentAccel == 0.0 && currentVelocity == 0.0
      ensures inputAccelScale == inputAccel && restAccelScale == restAccel
      ensures defaultValueSnapDist == 0.0
    {
      var d := if defaultVal.Some? then defaultVal.value else (min + max) * 0.5;
      minValue := min;
      maxValue := max;
      defaultValue := d;
      currentValue := d;
      currentAccel := 0.0;
      currentVelocity := 0.0;
      inputAccelScale := inputAccel;
      restAccelScale := restAccel;
      defaultValueSnapDist := 0.0;
    }

    /** `Update(elapsedTime, input)`: the fields are rewritten in sequence
        (acceleration, velocity, value, snap) and the settings stay. */
    method Update(elapsedTime: real, input: real)
      modifies this
      ensures CurrentMotion() == Step(old(CurrentMotion()), old(CurrentSettings()), elapsedTime, input)
      ensures CurrentSettings() == old(CurrentSettings())
    {
      ghost var m, s := CurrentMotion(), CurrentSettings();
      currentAccel := Product(input, inputAccelScale);
      if currentAccel == 0.0 {
        currentAccel := Product(restAccelScale, defaultValue - currentValue);
      }
      currentVelocity := currentVelocity + Product(elapsedTime, currentAccel);
      if (currentValue < minValue || currentValue > maxValue) &&
         Sign(currentVelocity) != Sign(defaultValue - currentValue) {
        currentVelocity := 0.0;
      }
      assert currentVelocity == StepVelocity(m, s, elapsedTime, input);
      var newValue := currentValue + Product(elapsedTime, currentVelocity);
      if (newValue >= minValue && newValue <= maxValue) ||
         Sign(input) == Sign(defaultValue - currentValue) {
        currentValue := newValue;
      }
      if input == 0.0 && Abs(currentValue - defaultValue) < defaultValueSnapDist {
        currentValue := defaultValue;
        currentVelocity := 0.0;
      }
    }
  }
}
