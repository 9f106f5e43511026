// rocketflightsim/flight_sim_unguided_boost.py: powered flight from rail
// clearance to motor burnout, stepped while the time is before burnout, with
// the last state replaced by the interpolated state at burnout itself.
module UnguidedBoost {
  import opened Base
  import opened Dict
  import opened HelperFunctions
  import opened StateVectors
  import opened Aerodynamics
  import opened MotorModel
  import opened RocketModel
  import opened Descriptors

  /** The share of the wind the boost phase feels (lines 57 and 93). */
  const BOOST_WIND_FACTOR: real := 0.2

  /** The acceleration in one pass of the loop body (lines 67-92): drag with
      a fifth of the wind, the mass and thrust looked up at the current time,
      and their net force resolved along the attitude. A failed lookup is the
      loop's exception. */
  function BoostAcceleration(m: Math, rocket: Rocket, env: Environment, thrustCurve: Table, s: State)
    : (r: Result<seq<real>>)
    requires |s| >= 7
    ensures r.Ok? ==> |r.value| == 3
    ensures r.Err? ==> r.error == EmptySequence
  {
    var att := AttitudeOf(m, s[VX], s[VY], s[VZ], BOOST_WIND_FACTOR * WindX(m, env), BOOST_WIND_FACTOR * WindY(m, env));
    var drag := RocketDrag(m, rocket, env, s[Z], att.airspeed);
    match MassAtTime(s[T], rocket.dryMass, rocket.motor.fuelMassCurve)
    case Err(e) => Err(e)
    case Ok(mass) =>
      match ThrustAtTime(s[T], thrustCurve)
      case Err(e) => Err(e)
      case Ok(thrust) => Ok(Resolved(m, thrust - drag, att, mass, env.localGravity))
  }

  /** One pass of the loop body (lines 65-113): the acceleration, then an
      Euler step. */
  function BoostNext(m: Math, rocket: Rocket, env: Environment, thrustCurve: Table, dt: real, s: State): (r: Result<State>)
    requires |s| >= 7
    ensures r.Ok? ==> |r.value| == 10 && r.value[T] == s[T] + dt
    ensures r.Err? ==> r.error == EmptySequence
  {
    match BoostAcceleration(m, rocket, env, thrustCurve, s)
    case Err(e) => Err(e)
    case Ok(a) => Ok(Advance(s, a, dt))
  }

  /** The boost step; a state too short to unpack raises IndexError. */
  function BoostStep(m: Math, rocket: Rocket, env: Environment, thrustCurve: Table, dt: real): Step
  {
    (s: State, k: nat) => if |s| < 7 then Err(IndexOutOfRange) else BoostNext(m, rocket, env, thrustCurve, dt, s)
  }

  lemma BoostStepIs(m: Math, rocket: Rocket, env: Environment, thrustCurve: Table, dt: real, s: State, k: nat)
    requires |s| >= 7
    ensures BoostStep(m, rocket, env, thrustCurve, dt)(s, k) == BoostNext(m, rocket, env, thrustCurve, dt, s)
  {
  }

  /** Lines 116-129: the last raw state is replaced by the interpolation at
      the burnout time, which the stored state then has exactly; every
      component lies between the last two raw values. */
  function InterpolateBurnout(burnout: real, raw: seq<State>): (r: seq<State>)
    requires |raw| >= 2 && |raw[|raw| - 2]| == |raw[|raw| - 1]| == 10
    requires raw[|raw| - 2][T] < burnout <= raw[|raw| - 1][T]
    ensures |r| == |raw| && r[..|raw| - 1] == raw[..|raw| - 1]
    ensures |r[|raw| - 1]| == 10 && r[|raw| - 1][T] == burnout
    ensures Bracketed(raw[|raw| - 2], raw[|raw| - 1], r[|raw| - 1])
  {
    var prev, last := raw[|raw| - 2], raw[|raw| - 1];
    CrossingExact(burnout, prev[T], last[T]);
    LerpBetween(prev, last, CrossingFraction(burnout, prev[T], last[T]));
    InterpolateLast(raw, CrossingFraction(burnout, prev[T], last[T]))
  }

  /** The number of whole steps of dt that fit before burnout. */
  function StepsLeft(burnout: real, t: real, dt: real): int
    requires dt > 0.0
  {
    ((burnout - t) / dt).Floor
  }

  /** Before burnout some steps are left, and one step of dt uses one up. */
  lemma StepsLeftDecrease(burnout: real, t: real, t': real, dt: real)
    requires dt > 0.0 && t < burnout && t' == t + dt
    ensures 0 <= StepsLeft(burnout, t, dt) && StepsLeft(burnout, t', dt) < StepsLeft(burnout, t, dt)
  {
    var x := (burnout - t) / dt;
    assert x > 0.0;
    DivOf(burnout - t', dt, x - 1.0);
  }

  /** What the loop of `sim_unguided_boost` knows at the top of each iteration. */
  ghost predicate BoostProgress(m: Math, rocket: Rocket, env: Environment, thrustCurve: Table, dt: real,
                                burnout: real, init: State, states: seq<State>, s: State)
  {
    |init| >= 7 && |s| >= 7 && s == Before(init, states, |states|) &&
    Stepped(BoostStep(m, rocket, env, thrustCurve, dt), init, states) && Timed(init[T], dt, states) &&
    (|states| >= 2 ==> states[|states| - 2][T] < burnout)
  }

  /** One more pass of the loop body from a state before burnout whose step
      succeeded. */
  lemma BoostProgressStep(m: Math, rocket: Rocket, env: Environment, thrustCurve: Table, dt: real,
                          burnout: real, init: State, states: seq<State>, s: State, next: State)
    requires BoostProgress(m, rocket, env, thrustCurve, dt, burnout, init, states, s)
    requires s[T] < burnout && BoostNext(m, rocket, env, thrustCurve, dt, s) == Ok(next)
    ensures BoostProgress(m, rocket, env, thrustCurve, dt, burnout, init, states + [next], next)
  {
    var states' := states + [next];
    if states != [] {
      assert states'[|states'| - 2] == s;
    }
    var step := BoostStep(m, rocket, env, thrustCurve, dt);
    assert step(s, |states|) == Ok(next);
    SteppedExtend(step, init, states, next);
    TimedExtend(dt, init, states, next);
    assert states'[..|states|] == states;
  }

  /** Lines 65-113: the loop of `sim_unguided_boost`; `last` is the state it
      stopped at, and `failure` the error of the step that failed there. */
  method BoostLoop(m: Math, rocket: Rocket, env: Environment, thrustCurve: Table, dt: real,
                   burnout: real, init: State)
    returns (failure: Option<Error>, states: seq<State>, last: State)
    requires dt > 0.0 && |init| >= 7
    ensures BoostProgress(m, rocket, env, thrustCurve, dt, burnout, init, states, last)
    ensures failure.None? <==> last[T] >= burnout
    ensures failure.Some? ==> BoostNext(m, rocket, env, thrustCurve, dt, last) == Err(failure.value)
  {
    states := [];
    last := init;
    while last[T] < burnout
      invariant BoostProgress(m, rocket, env, thrustCurve, dt, burnout, init, states, last)
      decreases StepsLeft(burnout, last[T], dt)
    {
      var next := BoostNext(m, rocket, env, thrustCurve, dt, last);
      if next.Err? {
        return Some(next.error), states, last;
      }
      StepsLeftDecrease(burnout, last[T], next.value[T], dt);
      BoostProgressStep(m, rocket, env, thrustCurve, dt, burnout, init, states, last, next.value);
      states := states + [next.value];
      last := next.value;
    }
    return None, states, last;
  }

  /** `sim_unguided_boost`: steps from `init` while the time is before the
      motor's burn time, then interpolates the last state at burnout. */
  method SimUnguidedBoost(m: Math, rocket: Rocket, env: Environment, init: State, dt: real := DEFAULT_TIMESTEP)
    returns (r: Result<seq<State>>, ghost raw: seq<State>)
    requires dt > 0.0
    ensures |init| < 7 ==> r == Err(IndexOutOfRange)
    ensures r.Err? ==> r.error == IndexOutOfRange || r.error == EmptySequence
    ensures |init| >= 7 ==>
              Stepped(BoostStep(m, rocket, env, rocket.motor.thrustCurve, dt), init, raw) &&
              Timed(init[T], dt, raw)
    ensures |init| >= 7 && r == Err(EmptySequence) ==>
              Before(init, raw, |raw|)[T] < rocket.motor.burnTime &&
              BoostStep(m, rocket, env, rocket.motor.thrustCurve, dt)(Before(init, raw, |raw|), |raw|) == Err(EmptySequence)
    ensures |init| >= 7 && r == Err(IndexOutOfRange) ==>
              |raw| <= 1 && Before(init, raw, |raw|)[T] >= rocket.motor.burnTime
    ensures r.Ok? ==>
              |init| >= 7 && |raw| >= 2 &&
              raw[|raw| - 2][T] < rocket.motor.burnTime <= raw[|raw| - 1][T] &&
              r.value == InterpolateBurnout(rocket.motor.burnTime, raw)
  {
    raw := [];
    if |init| < 7 {
      return Err(IndexOutOfRange), raw;
    }
    var burnout := rocket.motor.burnTime;
    var failure, states, last := BoostLoop(m, rocket, env, rocket.motor.thrustCurve, dt, burnout, init);
    raw := states;
    if failure.Some? {
      BoostStepIs(m, rocket, env, rocket.motor.thrustCurve, dt, last, |states|);
      return Err(failure.value), raw;
    }
    if |states| < 2 {
      return Err(IndexOutOfRange), raw;
    }
    r := Ok(InterpolateBurnout(burnout, states));
  }
}
