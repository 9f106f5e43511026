// rocketflightsim/flight_sim_parachute.py: descent under a deployed
// parachute, whose drag acts against the motion relative to the air, after
// an optional coast that delays deployment.
module ParachuteDescent {
  import opened Base
  import opened StateVectors
  import opened Aerodynamics
  import opened RocketModel
  import opened Descriptors
  import Coast

  /** `stop_condition` of `sim_parachute`: 'landed', 'below_altitude',
      'after_delay', or any other string. */
  datatype DescentStop = Landed | BelowAltitude | AfterDelay | Unrecognised

  /** `continue_while()` on the current state; `t0` is the time of the state
      the caller passed in, also when a coast ran first. */
  predicate Continues(stop: DescentStop, value: real, t0: real, s: State)
    requires |s| >= 7
  {
    match stop
    case Landed => s[Z] >= 0.0
    case BelowAltitude => s[Z] >= value
    case AfterDelay => s[T] - t0 <= value
    case Unrecognised => false
  }

  /** Which deployment gates a parachute sets; Python treats an absent gate
      (None) and a zero one alike. */
  datatype Gate = NoGate | AltitudeOnly | DelayOnly | BothGates

  function GateOf(chute: Parachute): (g: Gate)
    ensures g == NoGate <==> chute.deployAltitude == 0.0 && chute.deployDelay == 0.0
    ensures g == AltitudeOnly <==> chute.deployAltitude != 0.0 && chute.deployDelay == 0.0
    ensures g == DelayOnly <==> chute.deployAltitude == 0.0 && chute.deployDelay != 0.0
    ensures g == BothGates <==> chute.deployAltitude != 0.0 && chute.deployDelay != 0.0
  {
    if chute.deployAltitude == 0.0 then (if chute.deployDelay == 0.0 then NoGate else DelayOnly)
    else (if chute.deployDelay == 0.0 then AltitudeOnly else BothGates)
  }

  // ---------------------------------------------------------------------------
  // One step of the descent

  /** Lines 107-117: the parachute's drag `q * Cd_A`, resolved along the unit
      vector of the velocity relative to the full wind, over the dry mass,
      plus gravity on z. A zero airspeed divides by zero as numpy does. */
  function DescentAcceleration(m: Math, rocket: Rocket, env: Environment, chute: Parachute, s: State)
    : (a: seq<real>)
    requires |s| >= 7
    ensures |a| == 3
  {
    Resisted(m, ChuteDrag(m, env, chute, s), s[VX] - WindX(m, env), s[VY] - WindY(m, env), s[VZ],
             DescentAirspeed(m, env, s), rocket.dryMass, env.localGravity)
  }

  /** The airspeed relative to the full wind. */
  function DescentAirspeed(m: Math, env: Environment, s: State): real
    requires |s| >= 7
  {
    AttitudeOf(m, s[VX], s[VY], s[VZ], WindX(m, env), WindY(m, env)).airspeed
  }

  /** `F_drag = q * Cd_A` of the parachute. */
  function ChuteDrag(m: Math, env: Environment, chute: Parachute, s: State): real
    requires |s| >= 7
  {
    DynamicPressureAt(m, env, s[Z], DescentAirspeed(m, env, s)) * chute.cdA
  }

  /** A drag force along the relative velocity (rx, ry, rz) of length
      airspeed, over a mass, with gravity g on z. */
  function Resisted(m: Math, drag: real, rx: real, ry: real, rz: real, airspeed: real, mass: real, g: real)
    : seq<real>
  {
    [Quot(m, -(drag * Quot(m, rx, airspeed)), mass),
     Quot(m, -(drag * Quot(m, ry, airspeed)), mass),
     Quot(m, -(drag * Quot(m, rz, airspeed)), mass) - g]
  }

  /** An acceleration component a points against a relative-velocity
      component r: never the same strict sign. */
  predicate Against(a: real, r: real)
  {
    (r > 0.0 ==> a <= 0.0) && (r < 0.0 ==> a >= 0.0)
  }

  /** A drag component against a relative-velocity component r, for a
      non-negative force and positive airspeed and mass. */
  lemma Opposed(drag: real, r: real, airspeed: real, mass: real)
    requires drag >= 0.0 && airspeed > 0.0 && mass > 0.0
    ensures Against(-(drag * (r / airspeed)) / mass, r)
  {
    if r > 0.0 {
      assert r / airspeed > 0.0;
      assert drag * (r / airspeed) >= 0.0;
    } else if r < 0.0 {
      assert r / airspeed < 0.0;
      assert drag * (r / airspeed) <= 0.0;
    }
  }

  lemma SqZero(x: real)
    ensures Sq(x) == 0.0 ==> x == 0.0
  {
    if x != 0.0 {
      DivOf(x * x, x, x);
      assert Sq(x) == x * x;
    }
  }

  lemma ProductNonNegative(x: real, y: real)
    requires x >= 0.0 && y >= 0.0
    ensures x * y >= 0.0
  {
  }

  /** Zero airspeed under a true square root means no relative motion. */
  lemma StillAir(m: Math, vx: real, vy: real, vz: real, wx: real, wy: real)
    requires TrueSqrt(m) && AttitudeOf(m, vx, vy, vz, wx, wy).airspeed == 0.0
    ensures vx == wx && vy == wy && vz == 0.0
  {
    var total := Sq(vx - wx) + Sq(vy - wy) + Sq(vz);
    assert Sq(vx - wx) >= 0.0 && Sq(vy - wy) >= 0.0 && Sq(vz) >= 0.0;
    assert m.sqrt(total) * m.sqrt(total) == total;
    assert Sq(vx - wx) == 0.0 && Sq(vy - wy) == 0.0 && Sq(vz) == 0.0;
    SqZero(vx - wx);
    SqZero(vy - wy);
    SqZero(vz);
  }

  /** The parachute's drag never points along the motion relative to the air:
      on each axis the acceleration, less gravity on z, and the relative
      velocity have opposite signs or one of them is zero (the docstring's
      "acts in the opposite direction of the rocket's motion relative to the
      air"). */
  lemma DragOpposesAirspeed(m: Math, rocket: Rocket, env: Environment, chute: Parachute, s: State)
    requires |s| >= 7 && TrueSqrt(m) && rocket.dryMass > 0.0 && chute.cdA >= 0.0
    requires DynamicPressureAt(m, env, s[Z], DescentAirspeed(m, env, s)) >= 0.0
    ensures Against(DescentAcceleration(m, rocket, env, chute, s)[0], s[VX] - WindX(m, env))
    ensures Against(DescentAcceleration(m, rocket, env, chute, s)[1], s[VY] - WindY(m, env))
    ensures Against(DescentAcceleration(m, rocket, env, chute, s)[2] + env.localGravity, s[VZ])
  {
    AirspeedNonNegative(m, s[VX], s[VY], s[VZ], WindX(m, env), WindY(m, env));
    ProductNonNegative(DynamicPressureAt(m, env, s[Z], DescentAirspeed(m, env, s)), chute.cdA);
    if DescentAirspeed(m, env, s) == 0.0 {
      StillAir(m, s[VX], s[VY], s[VZ], WindX(m, env), WindY(m, env));
    }
    DescentOpposed(m, rocket, env, chute, s);
  }

  /** The sign argument of the above once the airspeed is known to be
      non-negative and zero only in still air. */
  lemma DescentOpposed(m: Math, rocket: Rocket, env: Environment, chute: Parachute, s: State)
    requires |s| >= 7 && rocket.dryMass > 0.0 && ChuteDrag(m, env, chute, s) >= 0.0
    requires DescentAirspeed(m, env, s) >= 0.0
    requires DescentAirspeed(m, env, s) == 0.0 ==> s[VX] == WindX(m, env) && s[VY] == WindY(m, env) && s[VZ] == 0.0
    ensures Against(DescentAcceleration(m, rocket, env, chute, s)[0], s[VX] - WindX(m, env))
    ensures Against(DescentAcceleration(m, rocket, env, chute, s)[1], s[VY] - WindY(m, env))
    ensures Against(DescentAcceleration(m, rocket, env, chute, s)[2] + env.localGravity, s[VZ])
  {
    AllAxesOpposed(m, ChuteDrag(m, env, chute, s), s[VX] - WindX(m, env), s[VY] - WindY(m, env), s[VZ],
                   DescentAirspeed(m, env, s), rocket.dryMass, env.localGravity);
  }

  lemma AllAxesOpposed(m: Math, drag: real, rx: real, ry: real, rz: real, airspeed: real, mass: real, g: real)
    requires drag >= 0.0 && airspeed >= 0.0 && mass > 0.0
    requires airspeed == 0.0 ==> rx == 0.0 && ry == 0.0 && rz == 0.0
    ensures Against(Resisted(m, drag, rx, ry, rz, airspeed, mass, g)[0], rx)
    ensures Against(Resisted(m, drag, rx, ry, rz, airspeed, mass, g)[1], ry)
    ensures Against(Resisted(m, drag, rx, ry, rz, airspeed, mass, g)[2] + g, rz)
  {
    AxisOpposed(m, drag, rx, airspeed, mass);
    AxisOpposed(m, drag, ry, airspeed, mass);
    AxisOpposed(m, drag, rz, airspeed, mass);
  }

  /** One axis of the above: the drag share `-F * (r / airspeed) / mass`
      against the relative-velocity component r. */
  lemma AxisOpposed(m: Math, drag: real, r: real, airspeed: real, mass: real)
    requires drag >= 0.0 && airspeed >= 0.0 && mass > 0.0 && (airspeed == 0.0 ==> r == 0.0)
    ensures Against(Quot(m, -(drag * Quot(m, r, airspeed)), mass), r)
  {
    if airspeed != 0.0 {
      Opposed(drag, r, airspeed, mass);
    }
  }

  /** One pass of the loop body (lines 105-149). */
  function DescentNext(m: Math, rocket: Rocket, env: Environment, chute: Parachute, dt: real, s: State): (r: State)
    requires |s| >= 7
    ensures |r| == 10 && r[T] == s[T] + dt
  {
    Advance(s, DescentAcceleration(m, rocket, env, chute, s), dt)
  }

  function DescentStep(m: Math, rocket: Rocket, env: Environment, chute: Parachute, dt: real): Step
  {
    (s: State, k: nat) => if |s| < 7 then Err(IndexOutOfRange) else Ok(DescentNext(m, rocket, env, chute, dt, s))
  }

  lemma DescentStepIs(m: Math, rocket: Rocket, env: Environment, chute: Parachute, dt: real, s: State, k: nat)
    requires |s| >= 7
    ensures DescentStep(m, rocket, env, chute, dt)(s, k) == Ok(DescentNext(m, rocket, env, chute, dt, s))
  {
  }

  // ---------------------------------------------------------------------------
  // The descent loop

  /** Every step started from a state where `continue_while()` held. */
  ghost predicate Continued(stop: DescentStop, value: real, t0: real, start: State, raw: seq<State>)
  {
    forall k :: 0 <= k < |raw| ==>
      |Before(start, raw, k)| >= 7 && Continues(stop, value, t0, Before(start, raw, k))
  }

  ghost predicate DescentProgress(step: Step, stop: DescentStop, value: real, t0: real, dt: real,
                                  start: State, raw: seq<State>, s: State)
  {
    |start| >= 7 && |s| >= 7 && s == Before(start, raw, |raw|) &&
    Stepped(step, start, raw) && Timed(start[T], dt, raw) && Continued(stop, value, t0, start, raw)
  }

  lemma ContinuedExtend(stop: DescentStop, value: real, t0: real, start: State, raw: seq<State>, next: State)
    requires Continued(stop, value, t0, start, raw)
    requires |Before(start, raw, |raw|)| >= 7 && Continues(stop, value, t0, Before(start, raw, |raw|))
    ensures Continued(stop, value, t0, start, raw + [next])
  {
    var raw' := raw + [next];
    forall k | 0 <= k < |raw'|
      ensures |Before(start, raw', k)| >= 7 && Continues(stop, value, t0, Before(start, raw', k))
    {
      if k < |raw| {
        assert Before(start, raw', k) == Before(start, raw, k);
      }
    }
  }

  /** One more pass of the loop body from a state where the descent continues. */
  lemma DescentProgressStep(step: Step, stop: DescentStop, value: real, t0: real, dt: real,
                            start: State, raw: seq<State>, s: State, next: State)
    requires DescentProgress(step, stop, value, t0, dt, start, raw, s)
    requires Continues(stop, value, t0, s) && step(s, |raw|) == Ok(next)
    requires |next| == 10 && next[T] == s[T] + dt
    ensures DescentProgress(step, stop, value, t0, dt, start, raw + [next], next)
  {
    SteppedExtend(step, start, raw, next);
    TimedExtend(dt, start, raw, next);
    ContinuedExtend(stop, value, t0, start, raw, next);
    assert Before(start, raw + [next], |raw| + 1) == next;
  }

  /** Lines 105-149, bounded by maxSteps. */
  method DescentLoop(m: Math, rocket: Rocket, env: Environment, chute: Parachute, dt: real,
                     stop: DescentStop, value: real, t0: real, start: State, maxSteps: nat)
    returns (raw: seq<State>, last: State)
    requires |start| >= 7
    ensures DescentProgress(DescentStep(m, rocket, env, chute, dt), stop, value, t0, dt, start, raw, last)
    ensures |raw| <= maxSteps && (!Continues(stop, value, t0, last) || |raw| == maxSteps)
  {
    var step := DescentStep(m, rocket, env, chute, dt);
    raw := [];
    last := start;
    while Continues(stop, value, t0, last) && |raw| < maxSteps
      invariant DescentProgress(step, stop, value, t0, dt, start, raw, last) && |raw| <= maxSteps
      decreases maxSteps - |raw|
    {
      var next := DescentNext(m, rocket, env, chute, dt, last);
      DescentStepIs(m, rocket, env, chute, dt, last, |raw|);
      DescentProgressStep(step, stop, value, t0, dt, start, raw, last, next);
      raw := raw + [next];
      last := next;
    }
  }

  // ---------------------------------------------------------------------------
  // sim_parachute

  /** A successful coast ends in a full ten-component state, which the
      descent unpacks with `[:7]`. */
  lemma CoastEnd(stop: Coast.StopCondition, value: real, t0: real, dt: real, coastRaw: seq<State>)
    requires dt > 0.0 && !stop.Unrecognised? && Timed(t0, dt, coastRaw) && Coast.StopsAtLast(stop, value, t0, coastRaw)
    ensures |Coast.Interpolate(stop, value, t0, dt, coastRaw)| >= 1
    ensures |Coast.Interpolate(stop, value, t0, dt, coastRaw)[|coastRaw| - 1]| == 10
  {
  }

  /** `sim_parachute`: descent from the initial state, or from the end of a
      coast that delays deployment, while `continue_while()` holds. The
      result is the coast's states, if any, followed by the descent's. The
      source's loop is unbounded; here at most maxSteps steps are taken, by
      the coast and by the descent each. */
  method SimParachute(m: Math, rocket: Rocket, env: Environment, init: State, chute: Parachute,
                      maxSteps: nat, stop: DescentStop := Landed, value: real := 0.0,
                      dt: real := DEFAULT_TIMESTEP * 2.0)
    returns (r: Result<seq<State>>, ghost prefix: seq<State>, ghost coastRaw: seq<State>,
             ghost start: State, ghost raw: seq<State>)
    ensures GateOf(chute) == NoGate && |init| != 7 ==> r == Err(UnpackMismatch)
    ensures GateOf(chute) == AltitudeOnly || GateOf(chute) == BothGates ==> r == Err(UnboundVariable)
    ensures GateOf(chute) == DelayOnly && |init| < 7 ==> r == Err(IndexOutOfRange)
    ensures GateOf(chute) == DelayOnly && |init| >= 7 ==>
              (Coast.StopMet(Coast.AfterDelay, chute.deployDelay, init[T], init) ==> r == Err(StopConditionAlreadyMet))
    ensures GateOf(chute) == NoGate && |init| == 7 && stop.Unrecognised? ==> r == Err(InvalidStopCondition)
    ensures stop.Unrecognised? ==> r.Err?
    ensures r.Ok? || (r == Err(StepLimit) && !(GateOf(chute) == DelayOnly && prefix == [])) ==>
              |init| >= 7 && |start| >= 7 &&
              (GateOf(chute) == NoGate ==> prefix == [] && start == init) &&
              (GateOf(chute) == DelayOnly ==>
                 Stepped(Coast.CoastStep(m, rocket, env, DEFAULT_TIMESTEP), init, coastRaw) &&
                 Timed(init[T], DEFAULT_TIMESTEP, coastRaw) &&
                 Coast.StopsAtLast(Coast.AfterDelay, chute.deployDelay, init[T], coastRaw) &&
                 prefix == Coast.Interpolate(Coast.AfterDelay, chute.deployDelay, init[T], DEFAULT_TIMESTEP, coastRaw) &&
                 |prefix| >= 1 && |prefix[|prefix| - 1]| >= 7 && start == prefix[|prefix| - 1][..7]) &&
              |raw| <= maxSteps && Stepped(DescentStep(m, rocket, env, chute, dt), start, raw) &&
              Timed(start[T], dt, raw) && Continued(stop, value, init[T], start, raw)
    ensures r.Ok? ==>
              !stop.Unrecognised? && r.value == prefix + raw && !Continues(stop, value, init[T], Before(start, raw, |raw|))
    ensures r == Err(StepLimit) ==>
              (GateOf(chute) == DelayOnly && prefix == [] && raw == []) ||
              (|raw| == maxSteps && |Before(start, raw, |raw|)| >= 7 &&
               Continues(stop, value, init[T], Before(start, raw, |raw|)))
  {
    prefix, coastRaw, start, raw := [], [], init, [];
    var gate := GateOf(chute);
    if gate == AltitudeOnly || gate == BothGates {
      return Err(UnboundVariable), prefix, coastRaw, start, raw;
    }
    if gate == NoGate && |init| != 7 {
      return Err(UnpackMismatch), prefix, coastRaw, start, raw;
    }
    var coasted: seq<State> := [];
    var begin := init;
    if gate == DelayOnly {
      var c, cr := Coast.SimCoast(m, rocket, env, init, maxSteps, Coast.AfterDelay, chute.deployDelay);
      coastRaw := cr;
      if c.Err? {
        return Err(c.error), prefix, coastRaw, start, raw;
      }
      CoastEnd(Coast.AfterDelay, chute.deployDelay, init[T], DEFAULT_TIMESTEP, coastRaw);
      coasted := c.value;
      begin := coasted[|coasted| - 1][..7];
    }
    prefix, start := coasted, begin;
    if stop.Unrecognised? {
      return Err(InvalidStopCondition), prefix, coastRaw, start, raw;
    }
    var descent, last := DescentLoop(m, rocket, env, chute, dt, stop, value, init[T], begin, maxSteps);
    raw := descent;
    if Continues(stop, value, init[T], last) {
      return Err(StepLimit), prefix, coastRaw, start, raw;
    }
    r := Ok(coasted + descent);
  }
}
