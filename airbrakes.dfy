// rocketflightsim/flight_sim_airbrakes.py: coasting to apogee with airbrakes
// whose drag adds `q * sin(angle) * A_brakes * Cd_brakes` to the rocket's own.
// Three variants differ in how the deployment angle is chosen (as fast as
// allowed up to the maximum, as a function of height, as a function of time)
// and in the layout of their state tuples. None of them interpolates apogee:
// each steps while v_z > 0 and returns the raw states.
module AirbrakesFlight {
  import opened Base
  import opened StateVectors
  import opened Aerodynamics
  import opened RocketModel
  import opened Descriptors

  /** The deployment angle's component in the 11-tuples of the maximum and
      time variants. */
  const ANGLE: int := 10

  /** Only the first attitude, computed from the initial state, sees 0.2 of
      the wind (lines 67, 189, 308); every later one sees all of it. */
  const INITIAL_WIND_FACTOR: real := 0.2

  // ---------------------------------------------------------------------------
  // Forces shared by the three variants

  /** The attitude step k uses, from the velocity it starts with. */
  function StepAttitude(m: Math, env: Environment, k: nat, vx: real, vy: real, vz: real): Attitude
  {
    if k == 0 then
      AttitudeOf(m, vx, vy, vz, INITIAL_WIND_FACTOR * WindX(m, env), INITIAL_WIND_FACTOR * WindY(m, env))
    else
      AttitudeOf(m, vx, vy, vz, WindX(m, env), WindY(m, env))
  }

  /** `F_drag = q * (np.sin(deployment_angle) * A_Cd_brakes + Cd_A_rocket)` */
  function BrakedDrag(m: Math, rocket: Rocket, env: Environment, brakes: Airbrakes, z: real,
                      airspeed: real, angle: real): real
  {
    DynamicPressureAt(m, env, z, airspeed) *
      (m.sin(angle) * (brakes.aBrakes * brakes.cdBrakes) + RocketCdA(m, rocket, env, z, airspeed))
  }

  /** Retracted brakes (sin 0 = 0) leave only the rocket's own drag, and
      deployed brakes with a non-negative sine, area and drag coefficient
      never reduce it. */
  lemma BrakesOnlyAddDrag(m: Math, rocket: Rocket, env: Environment, brakes: Airbrakes, z: real,
                          airspeed: real, angle: real)
    requires m.sin(0.0) == 0.0
    ensures BrakedDrag(m, rocket, env, brakes, z, airspeed, 0.0) == RocketDrag(m, rocket, env, z, airspeed)
    ensures DynamicPressureAt(m, env, z, airspeed) >= 0.0 && m.sin(angle) >= 0.0 &&
            brakes.aBrakes >= 0.0 && brakes.cdBrakes >= 0.0 ==>
              BrakedDrag(m, rocket, env, brakes, z, airspeed, angle) >= RocketDrag(m, rocket, env, z, airspeed)
  {
    var q := DynamicPressureAt(m, env, z, airspeed);
    var extra := m.sin(angle) * (brakes.aBrakes * brakes.cdBrakes);
    assert BrakedDrag(m, rocket, env, brakes, z, airspeed, angle) ==
           q * extra + RocketDrag(m, rocket, env, z, airspeed);
    if q >= 0.0 && m.sin(angle) >= 0.0 && brakes.aBrakes >= 0.0 && brakes.cdBrakes >= 0.0 {
      assert brakes.aBrakes * brakes.cdBrakes >= 0.0;
      assert extra >= 0.0;
      assert q * extra >= 0.0;
    }
  }

  /** The acceleration of the dry rocket under braked drag and gravity. */
  function BrakedAcceleration(m: Math, rocket: Rocket, env: Environment, brakes: Airbrakes, k: nat,
                              z: real, vx: real, vy: real, vz: real, angle: real): (a: seq<real>)
    ensures |a| == 3
  {
    var att := StepAttitude(m, env, k, vx, vy, vz);
    Resolved(m, -BrakedDrag(m, rocket, env, brakes, z, att.airspeed, angle), att, rocket.dryMass,
             env.localGravity)
  }

  // ---------------------------------------------------------------------------
  // What every variant's loop keeps

  /** Every raw state has n components. */
  ghost predicate Width(raw: seq<State>, n: nat)
  {
    forall k :: 0 <= k < |raw| ==> |raw[k]| == n
  }

  /** Raw state k carries time t0 + (k + first) * dt. */
  ghost predicate TimesFrom(t0: real, dt: real, raw: seq<State>, first: nat)
  {
    forall k :: 0 <= k < |raw| ==> |raw[k]| >= 1 && raw[k][T] == t0 + (k + first) as real * dt
  }

  /** Every step started from a state still climbing (component vz positive). */
  ghost predicate Climbed(seed: State, raw: seq<State>, vz: nat)
  {
    forall k :: 0 <= k < |raw| ==> |Before(seed, raw, k)| > vz && Before(seed, raw, k)[vz] > 0.0
  }

  /** The loop's state at the top of an iteration: raw states so far and the
      current state s. */
  ghost predicate ClimbProgress(step: Step, init: State, dt: real, vz: nat, width: nat, first: nat,
                                states: seq<State>, s: State)
  {
    |init| > vz && width > vz && |s| > vz && s == Before(init, states, |states|) &&
    Stepped(step, init, states) && Width(states, width) &&
    TimesFrom(init[T], dt, states, first) && Climbed(init, states, vz)
  }

  lemma WidthExtend(raw: seq<State>, n: nat, next: State)
    requires Width(raw, n) && |next| == n
    ensures Width(raw + [next], n)
  {
    assert forall k :: 0 <= k < |raw| ==> (raw + [next])[k] == raw[k];
  }

  lemma TimesFromExtend(t0: real, dt: real, raw: seq<State>, first: nat, next: State)
    requires TimesFrom(t0, dt, raw, first)
    requires |next| >= 1 && next[T] == t0 + (|raw| + first) as real * dt
    ensures TimesFrom(t0, dt, raw + [next], first)
  {
    assert forall k :: 0 <= k < |raw| ==> (raw + [next])[k] == raw[k];
  }

  lemma ClimbedExtend(seed: State, raw: seq<State>, vz: nat, next: State)
    requires Climbed(seed, raw, vz)
    requires |Before(seed, raw, |raw|)| > vz && Before(seed, raw, |raw|)[vz] > 0.0
    ensures Climbed(seed, raw + [next], vz)
  {
    var raw' := raw + [next];
    forall k | 0 <= k < |raw'| ensures |Before(seed, raw', k)| > vz && Before(seed, raw', k)[vz] > 0.0 {
      if k < |raw| {
        assert Before(seed, raw', k) == Before(seed, raw, k);
      }
    }
  }

  /** One more pass of a loop body from a climbing state, whose step
      advances the time by dt (or, on the first step of a variant whose
      stored times start at the initial one, keeps it). */
  lemma ClimbProgressStep(step: Step, init: State, dt: real, vz: nat, width: nat, first: nat,
                          states: seq<State>, s: State, next: State)
    requires ClimbProgress(step, init, dt, vz, width, first, states, s)
    requires s[vz] > 0.0 && step(s, |states|) == Ok(next) && |next| == width
    requires first == 1 || first == 0
    requires first == 1 || states != [] ==> next[T] == s[T] + dt
    requires first == 0 && states == [] ==> next[T] == s[T]
    ensures ClimbProgress(step, init, dt, vz, width, first, states + [next], next)
  {
    ClimbClock(init, dt, first, states, s, next);
    SteppedExtend(step, init, states, next);
    WidthExtend(states, width, next);
    TimesFromExtend(init[T], dt, states, first, next);
    ClimbedExtend(init, states, vz, next);
    assert Before(init, states + [next], |states| + 1) == next;
  }

  /** A step that advances the current state's time by dt gives the next
      stored time; so does one that keeps the initial time on the first step
      when the stored times start at the initial one. */
  lemma ClimbClock(init: State, dt: real, first: nat, states: seq<State>, s: State, next: State)
    requires |init| >= 1 && TimesFrom(init[T], dt, states, first)
    requires s == Before(init, states, |states|) && |s| >= 1 && |next| >= 1
    requires first == 1 || first == 0
    requires first == 1 || states != [] ==> next[T] == s[T] + dt
    requires first == 0 && states == [] ==> next[T] == s[T]
    ensures next[T] == init[T] + (|states| + first) as real * dt
  {
    if states != [] {
      var n: nat := |states| - 1 + first;
      assert s == states[|states| - 1];
      assert s[T] == init[T] + n as real * dt;
      NextTime(init[T], dt, n);
      assert n + 1 == |states| + first;
    } else if first == 1 {
      assert s == init;
      NextTime(init[T], dt, 0);
    } else {
      assert s == init;
      assert (|states| + first) as real * dt == 0.0;
    }
  }

  /** Raw state k is what the step made of the state before it. */
  lemma SteppedAt(step: Step, seed: State, raw: seq<State>, k: nat)
    requires Stepped(step, seed, raw) && k < |raw|
    ensures step(Before(seed, raw, k), k) == Ok(raw[k])
  {
  }

  /** Step times advance by exactly dt from one stored state to the next. */
  lemma NextTime(t0: real, dt: real, n: nat)
    ensures t0 + n as real * dt + dt == t0 + (n + 1) as real * dt
  {
  }

  // ---------------------------------------------------------------------------
  // sim_max_airbrakes_deployment_to_apogee

  /** `min(max_deployment_angle, deployment_angle + max_deployment_rate * timestep)`,
      both limits converted from degrees to radians. */
  function Deployed(m: Math, brakes: Airbrakes, previous: real, dt: real): real
  {
    Min(Deg2Rad(m, brakes.maxDeploymentAngle), previous + Deg2Rad(m, brakes.maxDeploymentRate) * dt)
  }

  /** One pass of the loop body (lines 77-125); the angle of the previous
      pass is the state's last component, and 0 before the first. */
  function MaxNext(m: Math, rocket: Rocket, env: Environment, brakes: Airbrakes, dt: real, s: State, k: nat)
    : (r: State)
    requires |s| >= 7 && (k > 0 ==> |s| == 11)
    ensures |r| == 11 && r[T] == s[T] + dt
    ensures r[ANGLE] == Deployed(m, brakes, if k == 0 then 0.0 else s[ANGLE], dt)
  {
    var angle := Deployed(m, brakes, if k == 0 then 0.0 else s[ANGLE], dt);
    Advance(s, BrakedAcceleration(m, rocket, env, brakes, k, s[Z], s[VX], s[VY], s[VZ], angle), dt) + [angle]
  }

  function MaxStep(m: Math, rocket: Rocket, env: Environment, brakes: Airbrakes, dt: real): Step
  {
    (s: State, k: nat) =>
      if |s| < 7 || (k > 0 && |s| != 11) then Err(IndexOutOfRange) else Ok(MaxNext(m, rocket, env, brakes, dt, s, k))
  }

  lemma MaxStepIs(m: Math, rocket: Rocket, env: Environment, brakes: Airbrakes, dt: real, s: State, k: nat)
    requires |s| >= 7 && (k > 0 ==> |s| == 11)
    ensures MaxStep(m, rocket, env, brakes, dt)(s, k) == Ok(MaxNext(m, rocket, env, brakes, dt, s, k))
  {
  }

  /** Lines 76-125, bounded by maxSteps. */
  method MaxLoop(m: Math, rocket: Rocket, env: Environment, brakes: Airbrakes, dt: real, init: State,
                 maxSteps: nat)
    returns (states: seq<State>, last: State)
    requires |init| >= 7
    ensures ClimbProgress(MaxStep(m, rocket, env, brakes, dt), init, dt, VZ, 11, 1, states, last)
    ensures |states| <= maxSteps && (last[VZ] <= 0.0 || |states| == maxSteps)
  {
    var step := MaxStep(m, rocket, env, brakes, dt);
    states := [];
    last := init;
    while last[VZ] > 0.0 && |states| < maxSteps
      invariant ClimbProgress(step, init, dt, VZ, 11, 1, states, last) && |states| <= maxSteps
      invariant |last| >= 7 && (|states| > 0 ==> |last| == 11)
      decreases maxSteps - |states|
    {
      var next := MaxNext(m, rocket, env, brakes, dt, last, |states|);
      MaxStepIs(m, rocket, env, brakes, dt, last, |states|);
      ClimbProgressStep(step, init, dt, VZ, 11, 1, states, last, next);
      states := states + [next];
      last := next;
    }
  }

  /** `sim_max_airbrakes_deployment_to_apogee`: 11-tuples, the first stored
      one a full step after the initial state, ending at the first state
      whose v_z is not positive. The source's loop is unbounded; here at most
      maxSteps steps are taken. */
  method SimMaxAirbrakes(m: Math, rocket: Rocket, env: Environment, brakes: Airbrakes, init: State,
                         maxSteps: nat, dt: real := DEFAULT_TIMESTEP)
    returns (r: Result<seq<State>>, ghost raw: seq<State>)
    ensures |init| < 7 <==> r == Err(IndexOutOfRange)
    ensures r.Ok? || r.error == IndexOutOfRange || r.error == StepLimit
    ensures |init| >= 7 ==>
              |raw| <= maxSteps && Stepped(MaxStep(m, rocket, env, brakes, dt), init, raw) &&
              Width(raw, 11) && TimesFrom(init[T], dt, raw, 1) && Climbed(init, raw, VZ)
    ensures r.Ok? ==> r.value == raw && Before(init, raw, |raw|)[VZ] <= 0.0
    ensures r == Err(StepLimit) ==> |raw| == maxSteps && Before(init, raw, |raw|)[VZ] > 0.0
  {
    raw := [];
    if |init| < 7 {
      return Err(IndexOutOfRange), raw;
    }
    var states, last := MaxLoop(m, rocket, env, brakes, dt, init, maxSteps);
    raw := states;
    if last[VZ] > 0.0 {
      return Err(StepLimit), raw;
    }
    r := Ok(states);
  }

  /** `min(M, min(M, a) + inc) == min(M, a + inc)` for a non-negative increment. */
  lemma MinAccumulates(bound: real, a: real, inc: real)
    requires inc >= 0.0
    ensures Min(bound, Min(bound, a) + inc) == Min(bound, a + inc)
  {
  }

  /** Each stored angle is the deployment rule applied to the previous one
      (0 before the first step). */
  lemma MaxAngleAt(m: Math, rocket: Rocket, env: Environment, brakes: Airbrakes,
                   dt: real, init: State, raw: seq<State>, k: nat)
    requires |init| >= 7 && Stepped(MaxStep(m, rocket, env, brakes, dt), init, raw) && Width(raw, 11)
    requires k < |raw|
    ensures raw[k][ANGLE] == Deployed(m, brakes, if k == 0 then 0.0 else raw[k - 1][ANGLE], dt)
  {
    var s := Before(init, raw, k);
    SteppedAt(MaxStep(m, rocket, env, brakes, dt), init, raw, k);
    MaxStepIs(m, rocket, env, brakes, dt, s, k);
  }

  /** One more increment of a schedule capped at bound. */
  lemma ScheduleStep(bound: real, inc: real, previous: real, k: nat)
    requires inc >= 0.0 && previous == Min(bound, k as real * inc)
    ensures Min(bound, previous + inc) == Min(bound, (k + 1) as real * inc)
  {
    MinAccumulates(bound, k as real * inc, inc);
    NextTime(0.0, inc, k);
  }

  /** With a non-negative rate and step, the angle after k + 1 steps is
      `min(max_angle, (k + 1) * rate * dt)`. */
  lemma {:induction false} MaxDeploymentSchedule(m: Math, rocket: Rocket, env: Environment, brakes: Airbrakes,
                                                 dt: real, init: State, raw: seq<State>, k: nat)
    requires |init| >= 7 && Stepped(MaxStep(m, rocket, env, brakes, dt), init, raw) && Width(raw, 11)
    requires Deg2Rad(m, brakes.maxDeploymentRate) * dt >= 0.0
    requires k < |raw|
    ensures raw[k][ANGLE] ==
              Min(Deg2Rad(m, brakes.maxDeploymentAngle), (k + 1) as real * (Deg2Rad(m, brakes.maxDeploymentRate) * dt))
  {
    var bound := Deg2Rad(m, brakes.maxDeploymentAngle);
    var inc := Deg2Rad(m, brakes.maxDeploymentRate) * dt;
    MaxAngleAt(m, rocket, env, brakes, dt, init, raw, k);
    if k == 0 {
      assert (k + 1) as real * inc == 0.0 + inc;
    } else {
      MaxDeploymentSchedule(m, rocket, env, brakes, dt, init, raw, k - 1);
      ScheduleStep(bound, inc, raw[k - 1][ANGLE], k);
    }
  }

  /** The maximum-deployment angle never exceeds the maximum and, with a
      non-negative rate, never decreases from one step to the next. */
  lemma MaxDeploymentMonotone(m: Math, rocket: Rocket, env: Environment, brakes: Airbrakes,
                              dt: real, init: State, raw: seq<State>, k: nat)
    requires |init| >= 7 && Stepped(MaxStep(m, rocket, env, brakes, dt), init, raw) && Width(raw, 11)
    requires Deg2Rad(m, brakes.maxDeploymentRate) * dt >= 0.0
    requires k + 1 < |raw|
    ensures raw[k][ANGLE] <= raw[k + 1][ANGLE] <= Deg2Rad(m, brakes.maxDeploymentAngle)
  {
    var inc := Deg2Rad(m, brakes.maxDeploymentRate) * dt;
    MaxDeploymentSchedule(m, rocket, env, brakes, dt, init, raw, k);
    MaxDeploymentSchedule(m, rocket, env, brakes, dt, init, raw, k + 1);
    NextTime(0.0, inc, k + 1);
  }

  // ---------------------------------------------------------------------------
  // sim_airbrakes_deployment_to_apogee_fn_height

  // Components of the height variant's tuples: (t, z, v_x, v_y, v_z) in,
  // (t, z, v_x, v_y, v_z, a_x, a_y, a_z, angle) out.
  const HZ: int := 1
  const HVX: int := 2
  const HVY: int := 3
  const HVZ: int := 4
  const HANGLE: int := 8

  /** One pass of the loop body (lines 197-245): the angle is the deployment
      function of the height the step starts from; x and y are not tracked. */
  function HeightNext(m: Math, rocket: Rocket, env: Environment, brakes: Airbrakes, deploy: real -> real,
                      dt: real, s: State, k: nat): (r: State)
    requires |s| >= 5
    ensures |r| == 9 && r[T] == s[T] + dt && r[HANGLE] == deploy(s[HZ])
    ensures r[HVZ] == s[HVZ] + r[7] * dt && r[HZ] == s[HZ] + r[HVZ] * dt
  {
    var angle := deploy(s[HZ]);
    var a := BrakedAcceleration(m, rocket, env, brakes, k, s[HZ], s[HVX], s[HVY], s[HVZ], angle);
    var vx := s[HVX] + a[0] * dt;
    var vy := s[HVY] + a[1] * dt;
    var vz := s[HVZ] + a[2] * dt;
    [s[T] + dt, s[HZ] + vz * dt, vx, vy, vz, a[0], a[1], a[2], angle]
  }

  function HeightStep(m: Math, rocket: Rocket, env: Environment, brakes: Airbrakes, deploy: real -> real,
                      dt: real): Step
  {
    (s: State, k: nat) =>
      if |s| < 5 then Err(IndexOutOfRange) else Ok(HeightNext(m, rocket, env, brakes, deploy, dt, s, k))
  }

  lemma HeightStepIs(m: Math, rocket: Rocket, env: Environment, brakes: Airbrakes, deploy: real -> real,
                     dt: real, s: State, k: nat)
    requires |s| >= 5
    ensures HeightStep(m, rocket, env, brakes, deploy, dt)(s, k) == Ok(HeightNext(m, rocket, env, brakes, deploy, dt, s, k))
  {
  }

  /** Lines 196-245, bounded by maxSteps. */
  method HeightLoop(m: Math, rocket: Rocket, env: Environment, brakes: Airbrakes, deploy: real -> real,
                    dt: real, init: State, maxSteps: nat)
    returns (states: seq<State>, last: State)
    requires |init| >= 5
    ensures ClimbProgress(HeightStep(m, rocket, env, brakes, deploy, dt), init, dt, HVZ, 9, 1, states, last)
    ensures |states| <= maxSteps && (last[HVZ] <= 0.0 || |states| == maxSteps)
  {
    var step := HeightStep(m, rocket, env, brakes, deploy, dt);
    states := [];
    last := init;
    while last[HVZ] > 0.0 && |states| < maxSteps
      invariant ClimbProgress(step, init, dt, HVZ, 9, 1, states, last) && |states| <= maxSteps
      invariant |last| >= 5
      decreases maxSteps - |states|
    {
      var next := HeightNext(m, rocket, env, brakes, deploy, dt, last, |states|);
      HeightStepIs(m, rocket, env, brakes, deploy, dt, last, |states|);
      ClimbProgressStep(step, init, dt, HVZ, 9, 1, states, last, next);
      states := states + [next];
      last := next;
    }
  }

  /** `sim_airbrakes_deployment_to_apogee_fn_height`: from a (t, z, v_x, v_y,
      v_z) state, 9-tuples until v_z is no longer positive. */
  method SimHeightAirbrakes(m: Math, rocket: Rocket, env: Environment, brakes: Airbrakes, init: State,
                            deploy: real -> real, maxSteps: nat, dt: real := DEFAULT_TIMESTEP)
    returns (r: Result<seq<State>>, ghost raw: seq<State>)
    ensures |init| < 5 <==> r == Err(IndexOutOfRange)
    ensures r.Ok? || r.error == IndexOutOfRange || r.error == StepLimit
    ensures |init| >= 5 ==>
              |raw| <= maxSteps && Stepped(HeightStep(m, rocket, env, brakes, deploy, dt), init, raw) &&
              Width(raw, 9) && TimesFrom(init[T], dt, raw, 1) && Climbed(init, raw, HVZ)
    ensures r.Ok? ==> r.value == raw && Before(init, raw, |raw|)[HVZ] <= 0.0
    ensures r == Err(StepLimit) ==> |raw| == maxSteps && Before(init, raw, |raw|)[HVZ] > 0.0
  {
    raw := [];
    if |init| < 5 {
      return Err(IndexOutOfRange), raw;
    }
    var states, last := HeightLoop(m, rocket, env, brakes, deploy, dt, init, maxSteps);
    raw := states;
    if last[HVZ] > 0.0 {
      return Err(StepLimit), raw;
    }
    r := Ok(states);
  }

  /** Every stored angle is the deployment function of the height its step
      started from, and that height is the previous stored one. */
  lemma HeightDeploysAtHeight(m: Math, rocket: Rocket, env: Environment, brakes: Airbrakes,
                              deploy: real -> real, dt: real, init: State, raw: seq<State>, k: nat)
    requires |init| >= 5 && Stepped(HeightStep(m, rocket, env, brakes, deploy, dt), init, raw) && Width(raw, 9)
    requires k < |raw|
    ensures raw[k][HANGLE] == deploy(Before(init, raw, k)[HZ])
    ensures raw[k][HZ] == Before(init, raw, k)[HZ] + raw[k][HVZ] * dt
  {
    var s := Before(init, raw, k);
    assert |s| >= 5;
    SteppedAt(HeightStep(m, rocket, env, brakes, deploy, dt), init, raw, k);
    HeightStepIs(m, rocket, env, brakes, deploy, dt, s, k);
    assert raw[k] == HeightNext(m, rocket, env, brakes, deploy, dt, s, k);
  }

  // ---------------------------------------------------------------------------
  // sim_airbrakes_deployment_to_apogee_fn_time

  /** One pass of the loop body (lines 316-349): the angle is the deployment
      function of the absolute time the step starts at, and that time, not
      the advanced one, is stored; the time then advances for the next pass. */
  function TimeNext(m: Math, rocket: Rocket, env: Environment, brakes: Airbrakes, deploy: real -> real,
                    dt: real, s: State, k: nat): (r: State)
    requires |s| >= 7
    ensures |r| == 11 && r[T] == (if k == 0 then s[T] else s[T] + dt)
    ensures r[ANGLE] == deploy(r[T])
  {
    var t := if k == 0 then s[T] else s[T] + dt;
    var angle := deploy(t);
    var a := BrakedAcceleration(m, rocket, env, brakes, k, s[Z], s[VX], s[VY], s[VZ], angle);
    Advance(s, a, dt)[T := t] + [angle]
  }

  function TimeStep(m: Math, rocket: Rocket, env: Environment, brakes: Airbrakes, deploy: real -> real,
                    dt: real): Step
  {
    (s: State, k: nat) =>
      if |s| < 7 then Err(IndexOutOfRange) else Ok(TimeNext(m, rocket, env, brakes, deploy, dt, s, k))
  }

  lemma TimeStepIs(m: Math, rocket: Rocket, env: Environment, brakes: Airbrakes, deploy: real -> real,
                   dt: real, s: State, k: nat)
    requires |s| >= 7
    ensures TimeStep(m, rocket, env, brakes, deploy, dt)(s, k) == Ok(TimeNext(m, rocket, env, brakes, deploy, dt, s, k))
  {
  }

  /** Lines 315-349, bounded by maxSteps. */
  method TimeLoop(m: Math, rocket: Rocket, env: Environment, brakes: Airbrakes, deploy: real -> real,
                  dt: real, init: State, maxSteps: nat)
    returns (states: seq<State>, last: State)
    requires |init| >= 7
    ensures ClimbProgress(TimeStep(m, rocket, env, brakes, deploy, dt), init, dt, VZ, 11, 0, states, last)
    ensures |states| <= maxSteps && (last[VZ] <= 0.0 || |states| == maxSteps)
  {
    var step := TimeStep(m, rocket, env, brakes, deploy, dt);
    states := [];
    last := init;
    while last[VZ] > 0.0 && |states| < maxSteps
      invariant ClimbProgress(step, init, dt, VZ, 11, 0, states, last) && |states| <= maxSteps
      invariant |last| >= 7
      decreases maxSteps - |states|
    {
      var next := TimeNext(m, rocket, env, brakes, deploy, dt, last, |states|);
      TimeStepIs(m, rocket, env, brakes, deploy, dt, last, |states|);
      ClimbProgressStep(step, init, dt, VZ, 11, 0, states, last, next);
      states := states + [next];
      last := next;
    }
  }

  /** `sim_airbrakes_deployment_to_apogee_fn_time`: 11-tuples whose first
      stored time is the initial state's own, until v_z is no longer positive. */
  method SimTimeAirbrakes(m: Math, rocket: Rocket, env: Environment, brakes: Airbrakes, init: State,
                          deploy: real -> real, maxSteps: nat, dt: real := DEFAULT_TIMESTEP)
    returns (r: Result<seq<State>>, ghost raw: seq<State>)
    ensures |init| < 7 <==> r == Err(IndexOutOfRange)
    ensures r.Ok? || r.error == IndexOutOfRange || r.error == StepLimit
    ensures |init| >= 7 ==>
              |raw| <= maxSteps && Stepped(TimeStep(m, rocket, env, brakes, deploy, dt), init, raw) &&
              Width(raw, 11) && TimesFrom(init[T], dt, raw, 0) && Climbed(init, raw, VZ)
    ensures r.Ok? ==> r.value == raw && Before(init, raw, |raw|)[VZ] <= 0.0
    ensures r == Err(StepLimit) ==> |raw| == maxSteps && Before(init, raw, |raw|)[VZ] > 0.0
  {
    raw := [];
    if |init| < 7 {
      return Err(IndexOutOfRange), raw;
    }
    var states, last := TimeLoop(m, rocket, env, brakes, deploy, dt, init, maxSteps);
    raw := states;
    if last[VZ] > 0.0 {
      return Err(StepLimit), raw;
    }
    r := Ok(states);
  }

  /** Stored state k of the time variant carries time t0 + k * dt and the
      angle the deployment function gives for that absolute time. */
  lemma TimeDeploysAtTime(m: Math, rocket: Rocket, env: Environment, brakes: Airbrakes,
                          deploy: real -> real, dt: real, init: State, raw: seq<State>, k: nat)
    requires |init| >= 7 && Stepped(TimeStep(m, rocket, env, brakes, deploy, dt), init, raw)
    requires Width(raw, 11) && TimesFrom(init[T], dt, raw, 0)
    requires k < |raw|
    ensures raw[k][T] == init[T] + k as real * dt
    ensures raw[k][ANGLE] == deploy(init[T] + k as real * dt)
  {
    SteppedAt(TimeStep(m, rocket, env, brakes, deploy, dt), init, raw, k);
    TimeStepIs(m, rocket, env, brakes, deploy, dt, Before(init, raw, k), k);
  }
}
