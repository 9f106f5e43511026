// rocketflightsim/flight_sim_guided.py: flight along the launch rail from
// liftoff until the upper rail button leaves it. The rocket is held on the
// rail's line: only the thrust, drag and the share of gravity along the rail
// act, and the last state is interpolated to the exact clearance height.
module Guided {
  import opened Base
  import opened Dict
  import opened HelperFunctions
  import opened StateVectors
  import opened Aerodynamics
  import opened MotorModel
  import opened RocketModel
  import opened Descriptors

  /** The height at which the upper rail button leaves the rail (lines 39-40). */
  function ClearanceHeight(rocket: Rocket, lp: Launchpad): real
  {
    (lp.railLength - rocket.hSecondRailButton) * lp.railUnitVectorZ
  }

  /** A scalar along the rail direction as an (x, y, z) vector. */
  function RailPoint(lp: Launchpad, p: real): (v: seq<real>)
    ensures |v| == 3
  {
    [p * lp.railUnitVectorX, p * lp.railUnitVectorY, p * lp.railUnitVectorZ]
  }

  /** The acceleration along the rail in one pass of the loop body (lines
      75-87). The airspeed is 0 before the first step and the ground speed of
      the state after that, with no wind; the acceleration is the net force
      over the mass less the share of gravity along the rail. */
  function RailAcceleration(m: Math, rocket: Rocket, env: Environment, lp: Launchpad, thrustCurve: Table,
                            s: State, k: nat): (r: Result<real>)
    requires |s| >= 7
    ensures r.Err? ==> r.error == EmptySequence
  {
    var airspeed := if k == 0 then 0.0 else m.sqrt(Sq(s[VX]) + Sq(s[VY]) + Sq(s[VZ]));
    var drag := RocketDrag(m, rocket, env, s[Z], airspeed);
    match MassAtTime(s[T], rocket.dryMass, rocket.motor.fuelMassCurve)
    case Err(e) => Err(e)
    case Ok(mass) =>
      match ThrustAtTime(s[T], thrustCurve)
      case Err(e) => Err(e)
      case Ok(thrust) => Ok(Quot(m, thrust - drag, mass) - env.localGravity * lp.railUnitVectorZ)
  }

  /** One pass of the loop body (lines 73-104): the acceleration along the
      rail, resolved onto the axes, then an Euler step. */
  function GuidedNext(m: Math, rocket: Rocket, env: Environment, lp: Launchpad, thrustCurve: Table,
                      dt: real, s: State, k: nat): (r: Result<State>)
    requires |s| >= 7
    ensures r.Ok? ==> |r.value| == 10 && r.value[T] == s[T] + dt
    ensures r.Err? ==> r.error == EmptySequence
  {
    match RailAcceleration(m, rocket, env, lp, thrustCurve, s, k)
    case Err(e) => Err(e)
    case Ok(aRail) => Ok(Advance(s, RailPoint(lp, aRail), dt))
  }

  function GuidedStep(m: Math, rocket: Rocket, env: Environment, lp: Launchpad, thrustCurve: Table, dt: real): Step
  {
    (s: State, k: nat) => if |s| < 7 then Err(IndexOutOfRange) else GuidedNext(m, rocket, env, lp, thrustCurve, dt, s, k)
  }

  lemma GuidedStepIs(m: Math, rocket: Rocket, env: Environment, lp: Launchpad, thrustCurve: Table,
                     dt: real, s: State, k: nat)
    requires |s| >= 7
    ensures GuidedStep(m, rocket, env, lp, thrustCurve, dt)(s, k) == GuidedNext(m, rocket, env, lp, thrustCurve, dt, s, k)
  {
  }

  /** The state the loop starts from (lines 58-64). */
  function RailSeed(tLiftoff: real): (s: State)
    ensures |s| == 7 && s[T] == tLiftoff
  {
    [tLiftoff, 0.0, 0.0, 0.0, 0.0, 0.0, 0.0]
  }

  /** (x, y, z) is `p` times the rail's unit vector. */
  predicate Scaled(lp: Launchpad, x: real, y: real, z: real, p: real)
  {
    x == p * lp.railUnitVectorX && y == p * lp.railUnitVectorY && z == p * lp.railUnitVectorZ
  }

  /** On one axis with unit-vector component `u`: the position is `p` times
      `u` and the velocity `v` times `u`. */
  predicate AxisAlong(u: real, x: real, vx: real, p: real, v: real)
  {
    x == p * u && vx == v * u
  }

  /** Position `p`, velocity `v` and (for a full state) acceleration `a`
      along the rail. */
  predicate Along(lp: Launchpad, s: State, p: real, v: real, a: real)
  {
    |s| >= 7 &&
    AxisAlong(lp.railUnitVectorX, s[X], s[VX], p, v) &&
    AxisAlong(lp.railUnitVectorY, s[Y], s[VY], p, v) &&
    AxisAlong(lp.railUnitVectorZ, s[Z], s[VZ], p, v) &&
    (|s| >= 10 ==> Scaled(lp, s[AX], s[AY], s[AZ], a))
  }

  /** The state lies on the rail's line: its position, velocity and
      acceleration are all multiples of the rail's unit vector. */
  ghost predicate OnRail(lp: Launchpad, s: State)
  {
    exists p, v, a :: Along(lp, s, p, v, a)
  }

  ghost predicate AllOnRail(lp: Launchpad, states: seq<State>)
  {
    forall k :: 0 <= k < |states| ==> OnRail(lp, states[k])
  }

  /** One axis of the Euler step: the velocity gains `ax * dt`, then the
      position gains the new velocity times `dt`. */
  predicate EulerAxis(x: real, vx: real, ax: real, rx: real, rvx: real, dt: real)
  {
    rvx == vx + ax * dt && rx == x + rvx * dt
  }

  lemma AdvanceEuler(s: State, acc: seq<real>, dt: real)
    requires |s| >= 7 && |acc| == 3
    ensures var r := Advance(s, acc, dt);
            EulerAxis(s[X], s[VX], acc[0], r[X], r[VX], dt) &&
            EulerAxis(s[Y], s[VY], acc[1], r[Y], r[VY], dt) &&
            EulerAxis(s[Z], s[VZ], acc[2], r[Z], r[VZ], dt) &&
            r[AX] == acc[0] && r[AY] == acc[1] && r[AZ] == acc[2]
  {
    var r := Advance(s, acc, dt);
    assert r[AX..] == acc;
    assert r[AX] == r[AX..][0];
  }

  lemma AxisStep(u: real, x: real, vx: real, ax: real, rx: real, rvx: real,
                 p: real, v: real, ar: real, dt: real, w: real, p': real)
    requires AxisAlong(u, x, vx, p, v) && ax == ar * u && EulerAxis(x, vx, ax, rx, rvx, dt)
    requires w == v + ar * dt && p' == p + w * dt
    ensures AxisAlong(u, rx, rvx, p', w)
  {
    assert rvx == v * u + (ar * u) * dt;
    assert rvx == w * u;
    assert rx == p * u + (w * u) * dt;
  }

  /** An Euler step with an acceleration `ar` along the rail moves a state
      at `p` with velocity `v` to `p'` with velocity `w`. */
  lemma AdvanceAlong(lp: Launchpad, s: State, p: real, v: real, a: real, ar: real, dt: real, w: real, p': real)
    requires Along(lp, s, p, v, a) && w == v + ar * dt && p' == p + w * dt
    ensures Along(lp, Advance(s, RailPoint(lp, ar), dt), p', w, ar)
  {
    var acc := RailPoint(lp, ar);
    var r := Advance(s, acc, dt);
    AdvanceEuler(s, acc, dt);
    AxisStep(lp.railUnitVectorX, s[X], s[VX], acc[0], r[X], r[VX], p, v, ar, dt, w, p');
    AxisStep(lp.railUnitVectorY, s[Y], s[VY], acc[1], r[Y], r[VY], p, v, ar, dt, w, p');
    AxisStep(lp.railUnitVectorZ, s[Z], s[VZ], acc[2], r[Z], r[VZ], p, v, ar, dt, w, p');
  }

  /** An Euler step with an acceleration along the rail keeps a state on the
      rail. */
  lemma AdvanceOnRail(lp: Launchpad, s: State, ar: real, dt: real)
    requires |s| >= 7 && OnRail(lp, s)
    ensures OnRail(lp, Advance(s, RailPoint(lp, ar), dt))
  {
    var p, v, a :| Along(lp, s, p, v, a);
    var w := v + ar * dt;
    AdvanceAlong(lp, s, p, v, a, ar, dt, w, p + w * dt);
  }

  /** A successful step from a state on the rail stays on the rail. */
  lemma NextOnRail(m: Math, rocket: Rocket, env: Environment, lp: Launchpad, thrustCurve: Table,
                   dt: real, s: State, k: nat)
    requires |s| >= 7 && OnRail(lp, s) && GuidedNext(m, rocket, env, lp, thrustCurve, dt, s, k).Ok?
    ensures OnRail(lp, GuidedNext(m, rocket, env, lp, thrustCurve, dt, s, k).value)
  {
    AdvanceOnRail(lp, s, RailAcceleration(m, rocket, env, lp, thrustCurve, s, k).value, dt);
  }

  lemma InterpolatedScaled(p1: real, p2: real, f: real, u: real)
    ensures Interpolated(p1 * u, p2 * u, f) == Interpolated(p1, p2, f) * u
  {
  }

  /** Interpolating two triples along the rail gives the interpolated
      multiple. */
  lemma ScaledInterpolated(lp: Launchpad, x1: real, y1: real, z1: real, p1: real,
                           x2: real, y2: real, z2: real, p2: real, f: real)
    requires Scaled(lp, x1, y1, z1, p1) && Scaled(lp, x2, y2, z2, p2)
    ensures Scaled(lp, Interpolated(x1, x2, f), Interpolated(y1, y2, f), Interpolated(z1, z2, f),
                   Interpolated(p1, p2, f))
  {
    InterpolatedScaled(p1, p2, f, lp.railUnitVectorX);
    InterpolatedScaled(p1, p2, f, lp.railUnitVectorY);
    InterpolatedScaled(p1, p2, f, lp.railUnitVectorZ);
  }

  lemma AxisInterpolated(u: real, x1: real, vx1: real, p1: real, v1: real,
                         x2: real, vx2: real, p2: real, v2: real, f: real)
    requires AxisAlong(u, x1, vx1, p1, v1) && AxisAlong(u, x2, vx2, p2, v2)
    ensures AxisAlong(u, Interpolated(x1, x2, f), Interpolated(vx1, vx2, f), Interpolated(p1, p2, f),
                      Interpolated(v1, v2, f))
  {
    InterpolatedScaled(p1, p2, f, u);
    InterpolatedScaled(v1, v2, f, u);
  }

  /** Interpolating between two states on the rail gives a state on the rail. */
  lemma LerpOnRail(lp: Launchpad, s1: State, s2: State, f: real)
    requires |s1| == |s2| == 10 && OnRail(lp, s1) && OnRail(lp, s2)
    ensures OnRail(lp, Lerp(s1, s2, f))
  {
    var p1, v1, a1 :| Along(lp, s1, p1, v1, a1);
    var p2, v2, a2 :| Along(lp, s2, p2, v2, a2);
    var r := Lerp(s1, s2, f);
    AxisInterpolated(lp.railUnitVectorX, s1[X], s1[VX], p1, v1, s2[X], s2[VX], p2, v2, f);
    AxisInterpolated(lp.railUnitVectorY, s1[Y], s1[VY], p1, v1, s2[Y], s2[VY], p2, v2, f);
    AxisInterpolated(lp.railUnitVectorZ, s1[Z], s1[VZ], p1, v1, s2[Z], s2[VZ], p2, v2, f);
    ScaledInterpolated(lp, s1[AX], s1[AY], s1[AZ], a1, s2[AX], s2[AY], s2[AZ], a2, f);
    assert Along(lp, r, Interpolated(p1, p2, f), Interpolated(v1, v2, f), Interpolated(a1, a2, f));
  }

  /** What the loop knows at the top of each iteration: the raw states were
      stepped and timed from the seed, all lie on the rail, and all but the
      last were below the clearance height when the loop went on. */
  ghost predicate GuidedProgress(m: Math, rocket: Rocket, env: Environment, lp: Launchpad, thrustCurve: Table,
                                 dt: real, h: real, init: State, states: seq<State>, s: State)
  {
    |init| >= 7 && |s| >= 7 && s == Before(init, states, |states|) &&
    Stepped(GuidedStep(m, rocket, env, lp, thrustCurve, dt), init, states) && Timed(init[T], dt, states) &&
    OnRail(lp, s) && AllOnRail(lp, states) &&
    forall k :: 0 <= k < |states| - 1 ==> states[k][Z] < h
  }

  lemma GuidedProgressStep(m: Math, rocket: Rocket, env: Environment, lp: Launchpad, thrustCurve: Table,
                           dt: real, h: real, init: State, states: seq<State>, s: State, next: State)
    requires GuidedProgress(m, rocket, env, lp, thrustCurve, dt, h, init, states, s)
    requires s[Z] < h && GuidedNext(m, rocket, env, lp, thrustCurve, dt, s, |states|) == Ok(next)
    ensures GuidedProgress(m, rocket, env, lp, thrustCurve, dt, h, init, states + [next], next)
  {
    NextOnRail(m, rocket, env, lp, thrustCurve, dt, s, |states|);
    AllOnRailAppend(lp, states, next);
    BelowAppend(h, init, states, s, next);
    GuidedStepIs(m, rocket, env, lp, thrustCurve, dt, s, |states|);
    SteppedExtend(GuidedStep(m, rocket, env, lp, thrustCurve, dt), init, states, next);
    TimedExtend(dt, init, states, next);
  }

  lemma AllOnRailAppend(lp: Launchpad, states: seq<State>, next: State)
    requires AllOnRail(lp, states) && OnRail(lp, next)
    ensures AllOnRail(lp, states + [next])
  {
    var states' := states + [next];
    forall k | 0 <= k < |states'| ensures OnRail(lp, states'[k]) {
      if k < |states| {
        assert states'[k] == states[k];
      }
    }
  }

  lemma BelowAppend(h: real, init: State, states: seq<State>, s: State, next: State)
    requires forall k :: 0 <= k < |states| ==> |states[k]| == 10
    requires forall k :: 0 <= k < |states| - 1 ==> states[k][Z] < h
    requires |init| >= 7 && |s| >= 7 && |next| >= 7 && s == Before(init, states, |states|) && s[Z] < h
    ensures forall k :: 0 <= k < |states + [next]| - 1 ==> (states + [next])[k][Z] < h
  {
    var states' := states + [next];
    forall k | 0 <= k < |states'| - 1 ensures states'[k][Z] < h {
      assert states'[k] == states[k];
    }
  }

  /** Lines 73-120: the loop; `last` is the state it stopped at and `failure`
      the exception of the step that failed there, or the step bound. */
  method GuidedLoop(m: Math, rocket: Rocket, env: Environment, lp: Launchpad, thrustCurve: Table,
                    dt: real, h: real, init: State, maxSteps: nat)
    returns (failure: Option<Error>, states: seq<State>, last: State)
    requires dt > 0.0 && |init| >= 7 && OnRail(lp, init)
    ensures GuidedProgress(m, rocket, env, lp, thrustCurve, dt, h, init, states, last)
    ensures |states| <= maxSteps
    ensures failure.None? <==> last[Z] >= h
    ensures init[Z] >= h ==> states == [] && failure.None?
    ensures failure.Some? ==>
              (failure.value == StepLimit && |states| == maxSteps) ||
              GuidedNext(m, rocket, env, lp, thrustCurve, dt, last, |states|) == Err(failure.value)
  {
    states := [];
    last := init;
    while last[Z] < h
      invariant |states| <= maxSteps && (states == [] || init[Z] < h)
      invariant GuidedProgress(m, rocket, env, lp, thrustCurve, dt, h, init, states, last)
      decreases maxSteps - |states|
    {
      if |states| == maxSteps {
        return Some(StepLimit), states, last;
      }
      var next := GuidedNext(m, rocket, env, lp, thrustCurve, dt, last, |states|);
      if next.Err? {
        return Some(next.error), states, last;
      }
      GuidedProgressStep(m, rocket, env, lp, thrustCurve, dt, h, init, states, last, next.value);
      states := states + [next.value];
      last := next.value;
    }
    return None, states, last;
  }

  /** Lines 122-135: the last raw state is replaced by the interpolation at
      the clearance height, which it then has exactly; every component lies
      between the last two raw values and the state stays on the rail. */
  function InterpolateClearance(lp: Launchpad, h: real, raw: seq<State>): (r: seq<State>)
    requires |raw| >= 2 && |raw[|raw| - 2]| == |raw[|raw| - 1]| == 10
    requires raw[|raw| - 2][Z] < h <= raw[|raw| - 1][Z]
    ensures |r| == |raw| && r[..|raw| - 1] == raw[..|raw| - 1]
    ensures |r[|raw| - 1]| == 10 && r[|raw| - 1][Z] == h
    ensures Bracketed(raw[|raw| - 2], raw[|raw| - 1], r[|raw| - 1])
  {
    var prev, last := raw[|raw| - 2], raw[|raw| - 1];
    CrossingExact(h, prev[Z], last[Z]);
    LerpBetween(prev, last, CrossingFraction(h, prev[Z], last[Z]));
    InterpolateLast(raw, CrossingFraction(h, prev[Z], last[Z]))
  }

  /** Raw states on the rail interpolate to states on the rail. */
  lemma ClearanceOnRail(lp: Launchpad, h: real, raw: seq<State>)
    requires |raw| >= 2 && |raw[|raw| - 2]| == |raw[|raw| - 1]| == 10
    requires raw[|raw| - 2][Z] < h <= raw[|raw| - 1][Z]
    requires AllOnRail(lp, raw)
    ensures AllOnRail(lp, InterpolateClearance(lp, h, raw))
  {
    var prev, last := raw[|raw| - 2], raw[|raw| - 1];
    var r := InterpolateClearance(lp, h, raw);
    LerpOnRail(lp, prev, last, CrossingFraction(h, prev[Z], last[Z]));
    forall k | 0 <= k < |r| ensures OnRail(lp, r[k]) {
      if k < |raw| - 1 {
        assert r[k] == r[..|raw| - 1][k];
      }
    }
  }

  /** `sim_liftoff_to_rail_clearance`: steps from rest at the foot of the rail
      at the liftoff time until the height reaches the clearance height, then
      interpolates the last state there. `warned` is the warning printed when
      the raw last time is at or past burnout. */
  method SimLiftoffToRailClearance(m: Math, rocket: Rocket, env: Environment, lp: Launchpad, tLiftoff: real,
                                   maxSteps: nat, dt: real := DEFAULT_TIMESTEP)
    returns (r: Result<seq<State>>, warned: bool, ghost raw: seq<State>)
    requires dt > 0.0
    ensures r.Err? ==> r.error in {IndexOutOfRange, EmptySequence, StepLimit}
    ensures Stepped(GuidedStep(m, rocket, env, lp, rocket.motor.thrustCurve, dt), RailSeed(tLiftoff), raw)
    ensures Timed(tLiftoff, dt, raw) && |raw| <= maxSteps && AllOnRail(lp, raw)
    ensures forall k :: 0 <= k < |raw| - 1 ==> raw[k][Z] < ClearanceHeight(rocket, lp)
    ensures ClearanceHeight(rocket, lp) <= 0.0 ==> r == Err(IndexOutOfRange)
    ensures r == Err(StepLimit) ==> |raw| == maxSteps && Before(RailSeed(tLiftoff), raw, |raw|)[Z] < ClearanceHeight(rocket, lp)
    ensures r == Err(EmptySequence) ==>
              GuidedNext(m, rocket, env, lp, rocket.motor.thrustCurve, dt, Before(RailSeed(tLiftoff), raw, |raw|), |raw|)
                == Err(EmptySequence)
    ensures r.Ok? ==>
              |raw| >= 2 && raw[|raw| - 2][Z] < ClearanceHeight(rocket, lp) <= raw[|raw| - 1][Z] &&
              r.value == InterpolateClearance(lp, ClearanceHeight(rocket, lp), raw) &&
              AllOnRail(lp, r.value)
    ensures warned <==> r.Ok? && raw[|raw| - 1][T] >= rocket.motor.burnTime
  {
    var h := ClearanceHeight(rocket, lp);
    var seed := RailSeed(tLiftoff);
    assert Along(lp, seed, 0.0, 0.0, 0.0);
    var failure, states, last := GuidedLoop(m, rocket, env, lp, rocket.motor.thrustCurve, dt, h, seed, maxSteps);
    raw := states;
    warned := false;
    if failure.Some? {
      return Err(failure.value), warned, raw;
    }
    if |states| < 2 {
      return Err(IndexOutOfRange), warned, raw;
    }
    var result := InterpolateClearance(lp, h, states);
    ClearanceOnRail(lp, h, states);
    warned := states[|states| - 1][T] >= rocket.motor.burnTime;
    r := Ok(result);
  }

  /** The clearance height is below the top of the rail whenever the upper
      rail button sits above the rocket's base and the rail points upward, so
      the interpolated last state ends below the rail's tip
      (tests/test_flight_sim_guided.py:33). */
  lemma ClearsBelowRailTip(rocket: Rocket, lp: Launchpad)
    requires rocket.hSecondRailButton > 0.0 && lp.railUnitVectorZ > 0.0
    ensures ClearanceHeight(rocket, lp) < lp.railLength * lp.railUnitVectorZ
  {
    var h, u := rocket.hSecondRailButton, lp.railUnitVectorZ;
    assert h * u > 0.0;
  }
}
