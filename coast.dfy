// rocketflightsim/flight_sim_coast.py: unpowered flight under drag and
// gravity, stepped until a stop condition holds, with the last state replaced
// by the interpolated state at the exact transition.
module Coast {
  import opened Base
  import opened StateVectors
  import opened Aerodynamics
  import opened RocketModel
  import opened Descriptors

  /** `stop_condition`: 'apogee', 'impact', 'below_altitude', 'after_delay',
      or any other string. */
  datatype StopCondition = Apogee | Impact | BelowAltitude | AfterDelay | Unrecognised

  /** `stop_condition_fn()` on the current state; `t0` is the initial state's time. */
  predicate StopMet(stop: StopCondition, value: real, t0: real, s: State)
    requires |s| >= 7
  {
    match stop
    case Apogee => s[VZ] <= 0.0
    case Impact => s[Z] <= 0.0
    case BelowAltitude => s[Z] <= value
    case AfterDelay => s[T] - t0 >= value
    case Unrecognised => false
  }

  /** The transition a stop condition describes, reached exactly: zero vertical
      velocity, zero height, the given height, or the given delay. */
  predicate Reached(stop: StopCondition, value: real, t0: real, s: State)
    requires |s| >= 7
  {
    match stop
    case Apogee => s[VZ] == 0.0
    case Impact => s[Z] == 0.0
    case BelowAltitude => s[Z] == value
    case AfterDelay => s[T] == t0 + value
    case Unrecognised => false
  }

  /** One pass of the loop body: drag at the current height and airspeed
      (full wind), resolved against the attitude, decelerates the dry rocket. */
  function Next(m: Math, rocket: Rocket, env: Environment, dt: real, s: State): (r: State)
    requires |s| >= 7
    ensures |r| == 10 && r[T] == s[T] + dt
  {
    var att := AttitudeOf(m, s[VX], s[VY], s[VZ], WindX(m, env), WindY(m, env));
    var drag := RocketDrag(m, rocket, env, s[Z], att.airspeed);
    Advance(s, Resolved(m, -drag, att, rocket.dryMass, env.localGravity), dt)
  }

  /** The coast step; a state too short to unpack raises IndexError. */
  function CoastStep(m: Math, rocket: Rocket, env: Environment, dt: real): Step
  {
    (s: State, k: nat) => if |s| < 7 then Err(IndexOutOfRange) else Ok(Next(m, rocket, env, dt, s))
  }

  /** `t_interp = t1 - v_z1 * (t2 - t1) / (v_z2 - v_z1)`: where v_z crosses zero. */
  function ApogeeTime(t1: real, t2: real, v1: real, v2: real): real
    requires v1 != v2
  {
    t1 - v1 * (t2 - t1) / (v2 - v1)
  }

  /** `t_interp = t1 + (target - z1) * (t2 - t1) / (z2 - z1)`: where z crosses the target. */
  function HeightTime(t1: real, t2: real, target: real, z1: real, z2: real): real
    requires z1 != z2
  {
    t1 + (target - z1) * (t2 - t1) / (z2 - z1)
  }

  /** `fraction = (t_interp - t1) / (t2 - t1)` */
  function TimeFraction(tInterp: real, t1: real, t2: real): real
    requires t1 != t2
  {
    (tInterp - t1) / (t2 - t1)
  }

  /** `fraction` as computed from the last two raw states, per stop condition. */
  function TransitionFraction(stop: StopCondition, value: real, t0: real, prev: State, last: State): real
    requires |prev| >= 7 && |last| >= 7 && prev[T] != last[T] && !stop.Unrecognised?
    requires stop.Apogee? ==> prev[VZ] != last[VZ]
    requires stop.Impact? || stop.BelowAltitude? ==> prev[Z] != last[Z]
  {
    match stop
    case Apogee => TimeFraction(ApogeeTime(prev[T], last[T], prev[VZ], last[VZ]), prev[T], last[T])
    case Impact => TimeFraction(HeightTime(prev[T], last[T], 0.0, prev[Z], last[Z]), prev[T], last[T])
    case BelowAltitude => TimeFraction(HeightTime(prev[T], last[T], value, prev[Z], last[Z]), prev[T], last[T])
    case AfterDelay => TimeFraction(t0 + value, prev[T], last[T])
  }

  /** When the stop condition first holds at `last`, the fraction lies in
      (0, 1] and interpolating with it reaches the transition exactly. */
  lemma TransitionExact(stop: StopCondition, value: real, t0: real, prev: State, last: State)
    requires |prev| == |last| && |prev| >= 7 && prev[T] < last[T] && !stop.Unrecognised?
    requires !StopMet(stop, value, t0, prev) && StopMet(stop, value, t0, last)
    ensures stop.Apogee? ==> prev[VZ] != last[VZ]
    ensures stop.Impact? || stop.BelowAltitude? ==> prev[Z] != last[Z]
    ensures 0.0 < TransitionFraction(stop, value, t0, prev, last) <= 1.0
    ensures Reached(stop, value, t0, Lerp(prev, last, TransitionFraction(stop, value, t0, prev, last)))
  {
    var t1, t2 := prev[T], last[T];
    match stop
    case Apogee =>
      ApogeeTimeCancels(t1, t2, prev[VZ], last[VZ]);
      CrossingExact(0.0, prev[VZ], last[VZ]);
    case Impact =>
      HeightTimeCancels(t1, t2, 0.0, prev[Z], last[Z]);
      CrossingExact(0.0, prev[Z], last[Z]);
    case BelowAltitude =>
      HeightTimeCancels(t1, t2, value, prev[Z], last[Z]);
      CrossingExact(value, prev[Z], last[Z]);
    case AfterDelay =>
      DelayCancels(t0 + value, t1, t2);
      CrossingExact(t0 + value, t1, t2);
  }

  /** Going through the interpolated time of a height crossing and back
      gives the plain crossing fraction. */
  lemma HeightTimeCancels(t1: real, t2: real, target: real, z1: real, z2: real)
    requires t1 != t2 && z1 != z2
    ensures TimeFraction(HeightTime(t1, t2, target, z1, z2), t1, t2) == CrossingFraction(target, z1, z2)
  {
    var q := CrossingFraction(target, z1, z2);
    var p := (target - z1) * (t2 - t1);
    assert q * (z2 - z1) == target - z1;
    assert p == q * (t2 - t1) * (z2 - z1);
    DivOf(p, z2 - z1, q * (t2 - t1));
    assert HeightTime(t1, t2, target, z1, z2) - t1 == q * (t2 - t1);
    DivOf(q * (t2 - t1), t2 - t1, q);
  }

  /** The same for the apogee formula, written with a subtraction. */
  lemma ApogeeTimeCancels(t1: real, t2: real, v1: real, v2: real)
    requires t1 != t2 && v1 != v2
    ensures TimeFraction(ApogeeTime(t1, t2, v1, v2), t1, t2) == CrossingFraction(0.0, v1, v2)
  {
    var q := CrossingFraction(0.0, v1, v2);
    var p := v1 * (t2 - t1);
    assert q * (v2 - v1) == 0.0 - v1;
    assert p == -q * (t2 - t1) * (v2 - v1);
    DivOf(p, v2 - v1, -q * (t2 - t1));
    assert ApogeeTime(t1, t2, v1, v2) - t1 == q * (t2 - t1);
    DivOf(q * (t2 - t1), t2 - t1, q);
  }

  /** The delay's fraction is the crossing fraction of time itself. */
  lemma DelayCancels(tStop: real, t1: real, t2: real)
    requires t1 != t2
    ensures TimeFraction(tStop, t1, t2) == CrossingFraction(tStop, t1, t2)
  {
  }

  /** The stop condition holds at none of the states. */
  predicate NoneMet(stop: StopCondition, value: real, t0: real, states: seq<State>)
  {
    forall k :: 0 <= k < |states| ==> |states[k]| >= 7 && !StopMet(stop, value, t0, states[k])
  }

  lemma NoneMetAppend(stop: StopCondition, value: real, t0: real, states: seq<State>, s: State)
    requires NoneMet(stop, value, t0, states) && |s| >= 7 && !StopMet(stop, value, t0, s)
    ensures NoneMet(stop, value, t0, states + [s])
  {
  }

  /** The stop condition holds at the last raw state and at none before it. */
  predicate StopsAtLast(stop: StopCondition, value: real, t0: real, raw: seq<State>)
  {
    |raw| >= 1 && |raw[|raw| - 1]| >= 7 && StopMet(stop, value, t0, raw[|raw| - 1]) &&
    NoneMet(stop, value, t0, raw[..|raw| - 1])
  }

  /** Lines 126-159: with at least two raw states the last is replaced by the
      interpolation at the transition, which the stop condition then reaches
      exactly; a single raw state is returned as it is. */
  function Interpolate(stop: StopCondition, value: real, t0: real, dt: real, raw: seq<State>): (r: seq<State>)
    requires dt > 0.0 && !stop.Unrecognised? && Timed(t0, dt, raw) && StopsAtLast(stop, value, t0, raw)
    ensures |r| == |raw| && r[..|raw| - 1] == raw[..|raw| - 1]
    ensures |raw| == 1 ==> r == raw
    ensures |raw| >= 2 ==> |r[|raw| - 1]| == 10 && Reached(stop, value, t0, r[|raw| - 1])
    ensures |raw| >= 2 ==> Bracketed(raw[|raw| - 2], raw[|raw| - 1], r[|raw| - 1])
  {
    if |raw| >= 2 then
      var prev, last := raw[|raw| - 2], raw[|raw| - 1];
      TimedIncreasing(t0, dt, raw, |raw| - 2, |raw| - 1);
      TransitionExact(stop, value, t0, prev, last);
      LerpBetween(prev, last, TransitionFraction(stop, value, t0, prev, last));
      InterpolateLast(raw, TransitionFraction(stop, value, t0, prev, last))
    else
      raw
  }

  /** `sim_coast`: steps from `init` until the stop condition holds and
      interpolates the last state when there are at least two. The source's
      loop is unbounded; here at most `maxSteps` steps are taken. */
  method SimCoast(m: Math, rocket: Rocket, env: Environment, init: State, maxSteps: nat,
                  stop: StopCondition := Apogee, value: real := 0.0, dt: real := DEFAULT_TIMESTEP)
    returns (r: Result<seq<State>>, ghost raw: seq<State>)
    requires dt > 0.0
    ensures |init| < 7 ==> r == Err(IndexOutOfRange)
    ensures |init| >= 7 && stop.Unrecognised? ==> r == Err(UnboundVariable)
    ensures |init| >= 7 && !stop.Unrecognised? && StopMet(stop, value, init[T], init) ==>
              r == Err(StopConditionAlreadyMet)
    ensures |init| >= 7 && !stop.Unrecognised? && !StopMet(stop, value, init[T], init) ==>
              r.Ok? || r == Err(StepLimit)
    ensures r.Ok? || r == Err(StepLimit) ==>
              |init| >= 7 && !stop.Unrecognised? && |raw| <= maxSteps &&
              Stepped(CoastStep(m, rocket, env, dt), init, raw) && Timed(init[T], dt, raw)
    ensures r == Err(StepLimit) ==> |raw| == maxSteps && NoneMet(stop, value, init[T], raw)
    ensures r.Ok? ==>
              StopsAtLast(stop, value, init[T], raw) && r.value == Interpolate(stop, value, init[T], dt, raw)
  {
    raw := [];
    if |init| < 7 {
      return Err(IndexOutOfRange), raw;
    }
    if stop.Unrecognised? {
      return Err(UnboundVariable), raw;
    }
    if StopMet(stop, value, init[T], init) {
      return Err(StopConditionAlreadyMet), raw;
    }
    var stopped, states := CoastLoop(m, rocket, env, init, maxSteps, stop, value, dt);
    raw := states;
    if !stopped {
      return Err(StepLimit), raw;
    }
    r := Ok(Interpolate(stop, value, init[T], dt, states));
  }

  /** What the loop of `sim_coast` knows about its states `states` and its
      current state `s` at the top of each iteration. */
  ghost predicate CoastProgress(m: Math, rocket: Rocket, env: Environment, dt: real,
                                stop: StopCondition, value: real, init: State, states: seq<State>, s: State)
  {
    |init| >= 7 && |s| >= 7 && s == Before(init, states, |states|) &&
    Stepped(CoastStep(m, rocket, env, dt), init, states) && Timed(init[T], dt, states) &&
    NoneMet(stop, value, init[T], if states == [] then [] else states[..|states| - 1])
  }

  /** One more pass of the loop body from a state that does not stop. */
  lemma CoastProgressStep(m: Math, rocket: Rocket, env: Environment, dt: real,
                          stop: StopCondition, value: real, init: State, states: seq<State>, s: State)
    requires CoastProgress(m, rocket, env, dt, stop, value, init, states, s)
    requires !StopMet(stop, value, init[T], s)
    ensures NoneMet(stop, value, init[T], states)
    ensures CoastProgress(m, rocket, env, dt, stop, value, init, states + [Next(m, rocket, env, dt, s)],
                          Next(m, rocket, env, dt, s))
  {
    var next := Next(m, rocket, env, dt, s);
    var before := if states == [] then [] else states[..|states| - 1];
    NoneMetAppend(stop, value, init[T], before, s);
    if states != [] {
      SplitLast(states);
    }
    SteppedExtend(CoastStep(m, rocket, env, dt), init, states, next);
    TimedExtend(dt, init, states, next);
    assert (states + [next])[..|states|] == states;
  }

  /** Lines 76-123: the loop of `sim_coast`, from a state where the stop
      condition does not hold yet; `stopped` is false when the step bound ran out. */
  method CoastLoop(m: Math, rocket: Rocket, env: Environment, init: State, maxSteps: nat,
                   stop: StopCondition, value: real, dt: real)
    returns (stopped: bool, states: seq<State>)
    requires dt > 0.0 && |init| >= 7 && !stop.Unrecognised? && !StopMet(stop, value, init[T], init)
    ensures |states| <= maxSteps
    ensures Stepped(CoastStep(m, rocket, env, dt), init, states) && Timed(init[T], dt, states)
    ensures stopped ==> StopsAtLast(stop, value, init[T], states)
    ensures !stopped ==> |states| == maxSteps && NoneMet(stop, value, init[T], states)
  {
    states := [];
    var s := init;
    while !StopMet(stop, value, init[T], s)
      invariant |states| <= maxSteps
      invariant CoastProgress(m, rocket, env, dt, stop, value, init, states, s)
      decreases maxSteps - |states|
    {
      CoastProgressStep(m, rocket, env, dt, stop, value, init, states, s);
      if |states| == maxSteps {
        return false, states;
      }
      s := Next(m, rocket, env, dt, s);
      states := states + [s];
    }
    return true, states;
  }
}
