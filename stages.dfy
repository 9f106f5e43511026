// rocketflightsim/flight_stages_combined.py: the phases chained into whole
// flights. Each run builds one flight path by appending to a list and hands
// the last state so far to the next phase.
module StagesCombined {
  import opened Base
  import opened Dict
  import opened StateVectors
  import opened MotorModel
  import opened RocketModel
  import opened Descriptors
  import opened IgnitionToLiftoff
  import opened Guided
  import opened UnguidedBoost
  import Coast
  import opened ParachuteDescent

  /** An element of `flightpath`: the list starts with ten plain zeros and
      then holds state tuples. */
  datatype Entry = Scalar(x: real) | Vector(s: State)

  /** The states of one phase as flight-path entries, in order. */
  function Vectors(states: seq<State>): (r: seq<Entry>)
    ensures |r| == |states|
    ensures forall i :: 0 <= i < |states| ==> r[i] == Vector(states[i])
  {
    if states == [] then [] else Vectors(states[..|states| - 1]) + [Vector(states[|states| - 1])]
  }

  /** The state appended at the liftoff time (lines 35, 69, 103). */
  function LiftoffState(tLiftoff: real): (s: State)
    ensures |s| == 10 && s[T] == tLiftoff
    ensures forall i :: 1 <= i < 10 ==> s[i] == 0.0
  {
    [tLiftoff, 0.0, 0.0, 0.0, 0.0, 0.0, 0.0, 0.0, 0.0, 0.0]
  }

  /** The flight path before the guided phase: ten zeros, then the liftoff
      state (lines 33-35, 67-69, 101-103). */
  function Launch(tLiftoff: real): (r: seq<Entry>)
    ensures |r| == 11 && r[10] == Vector(LiftoffState(tLiftoff))
    ensures forall i :: 0 <= i < 10 ==> r[i] == Scalar(0.0)
  {
    seq(10, i => Scalar(0.0)) + [Vector(LiftoffState(tLiftoff))]
  }

  /** The descents of the landing run, one after the other. */
  function Flatten(pieces: seq<seq<State>>): seq<Entry>
  {
    if pieces == [] then [] else Flatten(pieces[..|pieces| - 1]) + Vectors(pieces[|pieces| - 1])
  }

  lemma PrefixExtend(chutes: seq<(Parachute, DescentStop, real)>, i: nat)
    requires i < |chutes|
    ensures chutes[..i] + [chutes[i]] == chutes[..i + 1]
  {
  }

  lemma FlattenExtend(pieces: seq<seq<State>>, piece: seq<State>)
    ensures Flatten(pieces + [piece]) == Flatten(pieces) + Vectors(piece)
  {
    assert (pieces + [piece])[..|pieces|] == pieces;
  }

  /** A completed guided phase from liftoff at tLiftoff: its raw states and
      the states it returns, the last one at the clearance height. */
  ghost predicate GuidedRun(m: Math, rocket: Rocket, env: Environment, lp: Launchpad, thrust: Table, dt: real,
                            tLiftoff: real, raw: seq<State>, states: seq<State>)
  {
    |raw| >= 2 && Timed(tLiftoff, dt, raw) &&
    Stepped(GuidedStep(m, rocket, env, lp, thrust, dt), RailSeed(tLiftoff), raw) &&
    raw[|raw| - 2][Z] < ClearanceHeight(rocket, lp) <= raw[|raw| - 1][Z] &&
    states == InterpolateClearance(lp, ClearanceHeight(rocket, lp), raw)
  }

  /** A completed boost phase from init, ending at burnout. */
  ghost predicate BoostRun(m: Math, rocket: Rocket, env: Environment, thrust: Table, dt: real,
                           init: State, raw: seq<State>, states: seq<State>)
  {
    |init| >= 7 && |raw| >= 2 && Timed(init[T], dt, raw) &&
    Stepped(BoostStep(m, rocket, env, thrust, dt), init, raw) &&
    raw[|raw| - 2][T] < rocket.motor.burnTime <= raw[|raw| - 1][T] &&
    states == InterpolateBurnout(rocket.motor.burnTime, raw)
  }

  /** A completed coast from init that stops as `stop` (value 0) says. */
  ghost predicate CoastRun(m: Math, rocket: Rocket, env: Environment, stop: Coast.StopCondition, dt: real,
                           init: State, raw: seq<State>, states: seq<State>)
  {
    dt > 0.0 && !stop.Unrecognised? && |init| >= 7 && Timed(init[T], dt, raw) &&
    Stepped(Coast.CoastStep(m, rocket, env, dt), init, raw) &&
    Coast.StopsAtLast(stop, 0.0, init[T], raw) &&
    states == Coast.Interpolate(stop, 0.0, init[T], dt, raw)
  }

  /** What one `sim_parachute` run leaves behind besides its states. */
  datatype Descent = Descent(prefix: seq<State>, coastRaw: seq<State>, start: State, raw: seq<State>)

  /** A completed `sim_parachute` run from init under parachute c.0 with stop
      condition c.1 and value c.2, returning piece. */
  ghost predicate Descended(m: Math, rocket: Rocket, env: Environment, dt: real, init: State,
                            c: (Parachute, DescentStop, real), d: Descent, piece: seq<State>)
  {
    var (chute, stop, value) := c;
    !stop.Unrecognised? && |init| >= 7 && |d.start| >= 7 &&
    (GateOf(chute) == NoGate || GateOf(chute) == DelayOnly) &&
    (GateOf(chute) == NoGate ==> |init| == 7 && d.prefix == [] && d.start == init) &&
    (GateOf(chute) == DelayOnly ==>
       Stepped(Coast.CoastStep(m, rocket, env, DEFAULT_TIMESTEP), init, d.coastRaw) &&
       Timed(init[T], DEFAULT_TIMESTEP, d.coastRaw) &&
       Coast.StopsAtLast(Coast.AfterDelay, chute.deployDelay, init[T], d.coastRaw) &&
       d.prefix == Coast.Interpolate(Coast.AfterDelay, chute.deployDelay, init[T], DEFAULT_TIMESTEP, d.coastRaw) &&
       |d.prefix| >= 1 && |d.prefix[|d.prefix| - 1]| >= 7 && d.start == d.prefix[|d.prefix| - 1][..7]) &&
    Stepped(DescentStep(m, rocket, env, chute, dt), d.start, d.raw) && Timed(d.start[T], dt, d.raw) &&
    piece == d.prefix + d.raw
  }

  /** Every parachute of the list ran from init, each to its own piece. */
  ghost predicate AllDescended(m: Math, rocket: Rocket, env: Environment, dt: real, init: State,
                               chutes: seq<(Parachute, DescentStop, real)>, runs: seq<Descent>,
                               pieces: seq<seq<State>>)
    decreases |chutes|
  {
    |runs| == |pieces| == |chutes| &&
    (chutes != [] ==>
       var n := |chutes| - 1;
       AllDescended(m, rocket, env, dt, init, chutes[..n], runs[..n], pieces[..n]) &&
       Descended(m, rocket, env, dt, init, chutes[n], runs[n], pieces[n]))
  }

  lemma AllDescendedExtend(m: Math, rocket: Rocket, env: Environment, dt: real, init: State,
                           chutes: seq<(Parachute, DescentStop, real)>, runs: seq<Descent>,
                           pieces: seq<seq<State>>, c: (Parachute, DescentStop, real), d: Descent, piece: seq<State>)
    requires AllDescended(m, rocket, env, dt, init, chutes, runs, pieces)
    requires Descended(m, rocket, env, dt, init, c, d, piece)
    ensures AllDescended(m, rocket, env, dt, init, chutes + [c], runs + [d], pieces + [piece])
  {
    assert (chutes + [c])[..|chutes|] == chutes;
    assert (runs + [d])[..|runs|] == runs;
    assert (pieces + [piece])[..|pieces|] == pieces;
  }

  /** Each parachute of the landing run, the i-th one included, descended
      from init. */
  lemma {:induction false} DescendedAt(m: Math, rocket: Rocket, env: Environment, dt: real, init: State,
                                       chutes: seq<(Parachute, DescentStop, real)>, runs: seq<Descent>,
                                       pieces: seq<seq<State>>, i: nat)
    requires AllDescended(m, rocket, env, dt, init, chutes, runs, pieces) && i < |chutes|
    ensures |runs| == |pieces| == |chutes|
    ensures Descended(m, rocket, env, dt, init, chutes[i], runs[i], pieces[i])
    decreases |chutes|
  {
    var n := |chutes| - 1;
    if i < n {
      DescendedAt(m, rocket, env, dt, init, chutes[..n], runs[..n], pieces[..n], i);
    }
  }

  /** A coast run ends on a full ten-component state. */
  lemma CoastEndsFull(m: Math, rocket: Rocket, env: Environment, stop: Coast.StopCondition, dt: real,
                      init: State, raw: seq<State>, states: seq<State>)
    requires CoastRun(m, rocket, env, stop, dt, init, raw, states) && |states| >= 1
    ensures |states[|states| - 1]| == 10
  {
    if |raw| == 1 {
      assert Coast.CoastStep(m, rocket, env, dt)(Before(init, raw, 0), 0) == Ok(raw[0]);
    }
  }

  /** A parachute with neither a deployment altitude nor a delay unpacks its
      start state as seven values, so from a full ten-component state (the
      apogee of the landing run) it never completes. */
  lemma {:induction false} NoGateNeverDescends(m: Math, rocket: Rocket, env: Environment, dt: real, init: State,
                                               chutes: seq<(Parachute, DescentStop, real)>, runs: seq<Descent>,
                                               pieces: seq<seq<State>>)
    requires AllDescended(m, rocket, env, dt, init, chutes, runs, pieces) && |init| != 7
    ensures forall i :: 0 <= i < |chutes| ==> GateOf(chutes[i].0) != NoGate
  {
    forall i | 0 <= i < |chutes| ensures GateOf(chutes[i].0) != NoGate {
      DescendedAt(m, rocket, env, dt, init, chutes, runs, pieces, i);
    }
  }

  /** The last entry of a flight path that ends with a non-empty phase is
      that phase's last state. */
  lemma LastOfPhase(path: seq<Entry>, states: seq<State>)
    requires |states| >= 1
    ensures |path + Vectors(states)| >= 1
    ensures (path + Vectors(states))[|path + Vectors(states)| - 1] == Vector(states[|states| - 1])
  {
  }

  /** The end of a coast to apogee: vertical velocity not positive, and
      exactly zero once the last state is interpolated (at least two raw
      states). */
  lemma ApogeeAtEnd(t0: real, dt: real, raw: seq<State>)
    requires dt > 0.0 && Timed(t0, dt, raw) && Coast.StopsAtLast(Coast.Apogee, 0.0, t0, raw)
    ensures var states := Coast.Interpolate(Coast.Apogee, 0.0, t0, dt, raw);
      |states| >= 1 && |states[|states| - 1]| >= 7 && states[|states| - 1][VZ] <= 0.0 &&
      (|raw| >= 2 ==> states[|states| - 1][VZ] == 0.0)
  {
    var states := Coast.Interpolate(Coast.Apogee, 0.0, t0, dt, raw);
    if |raw| >= 2 {
      assert Coast.Reached(Coast.Apogee, 0.0, t0, states[|raw| - 1]);
    } else {
      assert states == raw;
    }
  }

  /** The end of a coast to impact: height not positive, and exactly zero
      once the last state is interpolated. */
  lemma ImpactAtEnd(t0: real, dt: real, raw: seq<State>)
    requires dt > 0.0 && Timed(t0, dt, raw) && Coast.StopsAtLast(Coast.Impact, 0.0, t0, raw)
    ensures var states := Coast.Interpolate(Coast.Impact, 0.0, t0, dt, raw);
      |states| >= 1 && |states[|states| - 1]| >= 7 && states[|states| - 1][Z] <= 0.0 &&
      (|raw| >= 2 ==> states[|states| - 1][Z] == 0.0)
  {
    var states := Coast.Interpolate(Coast.Impact, 0.0, t0, dt, raw);
    if |raw| >= 2 {
      assert Coast.Reached(Coast.Impact, 0.0, t0, states[|raw| - 1]);
    } else {
      assert states == raw;
    }
  }

  /** The guided phase as the combined runs call it (lines 36, 70, 104):
      from the liftoff time, with its warning dropped. */
  method RailPhase(m: Math, rocket: Rocket, env: Environment, lp: Launchpad, tLiftoff: real, maxSteps: nat, dt: real)
    returns (r: Result<seq<State>>, ghost raw: seq<State>)
    requires dt > 0.0
    ensures r.Err? ==> r.error in {IndexOutOfRange, EmptySequence, StepLimit}
    ensures r.Ok? ==> GuidedRun(m, rocket, env, lp, rocket.motor.thrustCurve, dt, tLiftoff, raw, r.value) &&
                      |r.value| >= 2 && |r.value[|r.value| - 1]| == 10
  {
    var warned;
    r, warned, raw := SimLiftoffToRailClearance(m, rocket, env, lp, tLiftoff, maxSteps, dt);
  }

  /** The boost as the combined runs call it (lines 38, 72, 106), from a
      full state. */
  method BoostPhase(m: Math, rocket: Rocket, env: Environment, init: State, dt: real)
    returns (r: Result<seq<State>>, ghost raw: seq<State>)
    requires dt > 0.0 && |init| >= 7
    ensures r.Err? ==> r.error in {IndexOutOfRange, EmptySequence}
    ensures r.Ok? ==> BoostRun(m, rocket, env, rocket.motor.thrustCurve, dt, init, raw, r.value) &&
                      |r.value| >= 2 && |r.value[|r.value| - 1]| == 10
  {
    r, raw := SimUnguidedBoost(m, rocket, env, init, dt);
  }

  /** Lines 33-39 (and 67-73, 101-107): liftoff, the guided phase from the
      liftoff time, and the boost from the guided phase's last state, each
      appended to the flight path. The liftoff search inserts the clamp
      release time into the motor's thrust curve, and the later phases read
      the curve so changed. */
  method Ascend(m: Math, rocket: Rocket, env: Environment, lp: Launchpad, maxSteps: nat, dt: real)
    returns (r: Result<seq<Entry>>, ghost tLiftoff: real, ghost guidedRaw: seq<State>, ghost guided: seq<State>,
             ghost boostRaw: seq<State>, ghost boost: seq<State>)
    requires dt > 0.0 && IsDict(rocket.motor.thrustCurve) && IsDict(rocket.motor.fuelMassCurve)
    modifies rocket.motor
    ensures rocket.motor.thrustCurve ==
              ThrustCurveAfter(rocket.dryMass, rocket.motor.fuelMassCurve, old(rocket.motor.thrustCurve),
                               rocket.motor.burnTime, env.localGravity * lp.railUnitVectorZ,
                               lp.holdDownClampReleaseTime)
    ensures LiftoffTime(m, rocket.dryMass, rocket.motor.fuelMassCurve, old(rocket.motor.thrustCurve), rocket.motor.burnTime,
                          env.localGravity * lp.railUnitVectorZ, lp.holdDownClampForce, lp.holdDownClampReleaseTime).Err? ==>
              r == Err(LiftoffTime(m, rocket.dryMass, rocket.motor.fuelMassCurve, old(rocket.motor.thrustCurve), rocket.motor.burnTime,
                          env.localGravity * lp.railUnitVectorZ, lp.holdDownClampForce, lp.holdDownClampReleaseTime).error)
    ensures r.Ok? ==>
              LiftoffTime(m, rocket.dryMass, rocket.motor.fuelMassCurve, old(rocket.motor.thrustCurve), rocket.motor.burnTime,
                          env.localGravity * lp.railUnitVectorZ, lp.holdDownClampForce, lp.holdDownClampReleaseTime) == Ok(tLiftoff) &&
              GuidedRun(m, rocket, env, lp, rocket.motor.thrustCurve, dt, tLiftoff, guidedRaw, guided) &&
              |guided| >= 2 &&
              BoostRun(m, rocket, env, rocket.motor.thrustCurve, dt, guided[|guided| - 1], boostRaw, boost) &&
              |boost| >= 2 &&
              r.value == Launch(tLiftoff) + Vectors(guided) + Vectors(boost)
  {
    tLiftoff, guidedRaw, guided, boostRaw, boost := 0.0, [], [], [], [];
    var liftoff := SimIgnitionToLiftoff(m, rocket, env, lp);
    if liftoff.Err? {
      return Err(liftoff.error), tLiftoff, guidedRaw, guided, boostRaw, boost;
    }
    tLiftoff := liftoff.value;
    var flightpath := Launch(liftoff.value);
    var railed, railRaw := RailPhase(m, rocket, env, lp, liftoff.value, maxSteps, dt);
    guidedRaw := railRaw;
    if railed.Err? {
      return Err(railed.error), tLiftoff, guidedRaw, guided, boostRaw, boost;
    }
    guided := railed.value;
    flightpath := flightpath + Vectors(railed.value);
    var boosted, burnRaw := BoostPhase(m, rocket, env, railed.value[|railed.value| - 1], dt);
    boostRaw := burnRaw;
    if boosted.Err? {
      return Err(boosted.error), tLiftoff, guidedRaw, guided, boostRaw, boost;
    }
    boost := boosted.value;
    flightpath := flightpath + Vectors(boosted.value);
    r := Ok(flightpath);
  }

  /** `flight_sim_ignition_to_apogee` (lines 13-43): the ascent followed by a
      coast to apogee from the boost's last state; the flight path ends at
      apogee. */
  method SimIgnitionToApogee(m: Math, rocket: Rocket, env: Environment, lp: Launchpad, maxSteps: nat,
                             dt: real := DEFAULT_TIMESTEP)
    returns (r: Result<seq<Entry>>, ghost tLiftoff: real, ghost guidedRaw: seq<State>, ghost guided: seq<State>,
             ghost boostRaw: seq<State>, ghost boost: seq<State>, ghost coastRaw: seq<State>,
             ghost coast: seq<State>)
    requires dt > 0.0 && IsDict(rocket.motor.thrustCurve) && IsDict(rocket.motor.fuelMassCurve)
    modifies rocket.motor
    ensures rocket.motor.thrustCurve ==
              ThrustCurveAfter(rocket.dryMass, rocket.motor.fuelMassCurve, old(rocket.motor.thrustCurve),
                               rocket.motor.burnTime, env.localGravity * lp.railUnitVectorZ,
                               lp.holdDownClampReleaseTime)
    ensures LiftoffTime(m, rocket.dryMass, rocket.motor.fuelMassCurve, old(rocket.motor.thrustCurve), rocket.motor.burnTime,
                          env.localGravity * lp.railUnitVectorZ, lp.holdDownClampForce, lp.holdDownClampReleaseTime).Err? ==>
              r == Err(LiftoffTime(m, rocket.dryMass, rocket.motor.fuelMassCurve, old(rocket.motor.thrustCurve), rocket.motor.burnTime,
                          env.localGravity * lp.railUnitVectorZ, lp.holdDownClampForce, lp.holdDownClampReleaseTime).error)
    ensures r.Ok? ==>
              LiftoffTime(m, rocket.dryMass, rocket.motor.fuelMassCurve, old(rocket.motor.thrustCurve), rocket.motor.burnTime,
                          env.localGravity * lp.railUnitVectorZ, lp.holdDownClampForce, lp.holdDownClampReleaseTime) == Ok(tLiftoff) &&
              GuidedRun(m, rocket, env, lp, rocket.motor.thrustCurve, dt, tLiftoff, guidedRaw, guided) &&
              |guided| >= 2 &&
              BoostRun(m, rocket, env, rocket.motor.thrustCurve, dt, guided[|guided| - 1], boostRaw, boost) &&
              |boost| >= 2 &&
              CoastRun(m, rocket, env, Coast.Apogee, dt, boost[|boost| - 1], coastRaw, coast) &&
              r.value == Launch(tLiftoff) + Vectors(guided) + Vectors(boost) + Vectors(coast)
    ensures r.Ok? ==>
              |r.value| >= 1 && r.value[|r.value| - 1].Vector? && |r.value[|r.value| - 1].s| >= 7 &&
              r.value[|r.value| - 1].s[VZ] <= 0.0 && (|coastRaw| >= 2 ==> r.value[|r.value| - 1].s[VZ] == 0.0)
  {
    coastRaw, coast := [], [];
    var ascent;
    ascent, tLiftoff, guidedRaw, guided, boostRaw, boost := Ascend(m, rocket, env, lp, maxSteps, dt);
    if ascent.Err? {
      return Err(ascent.error), tLiftoff, guidedRaw, guided, boostRaw, boost, coastRaw, coast;
    }
    var flightpath := ascent.value;
    LastOfPhase(Launch(tLiftoff) + Vectors(guided), boost);
    var last := flightpath[|flightpath| - 1].s;
    var coasted, apogeeRaw := CoastPhase(m, rocket, env, last, Coast.Apogee, maxSteps, dt);
    coastRaw := apogeeRaw;
    if coasted.Err? {
      return Err(coasted.error), tLiftoff, guidedRaw, guided, boostRaw, boost, coastRaw, coast;
    }
    coast := coasted.value;
    ApogeeAtEnd(last[T], dt, apogeeRaw);
    LastOfPhase(flightpath, coasted.value);
    flightpath := flightpath + Vectors(coasted.value);
    assert flightpath[|flightpath| - 1] == Vector(coast[|coast| - 1]);
    r := Ok(flightpath);
  }

  /** `flight_sim_ballistic_recovery` (lines 81-111): as the ascent, but the
      coast runs until impact; the flight path ends on the ground. */
  method SimBallisticRecovery(m: Math, rocket: Rocket, env: Environment, lp: Launchpad, maxSteps: nat,
                              dt: real := DEFAULT_TIMESTEP)
    returns (r: Result<seq<Entry>>, ghost tLiftoff: real, ghost guidedRaw: seq<State>, ghost guided: seq<State>,
             ghost boostRaw: seq<State>, ghost boost: seq<State>, ghost coastRaw: seq<State>,
             ghost coast: seq<State>)
    requires dt > 0.0 && IsDict(rocket.motor.thrustCurve) && IsDict(rocket.motor.fuelMassCurve)
    modifies rocket.motor
    ensures rocket.motor.thrustCurve ==
              ThrustCurveAfter(rocket.dryMass, rocket.motor.fuelMassCurve, old(rocket.motor.thrustCurve),
                               rocket.motor.burnTime, env.localGravity * lp.railUnitVectorZ,
                               lp.holdDownClampReleaseTime)
    ensures LiftoffTime(m, rocket.dryMass, rocket.motor.fuelMassCurve, old(rocket.motor.thrustCurve), rocket.motor.burnTime,
                          env.localGravity * lp.railUnitVectorZ, lp.holdDownClampForce, lp.holdDownClampReleaseTime).Err? ==>
              r == Err(LiftoffTime(m, rocket.dryMass, rocket.motor.fuelMassCurve, old(rocket.motor.thrustCurve), rocket.motor.burnTime,
                          env.localGravity * lp.railUnitVectorZ, lp.holdDownClampForce, lp.holdDownClampReleaseTime).error)
    ensures r.Ok? ==>
              LiftoffTime(m, rocket.dryMass, rocket.motor.fuelMassCurve, old(rocket.motor.thrustCurve), rocket.motor.burnTime,
                          env.localGravity * lp.railUnitVectorZ, lp.holdDownClampForce, lp.holdDownClampReleaseTime) == Ok(tLiftoff) &&
              GuidedRun(m, rocket, env, lp, rocket.motor.thrustCurve, dt, tLiftoff, guidedRaw, guided) &&
              |guided| >= 2 &&
              BoostRun(m, rocket, env, rocket.motor.thrustCurve, dt, guided[|guided| - 1], boostRaw, boost) &&
              |boost| >= 2 &&
              CoastRun(m, rocket, env, Coast.Impact, dt, boost[|boost| - 1], coastRaw, coast) &&
              r.value == Launch(tLiftoff) + Vectors(guided) + Vectors(boost) + Vectors(coast)
    ensures r.Ok? ==>
              |r.value| >= 1 && r.value[|r.value| - 1].Vector? && |r.value[|r.value| - 1].s| >= 7 &&
              r.value[|r.value| - 1].s[Z] <= 0.0 && (|coastRaw| >= 2 ==> r.value[|r.value| - 1].s[Z] == 0.0)
  {
    coastRaw, coast := [], [];
    var ascent;
    ascent, tLiftoff, guidedRaw, guided, boostRaw, boost := Ascend(m, rocket, env, lp, maxSteps, dt);
    if ascent.Err? {
      return Err(ascent.error), tLiftoff, guidedRaw, guided, boostRaw, boost, coastRaw, coast;
    }
    var flightpath := ascent.value;
    LastOfPhase(Launch(tLiftoff) + Vectors(guided), boost);
    var last := flightpath[|flightpath| - 1].s;
    var coasted, impactRaw := CoastPhase(m, rocket, env, last, Coast.Impact, maxSteps, dt);
    coastRaw := impactRaw;
    if coasted.Err? {
      return Err(coasted.error), tLiftoff, guidedRaw, guided, boostRaw, boost, coastRaw, coast;
    }
    coast := coasted.value;
    ImpactAtEnd(last[T], dt, impactRaw);
    LastOfPhase(flightpath, coasted.value);
    flightpath := flightpath + Vectors(coasted.value);
    assert flightpath[|flightpath| - 1] == Vector(coast[|coast| - 1]);
    r := Ok(flightpath);
  }

  /** The coast as the combined runs call it (lines 40, 74, 108), from a
      full state and with the value 0. */
  method CoastPhase(m: Math, rocket: Rocket, env: Environment, init: State, stop: Coast.StopCondition,
                    maxSteps: nat, dt: real)
    returns (r: Result<seq<State>>, ghost raw: seq<State>)
    requires dt > 0.0 && |init| >= 7 && !stop.Unrecognised?
    ensures r.Err? ==> r.error in {StopConditionAlreadyMet, StepLimit}
    ensures r.Ok? ==> CoastRun(m, rocket, env, stop, dt, init, raw, r.value)
  {
    r, raw := Coast.SimCoast(m, rocket, env, init, maxSteps, stop, 0.0, dt);
  }

  /** One `sim_parachute` call of the landing run (line 76). */
  method ParachutePhase(m: Math, rocket: Rocket, env: Environment, init: State, c: (Parachute, DescentStop, real),
                        maxSteps: nat, dt: real)
    returns (r: Result<seq<State>>, ghost d: Descent)
    ensures GateOf(c.0) == NoGate && |init| != 7 ==> r == Err(UnpackMismatch)
    ensures r.Ok? ==> Descended(m, rocket, env, dt, init, c, d, r.value)
  {
    var (chute, stop, value) := c;
    ghost var prefix, coastRaw, start, raw;
    r, prefix, coastRaw, start, raw := SimParachute(m, rocket, env, init, chute, maxSteps, stop, value, dt);
    d := Descent(prefix, coastRaw, start, raw);
  }

  /** Lines 75-77: each parachute in turn from the same apogee state, its
      states appended in order. */
  method Descents(m: Math, rocket: Rocket, env: Environment, apogee: State,
                  chutes: seq<(Parachute, DescentStop, real)>, maxSteps: nat, dt: real)
    returns (r: Result<seq<Entry>>, ghost runs: seq<Descent>, ghost pieces: seq<seq<State>>)
    ensures r.Ok? ==> r.value == Flatten(pieces) && AllDescended(m, rocket, env, dt, apogee, chutes, runs, pieces)
  {
    runs, pieces := [], [];
    var flightpath := [];
    var i := 0;
    while i < |chutes|
      invariant 0 <= i <= |chutes|
      invariant AllDescended(m, rocket, env, dt, apogee, chutes[..i], runs, pieces)
      invariant flightpath == Flatten(pieces)
    {
      var descended, run := ParachutePhase(m, rocket, env, apogee, chutes[i], maxSteps, dt);
      if descended.Err? {
        return Err(descended.error), runs, pieces;
      }
      FlattenExtend(pieces, descended.value);
      AllDescendedExtend(m, rocket, env, dt, apogee, chutes[..i], runs, pieces, chutes[i], run, descended.value);
      PrefixExtend(chutes, i);
      flightpath := flightpath + Vectors(descended.value);
      runs := runs + [run];
      pieces := pieces + [descended.value];
      i := i + 1;
    }
    assert chutes[..i] == chutes;
    r := Ok(flightpath);
  }

  /** `flight_sim_ignition_to_landing` (lines 45-79): the ascent, a coast to
      apogee that is not appended, then each parachute in turn, every one
      started from the apogee state rather than from where the previous
      parachute left off. */
  method SimIgnitionToLanding(m: Math, rocket: Rocket, env: Environment, lp: Launchpad,
                              chutes: seq<(Parachute, DescentStop, real)>, maxSteps: nat,
                              dt: real := DEFAULT_TIMESTEP)
    returns (r: Result<seq<Entry>>, ghost tLiftoff: real, ghost guidedRaw: seq<State>, ghost guided: seq<State>,
             ghost boostRaw: seq<State>, ghost boost: seq<State>, ghost coastRaw: seq<State>,
             ghost coast: seq<State>, ghost runs: seq<Descent>, ghost pieces: seq<seq<State>>)
    requires dt > 0.0 && IsDict(rocket.motor.thrustCurve) && IsDict(rocket.motor.fuelMassCurve)
    modifies rocket.motor
    ensures rocket.motor.thrustCurve ==
              ThrustCurveAfter(rocket.dryMass, rocket.motor.fuelMassCurve, old(rocket.motor.thrustCurve),
                               rocket.motor.burnTime, env.localGravity * lp.railUnitVectorZ,
                               lp.holdDownClampReleaseTime)
    ensures LiftoffTime(m, rocket.dryMass, rocket.motor.fuelMassCurve, old(rocket.motor.thrustCurve), rocket.motor.burnTime,
                          env.localGravity * lp.railUnitVectorZ, lp.holdDownClampForce, lp.holdDownClampReleaseTime).Err? ==>
              r == Err(LiftoffTime(m, rocket.dryMass, rocket.motor.fuelMassCurve, old(rocket.motor.thrustCurve), rocket.motor.burnTime,
                          env.localGravity * lp.railUnitVectorZ, lp.holdDownClampForce, lp.holdDownClampReleaseTime).error)
    ensures r.Ok? ==>
              LiftoffTime(m, rocket.dryMass, rocket.motor.fuelMassCurve, old(rocket.motor.thrustCurve), rocket.motor.burnTime,
                          env.localGravity * lp.railUnitVectorZ, lp.holdDownClampForce, lp.holdDownClampReleaseTime) == Ok(tLiftoff) &&
              GuidedRun(m, rocket, env, lp, rocket.motor.thrustCurve, dt, tLiftoff, guidedRaw, guided) &&
              |guided| >= 2 &&
              BoostRun(m, rocket, env, rocket.motor.thrustCurve, dt, guided[|guided| - 1], boostRaw, boost) &&
              |boost| >= 2 &&
              CoastRun(m, rocket, env, Coast.Apogee, dt, boost[|boost| - 1], coastRaw, coast) && |coast| >= 1 &&
              AllDescended(m, rocket, env, dt, coast[|coast| - 1], chutes, runs, pieces) &&
              r.value == Launch(tLiftoff) + Vectors(guided) + Vectors(boost) + Flatten(pieces)
    ensures r.Ok? ==> forall i :: 0 <= i < |chutes| ==> GateOf(chutes[i].0) != NoGate
  {
    coastRaw, coast, runs, pieces := [], [], [], [];
    var ascent;
    ascent, tLiftoff, guidedRaw, guided, boostRaw, boost := Ascend(m, rocket, env, lp, maxSteps, dt);
    if ascent.Err? {
      return Err(ascent.error), tLiftoff, guidedRaw, guided, boostRaw, boost, coastRaw, coast, runs, pieces;
    }
    var flightpath := ascent.value;
    LastOfPhase(Launch(tLiftoff) + Vectors(guided), boost);
    var last := flightpath[|flightpath| - 1].s;
    var coasted, apogeeRaw := CoastPhase(m, rocket, env, last, Coast.Apogee, maxSteps, dt);
    coastRaw := apogeeRaw;
    if coasted.Err? {
      return Err(coasted.error), tLiftoff, guidedRaw, guided, boostRaw, boost, coastRaw, coast, runs, pieces;
    }
    coast := coasted.value;
    ApogeeAtEnd(last[T], dt, apogeeRaw);
    var apogee := coasted.value[|coasted.value| - 1];
    assert apogee == coast[|coast| - 1];
    var descents;
    descents, runs, pieces := Descents(m, rocket, env, apogee, chutes, maxSteps, dt);
    if descents.Err? {
      return Err(descents.error), tLiftoff, guidedRaw, guided, boostRaw, boost, coastRaw, coast, runs, pieces;
    }
    assert AllDescended(m, rocket, env, dt, coast[|coast| - 1], chutes, runs, pieces);
    CoastEndsFull(m, rocket, env, Coast.Apogee, dt, last, coastRaw, coast);
    NoGateNeverDescends(m, rocket, env, dt, apogee, chutes, runs, pieces);
    flightpath := flightpath + descents.value;
    r := Ok(flightpath);
  }
}
