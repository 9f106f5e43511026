# RocketFlightSim, modelled in Dafny

RocketFlightSim simulates a rocket's flight as a sequence of phases. Each phase is
seeded from the last state of the phase before it:

1. **Ignition to liftoff** finds when thrust first exceeds weight along the rail.
   It applies the hold-down clamp rules and intersects the thrust line with the
   threshold line.
2. **Liftoff to rail clearance** is a rail-guided Euler loop, ended by an exact
   interpolation to the rail-clearance height.
3. **Unguided boost** runs to burnout, ended by an exact interpolation to the burn time.
4. **Coast** runs to apogee, impact, a given altitude, or a delay.
5. **Airbrakes** offers three climb-to-apogee variants: maximum deployment,
   deployment as a function of height, and deployment as a function of time.
6. **Parachute descent** is optionally gated by a coast to the deployment delay.
7. **The combined stages** chain these phases into one flight path:
   ignition to apogee, ignition to landing, and ballistic recovery.

The phases rely on the motor's table lookups (thrust and mass at a time) and on
the motor and rocket descriptors.

The model works over Dafny `real`, so there is no floating-point rounding.
- numpy's `sin`, `cos`, `arctan`, `arccos`, `sqrt` and `pow`, and a float divided by
  zero, are uninterpreted function values in a `Math` record (module `Base`).
  Lemmas that need a fact about them state it as a requirement: `sqrt` of a
  non-negative number is a non-negative root (`TrueSqrt`), and
  `sin² + cos² = 1` (`Pythagorean`).
- Python dicts are sequences of `(key, value)` pairs in insertion order (module
  `Dict`), because the source depends on that order: the trapezoid sum, the
  fuel-mass loop, the `next` scan and the `zip` pairing.
- State tuples are `seq<real>` with the time first.
- Every exception the source raises becomes an `Err` of the `Error` datatype. A division whose operands are numpy floats raises nothing: dividing by zero there yields the uninterpreted `Math.divByZero` (an infinity or a NaN). A division of plain Python floats by zero, as in `air_density_fn`, is an `Err(ZeroDivision)`.
  Examples are `max()` of an empty list, a missing dict key, a `[-2]` index past
  the start, and an unbound local variable.

Each time-stepping phase is a method with a `while` loop.
- The loop invariant relates the states collected so far to a step function
  (`Stepped`) and to the clock (`Timed`, `TimesFrom`).
- The method's postcondition states the exit condition and the interpolated last state.
- The motor is a `class`, because the liftoff phase inserts the clamp-release
  time into the motor's thrust dict in place.

The phases call `hfunc.temp_at_altitude`, which `rocketflightsim/helper_functions.py`
does not define. The model takes it to be that file's `temp_at_height`, the
linear lapse-rate formula at lines 5-17.

## Model

| member | source | states |
|---|---|---|
| HelperFunctions.TempDecreasing | rocketflightsim/helper_functions.py:5-17 | with a negative lapse rate the temperature is strictly lower at a greater height |
| HelperFunctions.StandardLapse | rocketflightsim/helper_functions.py:5-17 | with the default lapse rate the launchpad temperature holds at height 0 and is 6.5 K lower at 1000 m |
| HelperFunctions.DynamicPressure | rocketflightsim/helper_functions.py:33-44 | dynamic pressure is non-negative for a non-negative density and zero at zero speed |
| HelperFunctions.AirDensityFn | rocketflightsim/helper_functions.py:116-127 | fails with `ZeroDivision` exactly when the temperature is zero; otherwise the density times R·T gives back the pressure (the ideal gas law), and it is positive for positive pressure and temperature |
| HelperFunctions.Lookup | rocketflightsim/helper_functions.py:179-184 | a lookup succeeds exactly when there is a key at or below t and a key above t; otherwise it is the empty-`max`/`min` error |
| HelperFunctions.LookupDefinedIff | rocketflightsim/helper_functions.py:167-201 | `thrust_at_time` and `mass_at_time` are defined iff the curve is non-empty and min key ≤ t < max key, so t equal to the last key is an error |
| HelperFunctions.LookupOrderIndependent | rocketflightsim/helper_functions.py:180-184 | two dicts holding the same pairs in any insertion order give the same lookup result |
| HelperFunctions.MassOrderIndependent | rocketflightsim/helper_functions.py:167-184 | `mass_at_time` does not depend on the fuel curve's insertion order |
| HelperFunctions.SameBracketSameLookup | rocketflightsim/helper_functions.py:180-184 | the lookup depends only on the bracketing keys and the values stored under them |
| HelperFunctions.LowerDominated | rocketflightsim/helper_functions.py:180 | adding pairs to a dict can only raise the lower bracket key |
| HelperFunctions.UpperDominated | rocketflightsim/helper_functions.py:181 | adding pairs to a dict can only lower the upper bracket key |
| HelperFunctions.SameKeysSameLower | rocketflightsim/helper_functions.py:180 | the lower bracket key is the same for dicts holding the same pairs |
| HelperFunctions.SameKeysSameUpper | rocketflightsim/helper_functions.py:181 | the upper bracket key is the same for dicts holding the same pairs |
| HelperFunctions.LookupAtSample | rocketflightsim/helper_functions.py:182-201 | at a sample key that is not the largest, thrust is the stored value and mass is dry mass plus the stored value |
| HelperFunctions.LookupBetween | rocketflightsim/helper_functions.py:182-184 | an interpolated value lies between the values at its two bracketing keys |
| HelperFunctions.OnLineBetween | rocketflightsim/helper_functions.py:184 | linear interpolation at a point in [k1, k2) stays between the two end values |
| HelperFunctions.MassAtLeastDry | rocketflightsim/helper_functions.py:184 | with a non-negative, non-increasing fuel curve the mass is never below the dry mass |
| HelperFunctions.MassNonIncreasing | rocketflightsim/helper_functions.py:167-184 | with a non-negative, non-increasing fuel curve the mass does not increase with time |
| HelperFunctions.LookupNonIncreasing | rocketflightsim/helper_functions.py:179-184 | a lookup into a non-increasing curve is non-increasing in t |
| HelperFunctions.LinesNonIncreasing | rocketflightsim/helper_functions.py:184 | interpolations on the same bracket or on consecutive brackets of a falling curve fall with t |
| HelperFunctions.BracketsAdvance | rocketflightsim/helper_functions.py:180-181 | a later time has a bracket that is the same or lies wholly after the earlier one |
| HelperFunctions.BurnsDownGet | rocketflightsim/helper_functions.py:182-183 | in a non-increasing curve, a later key stores a value no greater than an earlier one |
| HelperFunctions.OnLineNonIncreasing | rocketflightsim/helper_functions.py:184 | interpolation on a falling segment falls with t |
| Dict.Keys | rocketflightsim/helper_functions.py:179 | `list(d.keys())` lists the keys in insertion order |
| Dict.Get | rocketflightsim/helper_functions.py:182-183 | `d[k]` returns the value paired with k, the only one in a dict |
| Dict.Put | rocketflightsim/flight_sim_ignition_to_liftoff.py:57 | `d[k] = v` overwrites in place when k is present and appends otherwise |
| Dict.MaxKey | rocketflightsim/classes/motor.py:54 | `max(d.keys())` is a key of d and no key exceeds it |
| Dict.MinKey | rocketflightsim/helper_functions.py:180 | the smallest key is a key of d and no key is below it |
| Dict.LowerKey | rocketflightsim/helper_functions.py:180 | the largest key ≤ t, absent exactly when every key is above t |
| Dict.UpperKey | rocketflightsim/helper_functions.py:181 | the smallest key > t, absent exactly when every key is at most t |
| Dict.StrictLowerKey | rocketflightsim/flight_sim_ignition_to_liftoff.py:101 | the largest key < t, absent exactly when every key is at least t |
| Dict.PutIsDict | rocketflightsim/flight_sim_ignition_to_liftoff.py:57 | assigning a key keeps the keys distinct and makes the key present |
| Dict.KeepFrom | rocketflightsim/flight_sim_ignition_to_liftoff.py:75-76 | the filtered dict holds exactly the pairs whose key is ≥ t |
| Dict.KeepFromIncreasing | rocketflightsim/flight_sim_ignition_to_liftoff.py:75-76 | filtering a sorted dict keeps it sorted |
| Dict.SortByKey | rocketflightsim/flight_sim_ignition_to_liftoff.py:61-62 | `dict(sorted(d.items()))` has increasing keys and holds the same pairs (a permutation) |
| Dict.GetSamePairs | rocketflightsim/helper_functions.py:182-183 | dicts with the same pairs answer `d[k]` alike |
| MotorModel.TrapezoidPrefix | rocketflightsim/classes/motor.py:51 | the impulse up to key i+1 is the impulse up to key i plus slice i |
| MotorModel.TrapezoidNonNegative | rocketflightsim/classes/motor.py:51 | the total impulse of a sorted, non-negative thrust curve is non-negative |
| MotorModel.BurnAt | rocketflightsim/classes/motor.py:63-64 | each fuel entry is the previous entry minus its slice's share of the fuel |
| MotorModel.BuildFuelMassCurve | rocketflightsim/classes/motor.py:59-64 | the loop builds the proportional-burn curve; it fails with a missing key exactly when the first thrust key is not 0 and there are two or more keys |
| MotorModel.ProportionalBurnExtend | rocketflightsim/classes/motor.py:63-64 | one loop pass extends the proportional-burn curve by one key |
| MotorModel.ProportionalBurnClosedForm | rocketflightsim/classes/motor.py:51-64 | entry i equals fuel·(1 − impulse up to key i / total impulse) |
| MotorModel.FuelRunsOut | rocketflightsim/classes/motor.py:51-64 | when the total impulse is the curve's own trapezoid sum, the last entry is exactly 0 |
| MotorModel.FuelNonIncreasing | rocketflightsim/classes/motor.py:64 | with sorted keys, non-negative thrust and positive total impulse the fuel entries do not increase |
| MotorModel.ProportionalBurnBurnsDown | rocketflightsim/classes/motor.py:59-64 | the built curve is sorted, non-negative and non-increasing, which is what the mass lemmas need |
| MotorModel.Motor.constructor | rocketflightsim/classes/motor.py:48-70 | stores the thrust curve, dry mass, impulse, burn time and fuel data as given |
| MotorModel.NewMotor | rocketflightsim/classes/motor.py:24-70 | `Motor.__init__`: burn time is the largest key, impulse the trapezoid sum, and the three fuel branches are a given curve with its key-0 value, a proportional burn, or `{0: 0, burn_time: 0}`, with the error cases |
| MotorModel.NoFuelCurve | rocketflightsim/classes/motor.py:65-70 | the no-fuel curve holds keys 0 and burn time with value 0, and one key when burn time is 0 |
| RocketModel.NewRocket | rocketflightsim/classes/rocket.py:49-55 | inputs are stored unchanged and the dry mass is the rocket mass plus the motor's dry mass |
| RocketModel.ConstantDragIgnoresMach | rocketflightsim/classes/rocket.py:60-62 | a constant Cd gives Cd·A at every Mach number |
| RocketModel.CallableDragAtMach | rocketflightsim/classes/rocket.py:57-59 | a callable Cd gives Cd(Ma)·A |
| RocketModel.RocketDefaults | rocketflightsim/classes/rocket.py:30-31 | the defaults are Cd = 0.45 and a second rail button 0.8 m up |
| Descriptors.NewAirbrakes | rocketflightsim/classes/airbrakes.py:49-60 | brake area is flap area times flap count, and the retraction rate defaults to the deployment rate |
| Descriptors.NewParachute | rocketflightsim/classes/parachute.py:39-43 | the parachute's Cd·A is the product of its Cd and area; the other inputs are stored |
| Aerodynamics.AirspeedNonNegative | rocketflightsim/flight_sim_coast.py:58 | the airspeed is non-negative, and zero when the rocket moves with the wind |
| Aerodynamics.DragNonNegative | rocketflightsim/flight_sim_coast.py:80-87 | drag is non-negative for non-negative density and drag area, and zero in still air |
| Aerodynamics.ResolvedMagnitude | rocketflightsim/flight_sim_coast.py:90-92 | resolving a force along heading and angle to vertical keeps its magnitude: the acceleration without gravity has length \|F/m\| |
| Aerodynamics.ResolvedComponents | rocketflightsim/flight_sim_coast.py:90-92 | each acceleration component is F/m times the direction's sine/cosine product |
| StateVectors.Lerp | rocketflightsim/flight_sim_coast.py:153-156 | the interpolated state interpolates every component with one fraction |
| StateVectors.LerpBetween | rocketflightsim/flight_sim_unguided_boost.py:123-126 | with a fraction in [0,1] every interpolated component lies between the two states' values |
| StateVectors.Between | rocketflightsim/flight_sim_unguided_boost.py:123-126 | one interpolated component lies between its end values |
| StateVectors.InterpolateLast | rocketflightsim/flight_sim_coast.py:153-159 | only the last state is replaced, by the interpolation of the last two |
| StateVectors.CrossingExact | rocketflightsim/flight_sim_guided.py:127 | when a value crosses the target between two steps the fraction lies in (0,1] and interpolation hits the target exactly |
| StateVectors.Advance | rocketflightsim/flight_sim_coast.py:94-107 | the semi-implicit Euler step: velocity first, then position with the new velocity, time plus dt, accelerations stored |
| StateVectors.SteppedExtend | rocketflightsim/flight_sim_coast.py:78-123 | appending the step's result to the collected states keeps them a run of the step function |
| StateVectors.TimedExtend | rocketflightsim/flight_sim_coast.py:107 | a step that adds dt keeps raw state k at time t0 + (k+1)·dt |
| StateVectors.TimedIncreasing | rocketflightsim/flight_sim_coast.py:107 | with dt > 0 the stored times increase strictly |
| IgnitionToLiftoff.KeysBefore | rocketflightsim/flight_sim_ignition_to_liftoff.py:46 | the fuel keys before burn time, exactly |
| IgnitionToLiftoff.KeysBeforeSorted | rocketflightsim/flight_sim_ignition_to_liftoff.py:46 | for a sorted fuel curve these are its first keys |
| IgnitionToLiftoff.MassesAt | rocketflightsim/flight_sim_ignition_to_liftoff.py:46 | the mass at each key, defined iff every lookup is |
| IgnitionToLiftoff.Zipped | rocketflightsim/flight_sim_ignition_to_liftoff.py:49 | `zip` pairs keys with masses times the ratio, up to the shorter length |
| IgnitionToLiftoff.Thresholds | rocketflightsim/flight_sim_ignition_to_liftoff.py:46-49 | the threshold table keeps the fuel keys in order and is defined iff every mass lookup is |
| IgnitionToLiftoff.ThresholdsSorted | rocketflightsim/flight_sim_ignition_to_liftoff.py:40-49 | each threshold before burn time is mass·g·uz, and the one extra entry is dry mass·g·uz |
| IgnitionToLiftoff.ZippedSplit | rocketflightsim/flight_sim_ignition_to_liftoff.py:47-49 | the extra dry-mass entry pairs with the first key at or after burn time |
| IgnitionToLiftoff.NpInterp | rocketflightsim/flight_sim_ignition_to_liftoff.py:57 | `np.interp` fails only on an empty table |
| IgnitionToLiftoff.NpInterpAtKey | rocketflightsim/flight_sim_ignition_to_liftoff.py:57 | at a key of a sorted table `np.interp` returns the stored value |
| IgnitionToLiftoff.Released | rocketflightsim/flight_sim_ignition_to_liftoff.py:56-62 | a release time that is not a key is inserted with its interpolated thrust and both dicts are sorted; an existing key leaves both unchanged |
| IgnitionToLiftoff.RaisedGet | rocketflightsim/flight_sim_ignition_to_liftoff.py:81-89 | the clamp force raises every threshold, or only those before release |
| IgnitionToLiftoff.RaisedKeys | rocketflightsim/flight_sim_ignition_to_liftoff.py:81-89 | raising thresholds keeps their keys |
| IgnitionToLiftoff.ForceOnlyRaisesAll | rocketflightsim/flight_sim_ignition_to_liftoff.py:86-91 | force without release raises every threshold by exactly the force and leaves thrust alone |
| IgnitionToLiftoff.ForceAndReleaseRaisesBefore | rocketflightsim/flight_sim_ignition_to_liftoff.py:79-84 | with force and release only keys strictly before release are raised |
| IgnitionToLiftoff.ReleaseOnly | rocketflightsim/flight_sim_ignition_to_liftoff.py:65-76 | release after burn time is an error; thrust above the threshold at release lifts off at release; otherwise only keys ≥ release remain |
| IgnitionToLiftoff.FirstExceed | rocketflightsim/flight_sim_ignition_to_liftoff.py:95-98 | the first thrust key whose thrust exceeds its threshold, "never lifts off" exactly when no key does, and a missing key when a threshold is absent |
| IgnitionToLiftoff.LiftoffRoot | rocketflightsim/flight_sim_ignition_to_liftoff.py:103-112 | when the thrust and threshold lines are parallel the numpy division by zero gives `divByZero` of the gap between them, not an error |
| IgnitionToLiftoff.RootBetween | rocketflightsim/flight_sim_ignition_to_liftoff.py:103-112 | the intersection lies in [pre, post) and the two lines agree there |
| IgnitionToLiftoff.SearchRootSorted | rocketflightsim/flight_sim_ignition_to_liftoff.py:95-112 | liftoff lies between the key before the first exceeding key and that key; an exceed at the first key is the empty-`max` error |
| IgnitionToLiftoff.FirstExceedLater | rocketflightsim/flight_sim_ignition_to_liftoff.py:96 | higher thresholds move the first exceeding key later or leave it |
| IgnitionToLiftoff.ClampForceDelaysLiftoff | rocketflightsim/flight_sim_ignition_to_liftoff.py:81-96 | a non-negative clamp force never makes the first exceeding key earlier |
| IgnitionToLiftoff.ThrustCurveAfterIdempotent | rocketflightsim/flight_sim_ignition_to_liftoff.py:56-57 | running the in-place insertion a second time changes nothing |
| IgnitionToLiftoff.SearchedSorted | rocketflightsim/flight_sim_ignition_to_liftoff.py:61-76 | the clamp rules keep the searched thrust dict sorted with non-negative keys |
| IgnitionToLiftoff.LiftoffAfterIgnition | rocketflightsim/flight_sim_ignition_to_liftoff.py:95-112 | a computed liftoff time is never negative |
| IgnitionToLiftoff.ClampedAfterIgnition | rocketflightsim/flight_sim_ignition_to_liftoff.py:52-112 | every successful outcome of the clamp rules and search is ≥ 0 |
| IgnitionToLiftoff.SimIgnitionToLiftoff | rocketflightsim/flight_sim_ignition_to_liftoff.py:12-114 | returns the liftoff time of the original thrust curve and leaves the motor's thrust dict with the release time inserted |
| Guided.RailAcceleration | rocketflightsim/flight_sim_guided.py:74-87 | the acceleration along the rail, failing only on a lookup error |
| Guided.GuidedNext | rocketflightsim/flight_sim_guided.py:73-120 | one step gives a 10-tuple one dt later |
| Guided.RailSeed | rocketflightsim/flight_sim_guided.py:58-65 | the phase starts at the liftoff time at rest |
| Guided.AdvanceEuler | rocketflightsim/flight_sim_guided.py:89-102 | per axis, the step updates velocity then position |
| Guided.AdvanceAlong | rocketflightsim/flight_sim_guided.py:89-102 | a step along the rail keeps position and velocity scalar multiples of the rail vector |
| Guided.AdvanceOnRail | rocketflightsim/flight_sim_guided.py:89-102 | a state on the rail stays on the rail after a step |
| Guided.NextOnRail | rocketflightsim/flight_sim_guided.py:87-102 | every successful guided step stays on the rail |
| Guided.LerpOnRail | rocketflightsim/flight_sim_guided.py:127-135 | interpolating two states on the rail gives a state on the rail |
| Guided.GuidedProgressStep | rocketflightsim/flight_sim_guided.py:73-120 | one loop pass keeps the invariant: run of the step, times, on the rail, all below the clearance height |
| Guided.GuidedLoop | rocketflightsim/flight_sim_guided.py:73-120 | the loop stops exactly when z reaches the clearance height, or on a lookup error or the step bound |
| Guided.InterpolateClearance | rocketflightsim/flight_sim_guided.py:123-135 | the last state is replaced by one at exactly the clearance height, between the last two raw states |
| Guided.ClearanceOnRail | rocketflightsim/flight_sim_guided.py:123-135 | the interpolated result is still on the rail |
| Guided.SimLiftoffToRailClearance | rocketflightsim/flight_sim_guided.py:6-141 | the result is the interpolated run with z exactly the clearance height; a non-positive height is the `[-2]` error; the warning is raised iff the final raw time is at or after burn time |
| Guided.ClearsBelowRailTip | rocketflightsim/flight_sim_guided.py:39-40 | the clearance height is below the rail tip when the button offset and uz are positive |
| UnguidedBoost.BoostAcceleration | rocketflightsim/flight_sim_unguided_boost.py:67-82 | thrust minus drag resolved along the attitude, failing only on a lookup error |
| UnguidedBoost.BoostNext | rocketflightsim/flight_sim_unguided_boost.py:65-113 | one step gives a 10-tuple exactly dt later |
| UnguidedBoost.InterpolateBurnout | rocketflightsim/flight_sim_unguided_boost.py:116-129 | the last state is replaced by one at exactly the burn time, between the last two raw states |
| UnguidedBoost.StepsLeftDecrease | rocketflightsim/flight_sim_unguided_boost.py:65-97 | each step before burnout brings the loop closer to ending |
| UnguidedBoost.BoostProgressStep | rocketflightsim/flight_sim_unguided_boost.py:65-113 | one loop pass keeps the run and clock invariant |
| UnguidedBoost.BoostLoop | rocketflightsim/flight_sim_unguided_boost.py:65-113 | the loop stops exactly when time reaches the burn time, or on a lookup error |
| UnguidedBoost.SimUnguidedBoost | rocketflightsim/flight_sim_unguided_boost.py:6-131 | the result ends exactly at burnout after at least two steps; fewer is the `[-2]` error; a short input tuple is an index error |
| Coast.Next | rocketflightsim/flight_sim_coast.py:78-123 | one coast step gives a 10-tuple dt later |
| Coast.TransitionExact | rocketflightsim/flight_sim_coast.py:126-159 | between a state where the stop condition fails and one where it holds, the fraction is in (0,1] and the interpolated state meets the target exactly |
| Coast.HeightTimeCancels | rocketflightsim/flight_sim_coast.py:139-145 | the time-based fraction for impact and below-altitude equals the height crossing fraction |
| Coast.ApogeeTimeCancels | rocketflightsim/flight_sim_coast.py:133-138 | the time-based fraction for apogee equals the v_z zero-crossing fraction |
| Coast.DelayCancels | rocketflightsim/flight_sim_coast.py:146-150 | the after-delay fraction equals the time crossing fraction |
| Coast.NoneMetAppend | rocketflightsim/flight_sim_coast.py:78 | a state that fails the stop condition extends a run with no stop |
| Coast.Interpolate | rocketflightsim/flight_sim_coast.py:126-159 | with two or more states the last hits the stop target exactly (v_z = 0, z = 0, z = value, or t0 + value), between the last two; one state is returned unchanged |
| Coast.SimCoast | rocketflightsim/flight_sim_coast.py:6-161 | an unknown stop is the unbound-name error, a condition met at entry is an error, and otherwise the result is the run that stops only at its last state, interpolated |
| Coast.CoastProgressStep | rocketflightsim/flight_sim_coast.py:78-123 | one loop pass keeps the invariant that no stored state met the stop condition |
| Coast.CoastLoop | rocketflightsim/flight_sim_coast.py:76-123 | every raw state but the last fails the stop condition and the last meets it |
| AirbrakesFlight.BrakesOnlyAddDrag | rocketflightsim/flight_sim_airbrakes.py:87 | retracted brakes leave the rocket's drag, and deployed brakes never reduce it |
| AirbrakesFlight.BrakedAcceleration | rocketflightsim/flight_sim_airbrakes.py:87-92 | the braked drag is resolved into three accelerations |
| AirbrakesFlight.ClimbProgressStep | rocketflightsim/flight_sim_airbrakes.py:76-111 | one pass of any variant's `while v_z > 0` keeps the run, width, clock and climbing invariant |
| AirbrakesFlight.ClimbClock | rocketflightsim/flight_sim_airbrakes.py:108-111 | the stored time after k passes is t0 + (k + first)·dt |
| AirbrakesFlight.MaxNext | rocketflightsim/flight_sim_airbrakes.py:77-125 | one max-deployment step stores the deployment angle computed from the previous one |
| AirbrakesFlight.MaxLoop | rocketflightsim/flight_sim_airbrakes.py:76-125 | the loop ends with v_z ≤ 0 or at the step bound |
| AirbrakesFlight.SimMaxAirbrakes | rocketflightsim/flight_sim_airbrakes.py:7-127 | the result is the raw run with no apogee interpolation, the k-th stored state at t0 + k·dt for k ≥ 1, and the last with v_z ≤ 0 |
| AirbrakesFlight.MinAccumulates | rocketflightsim/flight_sim_airbrakes.py:86 | clamping after every increment equals clamping the sum |
| AirbrakesFlight.MaxAngleAt | rocketflightsim/flight_sim_airbrakes.py:72-86 | the angle stored at step k comes from the angle stored at step k-1, starting from 0 |
| AirbrakesFlight.MaxDeploymentSchedule | rocketflightsim/flight_sim_airbrakes.py:72-86 | after k+1 steps the angle is min(max angle, (k+1)·rate·dt) |
| AirbrakesFlight.MaxDeploymentMonotone | rocketflightsim/flight_sim_airbrakes.py:72-86 | the angle never decreases and never exceeds the maximum |
| AirbrakesFlight.HeightNext | rocketflightsim/flight_sim_airbrakes.py:196-245 | the height variant's 9-tuple step stores f(z) of the height it starts from |
| AirbrakesFlight.HeightLoop | rocketflightsim/flight_sim_airbrakes.py:196-245 | the loop ends with v_z ≤ 0 or at the step bound |
| AirbrakesFlight.SimHeightAirbrakes | rocketflightsim/flight_sim_airbrakes.py:130-247 | the result is the raw run of 9-tuples, times t0 + k·dt for k ≥ 1, and the last with v_z ≤ 0 |
| AirbrakesFlight.HeightDeploysAtHeight | rocketflightsim/flight_sim_airbrakes.py:206-221 | the angle stored at step k is f of the height at the start of step k |
| AirbrakesFlight.TimeNext | rocketflightsim/flight_sim_airbrakes.py:315-349 | the time variant stores the time before advancing and the angle f(that time) |
| AirbrakesFlight.TimeLoop | rocketflightsim/flight_sim_airbrakes.py:315-349 | the loop ends with v_z ≤ 0 or at the step bound |
| AirbrakesFlight.SimTimeAirbrakes | rocketflightsim/flight_sim_airbrakes.py:249-351 | the result is the raw run, first stored time t0, and the last with v_z ≤ 0 |
| AirbrakesFlight.TimeDeploysAtTime | rocketflightsim/flight_sim_airbrakes.py:325-349 | state k is stored at the absolute time t0 + k·dt with angle f(t0 + k·dt) |
| ParachuteDescent.GateOf | rocketflightsim/flight_sim_parachute.py:64-83 | the four deployment gates, by which of the altitude and the delay are set |
| ParachuteDescent.DescentAcceleration | rocketflightsim/flight_sim_parachute.py:107-117 | parachute drag along the airspeed direction plus gravity, three components |
| ParachuteDescent.Opposed | rocketflightsim/flight_sim_parachute.py:115-117 | one drag component has the opposite sign to its airspeed component |
| ParachuteDescent.StillAir | rocketflightsim/flight_sim_parachute.py:83-86 | zero airspeed means the rocket moves with the wind |
| ParachuteDescent.DragOpposesAirspeed | rocketflightsim/flight_sim_parachute.py:83-117 | every component of the drag acceleration opposes the airspeed component on its axis, gravity aside |
| ParachuteDescent.DescentOpposed | rocketflightsim/flight_sim_parachute.py:112-117 | the same, given a non-negative drag and airspeed |
| ParachuteDescent.AllAxesOpposed | rocketflightsim/flight_sim_parachute.py:115-117 | drag opposes the relative velocity on all three axes |
| ParachuteDescent.AxisOpposed | rocketflightsim/flight_sim_parachute.py:115 | drag opposes the relative velocity on one axis, including zero airspeed |
| ParachuteDescent.DescentNext | rocketflightsim/flight_sim_parachute.py:105-149 | one descent step gives a 10-tuple dt later |
| ParachuteDescent.ContinuedExtend | rocketflightsim/flight_sim_parachute.py:105 | appending after a state that continues keeps "every state before the last continued" |
| ParachuteDescent.DescentProgressStep | rocketflightsim/flight_sim_parachute.py:105-149 | one loop pass keeps the run, clock and continue invariant |
| ParachuteDescent.DescentLoop | rocketflightsim/flight_sim_parachute.py:105-149 | the loop stops when the continue condition fails or at the step bound |
| ParachuteDescent.CoastEnd | rocketflightsim/flight_sim_parachute.py:75-78 | the delay coast leaves a 10-tuple to start the descent from |
| ParachuteDescent.SimParachute | rocketflightsim/flight_sim_parachute.py:8-151 | no gate needs a 7-tuple, the delay gate prefixes the interpolated coast and starts from its last state, the altitude and both gates fail, an unknown stop is an error, and the result ends at the first state where the continue condition fails |
| StagesCombined.Vectors | rocketflightsim/flight_stages_combined.py:37 | extending the flight path appends every phase state in order |
| StagesCombined.LiftoffState | rocketflightsim/flight_stages_combined.py:35 | the liftoff tuple is the liftoff time followed by nine zeros |
| StagesCombined.Launch | rocketflightsim/flight_stages_combined.py:33-35 | the path starts with ten scalar zeros and then the liftoff tuple |
| StagesCombined.FlattenExtend | rocketflightsim/flight_stages_combined.py:77 | extending with one more parachute run appends its states |
| StagesCombined.AllDescendedExtend | rocketflightsim/flight_stages_combined.py:75-77 | adding a parachute run that starts from the apogee state keeps every run starting from it |
| StagesCombined.DescendedAt | rocketflightsim/flight_stages_combined.py:75-77 | parachute run i is the descent of parachute i from the coast's last state |
| StagesCombined.LastOfPhase | rocketflightsim/flight_stages_combined.py:38-40 | the path's last element after an extend is the phase's last state |
| StagesCombined.ApogeeAtEnd | rocketflightsim/flight_stages_combined.py:40-43 | the coast to apogee ends with v_z ≤ 0, and exactly 0 after two or more steps |
| StagesCombined.ImpactAtEnd | rocketflightsim/flight_stages_combined.py:108-111 | the ballistic coast ends with z ≤ 0, and exactly 0 after two or more steps |
| StagesCombined.RailPhase | rocketflightsim/flight_stages_combined.py:36 | the guided phase yields an interpolated rail run of at least two 10-tuples |
| StagesCombined.BoostPhase | rocketflightsim/flight_stages_combined.py:38 | the boost phase from a given state yields an interpolated run of at least two 10-tuples |
| StagesCombined.CoastPhase | rocketflightsim/flight_stages_combined.py:40 | the coast phase yields the interpolated run for the stop condition |
| StagesCombined.ParachutePhase | rocketflightsim/flight_stages_combined.py:76 | one parachute phase yields that parachute's descent; a parachute with no deployment gate fails with `UnpackMismatch` unless its start state has exactly seven values |
| StagesCombined.CoastEndsFull | rocketflightsim/flight_stages_combined.py:74 | the coast to apogee ends on a ten-component state |
| StagesCombined.NoGateNeverDescends | rocketflightsim/flight_sim_parachute.py:66 | from a start state that does not have seven values, no parachute without a deployment gate completes its descent |
| StagesCombined.Ascend | rocketflightsim/flight_stages_combined.py:33-39 | liftoff time computed once and passed on; the path is zeros, liftoff, the guided states, then the boost states seeded from the guided phase's last state |
| StagesCombined.SimIgnitionToApogee | rocketflightsim/flight_stages_combined.py:13-43 | the path is zeros, liftoff, guided, boost, then the apogee coast from the boost's last state; it ends at apogee and any liftoff error is passed through |
| StagesCombined.SimBallisticRecovery | rocketflightsim/flight_stages_combined.py:81-111 | the same chain with an impact coast, ending at z ≤ 0 |
| StagesCombined.Descents | rocketflightsim/flight_stages_combined.py:75-77 | each parachute starts from the apogee state and the runs are concatenated in order |
| StagesCombined.SimIgnitionToLanding | rocketflightsim/flight_stages_combined.py:45-79 | zeros, liftoff, guided, boost, then every parachute run from the coast's last state, with the coast states themselves left out; a successful landing run has no parachute without a deployment gate, because the ten-value apogee state cannot be unpacked as seven |

## Left out

- Floating point: IEEE rounding, overflow, infinities and NaN are not modelled, and the model works over `real`. A numpy float divided by zero yields the uninterpreted `Math.divByZero`; that includes the liftoff line intersection, whose slopes are numpy floats because the thresholds come from `np.cos`.
- Transcendentals: `sin`, `cos`, `arctan`, `arccos`, `sqrt`, `pow`, `np.deg2rad`'s π, the Mach number and a callable Cd(Ma) are uninterpreted. Lemmas assume only `sqrt ≥ 0` with `sqrt(x)² = x`, and `sin² + cos² = 1`, each as a stated requirement.
- `get_local_gravity`, `pressure_at_height`, `lookup_dynamic_viscosity`, `calculate_reynolds_number` and the `Environment` and `Launchpad` constructors are not modelled. The phases receive gravity, density constants and the rail unit vector as plain fields.
- Legacy and auxiliary code is not part of this model. That covers `flight_simulation.py`, `ignition_to_liftoff.py`, `liftoff_to_rail_clearance.py`, `rail_clearance_to_burnout.py`, `burnout_to_apogee.py`, `rocket_classes.py`, `flight-simulator/`, `tools/`, `scripts/`, plotting and the tests.
- Guided.SimLiftoffToRailClearance, Coast.SimCoast, ParachuteDescent.SimParachute and the airbrake variants take a `maxSteps` bound. They return `Err(StepLimit)` when it is reached, because the source's loops have no bound and need not terminate for arbitrary physics. Only the boost loop ends by its own clock. `dt > 0` is required where the source would otherwise loop forever.
- Guided.SimLiftoffToRailClearance: the burnout warning is printed in the source. Here it is the `warned` output, and StagesCombined drops it as the source does.
- ParachuteDescent.SimParachute: the altitude-only gate compares `z` before it is assigned, and is modelled as written, as `Err(UnboundVariable)`. The evidently intended coast to the deployment altitude is not modelled. The both-gates branch also ends in `Err(UnboundVariable)`.
- ParachuteDescent.SimParachute: its own stop condition and value are passed through. An unrecognised name is `InvalidStopCondition`, but the source's `None` value for landed is modelled as 0.
- Coast.SimCoast: an unrecognised stop name, which leaves the predicate unbound in the source, is `Err(UnboundVariable)`. A `None` stop value is modelled as 0.
- StagesCombined.SimIgnitionToApogee: the final v_z is exactly 0 only when the coast took two or more steps. After a single step the coast returns the raw state unchanged, with v_z ≤ 0. The same holds for z in StagesCombined.SimBallisticRecovery.
- StagesCombined.Descents: it states that each run is a `sim_parachute` descent from the apogee state. It does not restate each descent's stop conditions, which ParachuteDescent.SimParachute states.
- StagesCombined: the ten leading Python integer zeros are `Scalar(0.0)` entries, and the tuples are `Vector` entries.
- AirbrakesFlight.SimHeightAirbrakes and AirbrakesFlight.SimTimeAirbrakes take the deployment function as a total `real -> real`. The source's doc-comment for the time variant says "time since deployment began", but the code passes the absolute time; the model follows the code.
- IgnitionToLiftoff.NpInterp assumes the thrust and fuel curves are given in time order, as `np.interp` requires. numpy's result on unsorted keys is not modelled: lines 57-58 pass the keys in insertion order, and they are sorted only afterwards, at lines 61-62.
- MotorModel.NewMotor: the error cases (empty thrust curve, a fuel curve without key 0, a thrust curve not starting at 0) are `Err` results instead of Python exceptions. Python truthiness of the inputs is taken as "non-empty" and "non-zero".
- Aerodynamics.AirspeedNonNegative states only one direction: zero relative velocity gives zero airspeed. The converse is ParachuteDescent.StillAir.
