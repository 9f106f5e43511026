// The aerodynamics every flight phase repeats inline: the wind components,
// the airspeed and attitude (compass heading and angle to the vertical) of
// the velocity relative to the wind, the rocket's drag force at a height,
// and a force along the attitude resolved into accelerations.
module Aerodynamics {
  import opened Base
  import opened HelperFunctions
  import opened RocketModel
  import opened Descriptors

  /** `windspeed_x = mean_wind_speed * np.sin(wind_heading)` */
  function WindX(m: Math, env: Environment): real
  {
    env.meanWindSpeed * m.sin(env.windHeading)
  }

  /** `windspeed_y = mean_wind_speed * np.cos(wind_heading)` */
  function WindY(m: Math, env: Environment): real
  {
    env.meanWindSpeed * m.cos(env.windHeading)
  }

  /** The airspeed, compass heading and angle to the vertical a phase keeps
      between steps. */
  datatype Attitude = Attitude(airspeed: real, heading: real, angleToVertical: real)

  /** The attitude of velocity (vx, vy, vz) in a horizontal wind (wx, wy):
      `airspeed = sqrt((v_x - w_x)**2 + (v_y - w_y)**2 + v_z**2)`,
      `compass_heading = arctan(v_x / v_y)`, `angle_to_vertical = arccos(v_z / airspeed)`. */
  function AttitudeOf(m: Math, vx: real, vy: real, vz: real, wx: real, wy: real): Attitude
  {
    var airspeed := m.sqrt(Sq(vx - wx) + Sq(vy - wy) + Sq(vz));
    Attitude(airspeed, m.arctan(Quot(m, vx, vy)), m.arccos(Quot(m, vz, airspeed)))
  }

  /** np.sqrt on the non-negative reals. */
  ghost predicate TrueSqrt(m: Math)
  {
    m.sqrt(0.0) == 0.0 && forall x :: x >= 0.0 ==> m.sqrt(x) >= 0.0 && m.sqrt(x) * m.sqrt(x) == x
  }

  /** The airspeed is never negative, and it is zero when the rocket moves
      with the wind: the case where `v_z / airspeed` divides by zero. */
  lemma AirspeedNonNegative(m: Math, vx: real, vy: real, vz: real, wx: real, wy: real)
    requires TrueSqrt(m)
    ensures AttitudeOf(m, vx, vy, vz, wx, wy).airspeed >= 0.0
    ensures vx == wx && vy == wy && vz == 0.0 ==> AttitudeOf(m, vx, vy, vz, wx, wy).airspeed == 0.0
  {
    var s := Sq(vx - wx) + Sq(vy - wy) + Sq(vz);
    assert Sq(vx - wx) >= 0.0 && Sq(vy - wy) >= 0.0 && Sq(vz) >= 0.0;
    assert m.sqrt(s) >= 0.0;
  }

  /** The air temperature at height z. */
  function Temperature(env: Environment, z: real): real
  {
    TempAtHeight(z, env.launchpadTemp, env.localLapseRate)
  }

  /** `q = calculate_dynamic_pressure(air_density_optimized(temp_at_altitude(z)), airspeed)` */
  function DynamicPressureAt(m: Math, env: Environment, z: real, airspeed: real): real
  {
    DynamicPressure(AirDensityOptimized(m, Temperature(env, z), env.densityMultiplier, env.densityExponent), airspeed)
  }

  /** `Cd_A_rocket_fn(mach_number_fn(airspeed, temperature))` */
  function RocketCdA(m: Math, rocket: Rocket, env: Environment, z: real, airspeed: real): real
  {
    CdA(rocket, MachNumber(m, airspeed, Temperature(env, z)))
  }

  /** `F_drag = q * Cd_A_rocket` */
  function RocketDrag(m: Math, rocket: Rocket, env: Environment, z: real, airspeed: real): real
  {
    DynamicPressureAt(m, env, z, airspeed) * RocketCdA(m, rocket, env, z, airspeed)
  }

  /** Drag never pushes forward: with a non-negative air density and drag area
      the drag force is non-negative, and it vanishes in still air. */
  lemma DragNonNegative(m: Math, rocket: Rocket, env: Environment, z: real, airspeed: real)
    requires AirDensityOptimized(m, Temperature(env, z), env.densityMultiplier, env.densityExponent) >= 0.0
    requires RocketCdA(m, rocket, env, z, airspeed) >= 0.0
    ensures RocketDrag(m, rocket, env, z, airspeed) >= 0.0
    ensures airspeed == 0.0 ==> RocketDrag(m, rocket, env, z, airspeed) == 0.0
  {
    var q := DynamicPressureAt(m, env, z, airspeed);
    assert q >= 0.0;
  }

  /** A force along the attitude divided by the mass, minus gravity on z:
      `a_x = F * sin(angle) * sin(heading) / mass`,
      `a_y = F * sin(angle) * cos(heading) / mass`,
      `a_z = F * cos(angle) / mass - g`. */
  function Resolved(m: Math, force: real, att: Attitude, mass: real, g: real): (a: seq<real>)
    ensures |a| == 3
  {
    var s := m.sin(att.angleToVertical);
    [Quot(m, force * s * m.sin(att.heading), mass),
     Quot(m, force * s * m.cos(att.heading), mass),
     Quot(m, force * m.cos(att.angleToVertical), mass) - g]
  }

  /** np.sin and np.cos satisfy sin^2 + cos^2 = 1. */
  ghost predicate Pythagorean(m: Math)
  {
    forall x :: Sq(m.sin(x)) + Sq(m.cos(x)) == 1.0
  }

  /** Resolving the force along the attitude keeps its magnitude: apart from
      gravity the acceleration has length |force / mass|. */
  lemma ResolvedMagnitude(m: Math, force: real, att: Attitude, mass: real, g: real)
    requires Pythagorean(m) && mass != 0.0
    ensures var a := Resolved(m, force, att, mass, g);
      Sq(a[0]) + Sq(a[1]) + Sq(a[2] + g) == Sq(force / mass)
  {
    var s, c := m.sin(att.angleToVertical), m.cos(att.angleToVertical);
    var sh, ch := m.sin(att.heading), m.cos(att.heading);
    assert Sq(s) + Sq(c) == 1.0 && Sq(sh) + Sq(ch) == 1.0;
    var a := Resolved(m, force, att, mass, g);
    ResolvedComponents(m, force, att, mass, g);
    SumOfSquares(force / mass, s, c, sh, ch, a[0], a[1], a[2] + g);
  }

  /** Each component of the resolved acceleration is `force / mass` times a
      product of the direction's sines and cosines. */
  lemma ResolvedComponents(m: Math, force: real, att: Attitude, mass: real, g: real)
    requires mass != 0.0
    ensures var a := Resolved(m, force, att, mass, g);
            var s, c := m.sin(att.angleToVertical), m.cos(att.angleToVertical);
            a[0] == force / mass * (s * m.sin(att.heading)) &&
            a[1] == force / mass * (s * m.cos(att.heading)) &&
            a[2] + g == force / mass * c
  {
    var s := m.sin(att.angleToVertical);
    Scale(force, s, m.sin(att.heading), mass);
    Scale(force, s, m.cos(att.heading), mass);
    Scale(force, 1.0, m.cos(att.angleToVertical), mass);
  }

  /** Dividing `force * s * u` by the mass scales `s * u` by `force / mass`. */
  lemma Scale(force: real, s: real, u: real, mass: real)
    requires mass != 0.0
    ensures force * s * u / mass == force / mass * (s * u)
    ensures s == 1.0 ==> force * u / mass == force / mass * u
  {
  }

  lemma SumOfSquares(k: real, s: real, c: real, sh: real, ch: real, x: real, y: real, z: real)
    requires Sq(s) + Sq(c) == 1.0 && Sq(sh) + Sq(ch) == 1.0
    requires x == k * (s * sh) && y == k * (s * ch) && z == k * c
    ensures Sq(x) + Sq(y) + Sq(z) == Sq(k)
  {
    var kk, ss, cc := Sq(k), Sq(s), Sq(c);
    SqProduct(k, s * sh);
    SqProduct(s, sh);
    SqProduct(k, s * ch);
    SqProduct(s, ch);
    SqProduct(k, c);
    calc {
      Sq(x) + Sq(y) + Sq(z);
      kk * (ss * Sq(sh)) + kk * (ss * Sq(ch)) + kk * cc;
      kk * (ss * (Sq(sh) + Sq(ch)) + cc);
      kk * (ss + cc);
      kk;
    }
  }

  lemma SqProduct(a: real, b: real)
    ensures Sq(a * b) == Sq(a) * Sq(b)
  {
  }
}
