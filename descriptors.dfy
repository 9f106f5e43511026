// The launch environment, the launchpad, the airbrakes and the parachute, as
// the flight phases read them (rocketflightsim/classes/environment.py,
// launchpad.py, airbrakes.py, parachute.py). Their constructors' derived
// quantities that need trigonometry or powers (rail unit vector, density
// constants, local gravity) are stored values here.
module Descriptors {

  /** The attributes of an `Environment` the phases read; the launchpad
      temperature is already in kelvin and the wind heading in radians. */
  datatype Environment = Environment(
    launchpadTemp: real,
    localLapseRate: real,
    localGravity: real,
    densityMultiplier: real,
    densityExponent: real,
    meanWindSpeed: real,
    windHeading: real)

  /** A `Launchpad`: rail length, the rail's unit vector, and the hold-down
      clamps. A release time or force of 0 means the clamp feature is unused. */
  datatype Launchpad = Launchpad(
    railLength: real,
    railUnitVectorX: real,
    railUnitVectorY: real,
    railUnitVectorZ: real,
    holdDownClampReleaseTime: real,
    holdDownClampForce: real)

  /** An `Airbrakes` record: flap count and area, drag coefficient, and the
      deployment limits in degrees and degrees per second. */
  datatype Airbrakes = Airbrakes(
    numFlaps: int,
    aFlap: real,
    aBrakes: real,
    cdBrakes: real,
    maxDeploymentAngle: real,
    maxDeploymentRate: real,
    maxRetractionRate: real)

  /** `Airbrakes(num_flaps, A_flap, Cd_brakes, max_deployment_angle,
      max_deployment_rate, max_retraction_rate=None)`; an absent or zero
      retraction rate falls back to the deployment rate. */
  function NewAirbrakes(numFlaps: int, aFlap: real, cdBrakes: real, maxDeploymentAngle: real,
                        maxDeploymentRate: real, maxRetractionRate: real := 0.0): (a: Airbrakes)
    ensures a.aBrakes == aFlap * numFlaps as real
    ensures a.numFlaps == numFlaps && a.aFlap == aFlap && a.cdBrakes == cdBrakes
    ensures a.maxDeploymentAngle == maxDeploymentAngle && a.maxDeploymentRate == maxDeploymentRate
    ensures a.maxRetractionRate == if maxRetractionRate != 0.0 then maxRetractionRate else maxDeploymentRate
  {
    Airbrakes(numFlaps, aFlap, aFlap * numFlaps as real, cdBrakes, maxDeploymentAngle, maxDeploymentRate,
              if maxRetractionRate != 0.0 then maxRetractionRate else maxDeploymentRate)
  }

  /** A `Parachute`: drag coefficient, area, their product, and the optional
      deployment gates; an absent gate is 0 (Python treats None and 0 alike). */
  datatype Parachute = Parachute(cd: real, a: real, cdA: real, deployAltitude: real, deployDelay: real)

  /** `Parachute(Cd, A, deploy_altitude=None, deploy_delay=None)` */
  function NewParachute(cd: real, a: real, deployAltitude: real := 0.0, deployDelay: real := 0.0): (p: Parachute)
    ensures p.cdA == cd * a
    ensures p.cd == cd && p.a == a && p.deployAltitude == deployAltitude && p.deployDelay == deployDelay
  {
    Parachute(cd, a, cd * a, deployAltitude, deployDelay)
  }
}
