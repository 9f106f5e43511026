// rocketflightsim/classes/rocket.py: a rocket is its airframe mass, motor,
// reference area, drag model and upper rail-button height, plus the derived
// dry mass and drag-area function.
module RocketModel {
  import opened MotorModel

  /** `Cd_rocket_at_Ma`: a constant drag coefficient or a function of Mach number. */
  datatype DragModel = ConstantCd(cd: real) | CdOfMach(cdAt: real -> real)

  datatype Rocket = Rocket(
    rocketMass: real,
    motor: Motor,
    aRocket: real,
    cdRocketAtMa: DragModel,
    hSecondRailButton: real,
    dryMass: real)

  const DEFAULT_CD: real := 0.45
  const DEFAULT_H_SECOND_RAIL_BUTTON: real := 0.8

  /** `Rocket(rocket_mass, motor, A_rocket, Cd_rocket_at_Ma=0.45, h_second_rail_button=0.8)`:
      the inputs are stored unchanged and the dry mass is the airframe's plus
      the motor's. */
  function NewRocket(rocketMass: real, motor: Motor, aRocket: real,
                     cdRocketAtMa: DragModel := ConstantCd(DEFAULT_CD),
                     hSecondRailButton: real := DEFAULT_H_SECOND_RAIL_BUTTON): (r: Rocket)
    ensures r.rocketMass == rocketMass && r.motor == motor && r.aRocket == aRocket
    ensures r.cdRocketAtMa == cdRocketAtMa && r.hSecondRailButton == hSecondRailButton
    ensures r.dryMass == rocketMass + motor.dryMass
    ensures r.dryMass - r.motor.dryMass == rocketMass
  {
    Rocket(rocketMass, motor, aRocket, cdRocketAtMa, hSecondRailButton, rocketMass + motor.dryMass)
  }

  /** `rocket.Cd_A_rocket(Ma)`: the drag coefficient at Mach `mach` times the area. */
  function CdA(rocket: Rocket, mach: real): real
  {
    match rocket.cdRocketAtMa
    case ConstantCd(cd) => cd * rocket.aRocket
    case CdOfMach(cdAt) => cdAt(mach) * rocket.aRocket
  }

  /** A constant coefficient gives the same drag area at every Mach number. */
  lemma ConstantDragIgnoresMach(rocket: Rocket, mach1: real, mach2: real)
    requires rocket.cdRocketAtMa.ConstantCd?
    ensures CdA(rocket, mach1) == CdA(rocket, mach2) == rocket.cdRocketAtMa.cd * rocket.aRocket
  {
  }

  /** A callable coefficient is evaluated at the given Mach number. */
  lemma CallableDragAtMach(rocket: Rocket, mach: real)
    requires rocket.cdRocketAtMa.CdOfMach?
    ensures CdA(rocket, mach) == rocket.cdRocketAtMa.cdAt(mach) * rocket.aRocket
  {
  }

  /** Defaults: a rocket built without a drag model or button height has the
      constant coefficient 0.45 and the button at 0.8 m, and its drag area is
      0.45 times its reference area whatever the Mach number. */
  lemma RocketDefaults(rocketMass: real, motor: Motor, aRocket: real, mach: real)
    ensures NewRocket(rocketMass, motor, aRocket).hSecondRailButton == 0.8
    ensures CdA(NewRocket(rocketMass, motor, aRocket), mach) == 0.45 * aRocket
  {
  }
}
