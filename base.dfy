// Shared vocabulary of the model: the ways the simulator's Python code stops
// with an exception, a Result wrapper for them, the floating-point and
// transcendental functions the simulator borrows from numpy (left
// uninterpreted), and the physical constants of rocketflightsim/constants.py.
module Base {

  /** The exceptions the source can raise, by cause. */
  datatype Error =
    | EmptySequence            // max()/min() of an empty sequence, np.interp with no samples (ValueError)
    | KeyNotFound              // d[k] for a key k that d does not hold (KeyError)
    | IndexOutOfRange          // s[-1], s[-2] or a tuple component past the end (IndexError)
    | UnpackMismatch           // tuple unpacking with the wrong number of values (ValueError)
    | UnboundVariable          // a local variable read before it is assigned (UnboundLocalError)
    | InvalidStopCondition     // sim_parachute's "Invalid stop_condition" (ValueError)
    | StopConditionAlreadyMet  // sim_coast's check at entry (ValueError)
    | ClampsOutlastBurn        // hold-down clamps release after burnout (Exception)
    | NeverLiftsOff            // thrust never exceeds the liftoff threshold (Exception)
    | StepLimit                // the model's bound on a time-stepping loop was reached
    | ZeroDivision             // a Python float divided by zero (ZeroDivisionError)

  datatype Result<T> = Ok(value: T) | Err(error: Error)

  datatype Option<T> = None | Some(value: T)

  /** The numpy functions the simulator calls, as uninterpreted function values.
      `divByZero(a)` is what a numpy division `a / 0` yields (an infinity or a NaN). */
  datatype Math = Math(
    sin: real -> real,
    cos: real -> real,
    arctan: real -> real,
    arccos: real -> real,
    sqrt: real -> real,
    pow: (real, real) -> real,
    divByZero: real -> real,
    pi: real)

  /** Floating-point division: exact when the divisor is non-zero. */
  function Quot(m: Math, a: real, b: real): real
  {
    if b != 0.0 then a / b else m.divByZero(a)
  }

  /** Dividing a product by one of its factors gives the other. */
  lemma DivOf(p: real, b: real, r: real)
    requires b != 0.0 && p == r * b
    ensures p / b == r
  {
  }

  /** Python's `x ** 2`. */
  function Sq(x: real): real
  {
    x * x
  }

  /** np.deg2rad */
  function Deg2Rad(m: Math, deg: real): real
  {
    deg * m.pi / 180.0
  }

  function Min(a: real, b: real): real
  {
    if a <= b then a else b
  }

  function Max(a: real, b: real): real
  {
    if a >= b then a else b
  }

  // constants.py
  const R_UNIVERSAL: real := 8.3144598                    // J/(mol*K)
  const MM_AIR: real := 0.0289644                         // kg/mol
  const ADIABATIC_INDEX_AIR: real := 1.4
  const R_SPECIFIC_AIR: real := R_UNIVERSAL / MM_AIR      // J/(kg*K)
  const ADIABATIC_INDEX_AIR_TIMES_R_SPECIFIC_AIR: real := ADIABATIC_INDEX_AIR * R_SPECIFIC_AIR
  const F_GRAVITY: real := 9.80665                        // m/s^2
  const T_LAPSE_RATE: real := -0.0065                     // K/m
  const DEFAULT_TIMESTEP: real := 0.02                    // s
}
