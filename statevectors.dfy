// The kinematic state tuples every flight phase produces, and the two pieces
// of bookkeeping the phases share: the explicit Euler step that turns an
// acceleration into the next state, and the linear interpolation that
// replaces a phase's last raw state by the state at the exact transition.
module StateVectors {
  import opened Base

  /** A state tuple `(time, x, y, z, v_x, v_y, v_z, a_x, a_y, a_z, ...)`. */
  type State = seq<real>

  const T: int := 0
  const X: int := 1
  const Y: int := 2
  const Z: int := 3
  const VX: int := 4
  const VY: int := 5
  const VZ: int := 6
  const AX: int := 7
  const AY: int := 8
  const AZ: int := 9

  /** `lo + f * (hi - lo)`: the value a fraction f of the way from lo to hi. */
  function Interpolated(lo: real, hi: real, f: real): real
  {
    lo + f * (hi - lo)
  }

  /** `tuple(a[i] + f * (b[i] - a[i]) for i in range(len(b)))` */
  function Lerp(a: State, b: State, f: real): (r: State)
    requires |a| == |b|
    ensures |r| == |a|
    ensures forall i :: 0 <= i < |a| ==> r[i] == Interpolated(a[i], b[i], f)
  {
    seq(|a|, i requires 0 <= i < |a| => Interpolated(a[i], b[i], f))
  }

  /** Every component of c lies between the same components of a and b. */
  predicate Bracketed(a: State, b: State, c: State)
  {
    |a| == |b| == |c| && forall i :: 0 <= i < |a| ==> Min(a[i], b[i]) <= c[i] <= Max(a[i], b[i])
  }

  /** With a fraction in [0, 1] every interpolated component lies between the
      two states' components. */
  lemma LerpBetween(a: State, b: State, f: real)
    requires |a| == |b| && 0.0 <= f <= 1.0
    ensures Bracketed(a, b, Lerp(a, b, f))
  {
    forall i | 0 <= i < |a|
      ensures Min(a[i], b[i]) <= Lerp(a, b, f)[i] <= Max(a[i], b[i])
    {
      Between(a[i], b[i], f);
    }
  }

  lemma Between(x: real, y: real, f: real)
    requires 0.0 <= f <= 1.0
    ensures Min(x, y) <= Interpolated(x, y, f) <= Max(x, y)
  {
    var w := y - x;
    var p := f * w;
    if x <= y {
      Fraction(f, w);
      assert x <= x + p <= y;
    } else {
      var v := x - y;
      Fraction(f, v);
      assert f * v <= v;
      assert f * v == -p;
      assert -p <= v;
    }
  }

  lemma Fraction(f: real, w: real)
    requires 0.0 <= f <= 1.0 && w >= 0.0
    ensures 0.0 <= f * w <= w
  {
    assert (1.0 - f) * w >= 0.0;
  }

  /** `simulated_states[-1] = interpolated_state`: all raw states but the last
      are kept; the last is replaced by the interpolation between the last two. */
  function InterpolateLast(raw: seq<State>, f: real): (r: seq<State>)
    requires |raw| >= 2 && |raw[|raw| - 2]| == |raw[|raw| - 1]|
    ensures |r| == |raw| && r[..|raw| - 1] == raw[..|raw| - 1]
    ensures r[|raw| - 1] == Lerp(raw[|raw| - 2], raw[|raw| - 1], f)
  {
    raw[..|raw| - 1] + [Lerp(raw[|raw| - 2], raw[|raw| - 1], f)]
  }

  /** The fraction of the way from v1 to v2 at which `target` is reached. */
  function CrossingFraction(target: real, v1: real, v2: real): real
    requires v1 != v2
  {
    (target - v1) / (v2 - v1)
  }

  /** A target strictly past v1 and reached by v2 is crossed at a fraction in
      (0, 1], and interpolating with that fraction hits the target exactly. */
  lemma CrossingExact(target: real, v1: real, v2: real)
    requires v1 < target <= v2 || v2 <= target < v1
    ensures 0.0 < CrossingFraction(target, v1, v2) <= 1.0
    ensures Interpolated(v1, v2, CrossingFraction(target, v1, v2)) == target
  {
    var f := CrossingFraction(target, v1, v2);
    var d := v2 - v1;
    assert f * d == target - v1;
    if v1 < v2 {
      PositiveRatio(target - v1, d);
      assert (1.0 - f) * d == v2 - target;
      assert 1.0 - f >= 0.0 by { NonNegativeFactor(1.0 - f, d); }
    } else {
      PositiveRatio(v1 - target, -d);
      assert f == (v1 - target) / (-d);
      assert (1.0 - f) * (-d) == target - v2;
      assert 1.0 - f >= 0.0 by { NonNegativeFactor(1.0 - f, -d); }
    }
  }

  lemma PositiveRatio(x: real, y: real)
    requires x > 0.0 && y > 0.0
    ensures x / y > 0.0
  {
  }

  lemma NonNegativeFactor(x: real, y: real)
    requires y > 0.0 && x * y >= 0.0
    ensures x >= 0.0
  {
  }

  /** One explicit Euler step of the phases' loops: velocity first, then
      position with the new velocity, then time; the acceleration used is
      stored in the last three components. */
  function Advance(s: State, a: seq<real>, dt: real): (r: State)
    requires |s| >= 7 && |a| == 3
    ensures |r| == 10 && r[T] == s[T] + dt && r[AX..] == a
    ensures r[VX] == s[VX] + a[0] * dt && r[VY] == s[VY] + a[1] * dt && r[VZ] == s[VZ] + a[2] * dt
    ensures r[X] == s[X] + r[VX] * dt && r[Y] == s[Y] + r[VY] * dt && r[Z] == s[Z] + r[VZ] * dt
  {
    var vx := s[VX] + a[0] * dt;
    var vy := s[VY] + a[1] * dt;
    var vz := s[VZ] + a[2] * dt;
    [s[T] + dt, s[X] + vx * dt, s[Y] + vy * dt, s[Z] + vz * dt, vx, vy, vz, a[0], a[1], a[2]]
  }

  /** A phase's step: from the current state and the step's index to the next
      state, or the exception the step raises. */
  type Step = (State, nat) -> Result<State>

  /** The state a step starts from: the seed for the first, the previous raw
      state after that. */
  function Before(seed: State, raw: seq<State>, k: nat): State
    requires k <= |raw|
  {
    if k == 0 then seed else raw[k - 1]
  }

  /** Every raw state is what the step makes of the state before it. */
  ghost predicate Stepped(step: Step, seed: State, raw: seq<State>)
  {
    forall k {:trigger Before(seed, raw, k)} :: 0 <= k < |raw| ==> step(Before(seed, raw, k), k) == Ok(raw[k])
  }

  lemma SteppedExtend(step: Step, seed: State, raw: seq<State>, next: State)
    requires Stepped(step, seed, raw)
    requires step(Before(seed, raw, |raw|), |raw|) == Ok(next)
    ensures Stepped(step, seed, raw + [next])
  {
    var raw' := raw + [next];
    forall k | 0 <= k < |raw'| ensures step(Before(seed, raw', k), k) == Ok(raw'[k]) {
      if k < |raw| {
        assert Before(seed, raw', k) == Before(seed, raw, k);
      }
    }
  }

  lemma SplitLast(raw: seq<State>)
    requires raw != []
    ensures raw[..|raw| - 1] + [raw[|raw| - 1]] == raw
  {
  }

  /** Raw states whose times advance by dt from the seed's. */
  ghost predicate Timed(t0: real, dt: real, raw: seq<State>)
  {
    forall k :: 0 <= k < |raw| ==> |raw[k]| == 10 && raw[k][T] == t0 + (k + 1) as real * dt
  }

  lemma TimedExtend(dt: real, seed: State, raw: seq<State>, next: State)
    requires |seed| >= 1 && Timed(seed[T], dt, raw)
    requires |next| == 10 && |Before(seed, raw, |raw|)| >= 1
    requires next[T] == Before(seed, raw, |raw|)[T] + dt
    ensures Timed(seed[T], dt, raw + [next])
  {
    var n := |raw|;
    assert (n + 1) as real * dt == n as real * dt + dt;
  }

  /** The times of such states strictly increase when dt > 0. */
  lemma TimedIncreasing(t0: real, dt: real, raw: seq<State>, i: int, j: int)
    requires Timed(t0, dt, raw) && dt > 0.0
    requires 0 <= i < j < |raw|
    ensures t0 < raw[i][T] < raw[j][T]
  {
    assert raw[j][T] - raw[i][T] == (j - i) as real * dt;
    assert (i + 1) as real * dt > 0.0;
  }
}
