// rocketflightsim/classes/motor.py: a motor is its thrust curve plus the
// quantities derived from it at construction (total impulse, burn time) and a
// fuel-mass curve that is either given, built in proportion to thrust, or
// zero.
module MotorModel {
  import opened Base
  import opened Dict

  /** One trapezoid of the thrust curve, between keys i-1 and i (in insertion order). */
  function Slice(d: Table, i: int): real
    requires 1 <= i < |d|
  {
    (d[i].1 + d[i - 1].1) / 2.0 * (d[i].0 - d[i - 1].0)
  }

  /** `np.trapezoid(list(d.values()), list(d.keys()))`: the trapezoid rule over
      consecutive keys in insertion order; zero for fewer than two samples. */
  function Trapezoid(d: Table): real
  {
    if |d| < 2 then 0.0 else Trapezoid(d[..|d| - 1]) + Slice(d, |d| - 1)
  }

  /** The impulse up to sample i is the impulse up to sample i-1 plus slice i. */
  lemma TrapezoidPrefix(d: Table, i: int)
    requires 1 <= i < |d|
    ensures Trapezoid(d[..i + 1]) == Trapezoid(d[..i]) + Slice(d, i)
  {
    assert d[..i + 1][..i] == d[..i];
  }

  /** With sorted keys and non-negative thrust the impulse is non-negative. */
  lemma {:induction false} TrapezoidNonNegative(d: Table)
    requires Increasing(d)
    requires forall i :: 0 <= i < |d| ==> d[i].1 >= 0.0
    ensures Trapezoid(d) >= 0.0
  {
    if |d| >= 2 {
      var init := d[..|d| - 1];
      assert Increasing(init);
      TrapezoidNonNegative(init);
      SliceNonNegative(d, |d| - 1);
    }
  }

  lemma SliceNonNegative(d: Table, i: int)
    requires 1 <= i < |d|
    requires d[i - 1].0 <= d[i].0 && d[i].1 >= 0.0 && d[i - 1].1 >= 0.0
    ensures Slice(d, i) >= 0.0
  {
    var h := (d[i].1 + d[i - 1].1) / 2.0;
    assert h >= 0.0;
    assert h * (d[i].0 - d[i - 1].0) >= 0.0;
  }

  /** The fuel-mass curve of the `elif fuel_mass:` branch: it starts at
      (0, fuelMass), has the thrust curve's keys after that, and every entry
      is the previous one less its slice's share of the total impulse. */
  ghost predicate ProportionalBurn(m: Math, d: Table, totalImpulse: real, fuelMass: real, c: Table)
  {
    |c| == |d| && |c| >= 1 && c[0] == (0.0, fuelMass) &&
    forall i {:trigger Slice(d, i)} :: 1 <= i < |d| ==>
      c[i].0 == d[i].0 && c[i].1 == Burned(m, c[i - 1].1, Slice(d, i), totalImpulse, fuelMass)
  }

  /** Entry i of such a curve, read off the recurrence. */
  lemma BurnAt(m: Math, d: Table, totalImpulse: real, fuelMass: real, c: Table, i: int)
    requires ProportionalBurn(m, d, totalImpulse, fuelMass, c) && 1 <= i < |d|
    ensures c[i].0 == d[i].0 && c[i].1 == Burned(m, c[i - 1].1, Slice(d, i), totalImpulse, fuelMass)
  {
    assert |c| == |d|;
    var slice := Slice(d, i);
  }

  /** The fuel left after burning a slice's share of the total impulse. */
  function Burned(m: Math, previous: real, slice: real, totalImpulse: real, fuelMass: real): real
  {
    previous - Quot(m, slice, totalImpulse) * fuelMass
  }

  /** The loop of motor.py that fills `self.fuel_mass_curve` entry by entry,
      each read back from the previous key. The first read is `curve[times[0]]`
      in a dict holding only key 0: a KeyError unless the thrust curve starts
      at time 0. */
  method BuildFuelMassCurve(m: Math, thrustCurve: Table, totalImpulse: real, fuelMass: real)
    returns (r: Result<Table>)
    requires thrustCurve != []
    requires IsDict(thrustCurve)
    ensures r.Err? <==> |thrustCurve| >= 2 && thrustCurve[0].0 != 0.0
    ensures r.Err? ==> r.error == KeyNotFound
    ensures r.Ok? ==> ProportionalBurn(m, thrustCurve, totalImpulse, fuelMass, r.value)
  {
    var curve: Table := [(0.0, fuelMass)];
    var times := Keys(thrustCurve);
    if |times| >= 2 && times[0] != 0.0 {
      return Err(KeyNotFound);
    }
    if |times| == 1 {
      return Ok(curve);
    }
    var t := 1;
    while t < |times|
      invariant 1 <= t <= |times|
      invariant ProportionalBurn(m, thrustCurve[..t], totalImpulse, fuelMass, curve)
      invariant forall i :: 0 <= i < t ==> curve[i].0 == times[i]
    {
      var slice := (thrustCurve[t].1 + thrustCurve[t - 1].1) / 2.0 * (times[t] - times[t - 1]);
      assert slice == Slice(thrustCurve, t);
      PrefixKeysDistinct(thrustCurve, curve, t);
      GetPair(curve, times[t - 1], curve[t - 1].1);
      var previous := Get(curve, times[t - 1]);
      var next := Burned(m, previous, slice, totalImpulse, fuelMass);
      ProportionalBurnExtend(m, thrustCurve, totalImpulse, fuelMass, curve, t);
      curve := Put(curve, times[t], next);
      t := t + 1;
    }
    assert thrustCurve[..t] == thrustCurve;
    return Ok(curve);
  }

  /** A table whose keys are the first t keys of a dict is a dict that does not
      hold the dict's t-th key. */
  lemma PrefixKeysDistinct(d: Table, c: Table, t: int)
    requires IsDict(d) && 0 <= t < |d| && |c| == t
    requires forall i :: 0 <= i < t ==> c[i].0 == d[i].0
    ensures IsDict(c) && !HasKey(c, d[t].0)
  {
    forall i, j | 0 <= i < j < t ensures c[i].0 != c[j].0 {
      assert d[i].0 != d[j].0;
    }
    forall i | 0 <= i < t ensures c[i].0 != d[t].0 {
      assert d[i].0 != d[t].0;
    }
  }

  /** Appending the next entry of the recurrence extends the curve by one sample. */
  lemma ProportionalBurnExtend(m: Math, d: Table, totalImpulse: real, fuelMass: real, c: Table, t: int)
    requires 1 <= t < |d|
    requires ProportionalBurn(m, d[..t], totalImpulse, fuelMass, c)
    ensures ProportionalBurn(m, d[..t + 1], totalImpulse, fuelMass,
                             c + [(d[t].0, Burned(m, c[t - 1].1, Slice(d, t), totalImpulse, fuelMass))])
  {
    var c' := c + [(d[t].0, Burned(m, c[t - 1].1, Slice(d, t), totalImpulse, fuelMass))];
    forall i | 1 <= i < t + 1
      ensures c'[i].0 == d[..t + 1][i].0
      ensures c'[i].1 == Burned(m, c'[i - 1].1, Slice(d[..t + 1], i), totalImpulse, fuelMass)
    {
      assert Slice(d[..t + 1], i) == Slice(d, i);
      if i < t {
        assert Slice(d[..t], i) == Slice(d, i);
      }
    }
  }

  /** Summing the recurrence: entry i is the fuel mass less its share of the
      impulse delivered up to sample i. */
  lemma {:induction false} ProportionalBurnClosedForm(m: Math, d: Table, totalImpulse: real, fuelMass: real, c: Table, i: int)
    requires ProportionalBurn(m, d, totalImpulse, fuelMass, c)
    requires totalImpulse != 0.0
    requires 0 <= i < |d|
    ensures c[i].1 == fuelMass - fuelMass * Trapezoid(d[..i + 1]) / totalImpulse
  {
    if i > 0 {
      ProportionalBurnClosedForm(m, d, totalImpulse, fuelMass, c, i - 1);
      BurnAt(m, d, totalImpulse, fuelMass, c, i);
      assert d[..i - 1 + 1] == d[..i];
      ClosedFormStep(m, d, totalImpulse, fuelMass, c[i].1, c[i - 1].1, i);
    } else {
      assert d[..1][..0] == [];
    }
  }

  lemma ClosedFormStep(m: Math, d: Table, totalImpulse: real, fuelMass: real, entry: real, previous: real, i: int)
    requires 1 <= i < |d| && totalImpulse != 0.0
    requires previous == fuelMass - fuelMass * Trapezoid(d[..i]) / totalImpulse
    requires entry == Burned(m, previous, Slice(d, i), totalImpulse, fuelMass)
    ensures entry == fuelMass - fuelMass * Trapezoid(d[..i + 1]) / totalImpulse
  {
    TrapezoidPrefix(d, i);
    ShareStep(entry, previous, fuelMass, Trapezoid(d[..i]), Slice(d, i), totalImpulse);
  }

  lemma ShareStep(entry: real, previous: real, fuelMass: real, before: real, slice: real, totalImpulse: real)
    requires totalImpulse != 0.0
    requires previous == fuelMass - fuelMass * before / totalImpulse
    requires entry == previous - slice / totalImpulse * fuelMass
    ensures entry == fuelMass - fuelMass * (before + slice) / totalImpulse
  {
    assert fuelMass * (before + slice) / totalImpulse
        == fuelMass * before / totalImpulse + fuelMass * slice / totalImpulse;
  }

  /** When the total impulse is the curve's own trapezoid sum and non-zero,
      the fuel is exactly used up at the last sample. */
  lemma FuelRunsOut(m: Math, d: Table, fuelMass: real, c: Table)
    requires ProportionalBurn(m, d, Trapezoid(d), fuelMass, c)
    requires Trapezoid(d) != 0.0
    ensures c[|c| - 1].1 == 0.0
  {
    ProportionalBurnClosedForm(m, d, Trapezoid(d), fuelMass, c, |d| - 1);
    assert d[..|d| - 1 + 1] == d;
    AllShared(c[|d| - 1].1, fuelMass, Trapezoid(d));
  }

  lemma AllShared(entry: real, fuelMass: real, total: real)
    requires total != 0.0 && entry == fuelMass - fuelMass * total / total
    ensures entry == 0.0
  {
    DivOf(fuelMass * total, total, fuelMass);
  }

  /** With sorted keys, non-negative thrust, positive total impulse and
      non-negative fuel mass, the entries never increase. */
  lemma {:induction false} FuelNonIncreasing(m: Math, d: Table, totalImpulse: real, fuelMass: real, c: Table, i: int, j: int)
    requires ProportionalBurn(m, d, totalImpulse, fuelMass, c)
    requires Increasing(d)
    requires forall k :: 0 <= k < |d| ==> d[k].1 >= 0.0
    requires totalImpulse > 0.0 && fuelMass >= 0.0
    requires 0 <= i <= j < |d|
    ensures c[i].1 >= c[j].1
  {
    if i < j {
      FuelNonIncreasing(m, d, totalImpulse, fuelMass, c, i, j - 1);
      BurnAt(m, d, totalImpulse, fuelMass, c, j);
      SliceNonNegative(d, j);
      var share := Slice(d, j) / totalImpulse;
      assert share >= 0.0;
      assert share * fuelMass >= 0.0;
      assert Quot(m, Slice(d, j), totalImpulse) == share;
    }
  }

  /** For a thrust curve with sorted keys starting at 0, the built fuel curve
      is a dict with sorted keys that burns down to zero, which is what the
      mass lookups need to stay at or above the dry mass. */
  lemma ProportionalBurnBurnsDown(m: Math, d: Table, fuelMass: real, c: Table)
    requires ProportionalBurn(m, d, Trapezoid(d), fuelMass, c)
    requires Increasing(d) && (|d| >= 2 ==> d[0].0 == 0.0)
    requires forall k :: 0 <= k < |d| ==> d[k].1 >= 0.0
    requires Trapezoid(d) > 0.0 && fuelMass >= 0.0
    ensures Increasing(c)
    ensures forall k :: 0 <= k < |c| ==> c[k].1 >= 0.0
    ensures forall a, b :: 0 <= a <= b < |c| ==> c[a].1 >= c[b].1
  {
    forall a, b | 0 <= a <= b < |c| ensures c[a].1 >= c[b].1 {
      FuelNonIncreasing(m, d, Trapezoid(d), fuelMass, c, a, b);
    }
    FuelRunsOut(m, d, fuelMass, c);
    forall k | 0 <= k < |c| ensures c[k].1 >= 0.0 {
      FuelNonIncreasing(m, d, Trapezoid(d), fuelMass, c, k, |c| - 1);
    }
    forall a, b | 0 <= a < b < |c| ensures c[a].0 < c[b].0 {
      BurnAt(m, d, Trapezoid(d), fuelMass, c, b);
      if a == 0 {
        assert d[0].0 < d[b].0;
      } else {
        BurnAt(m, d, Trapezoid(d), fuelMass, c, a);
      }
    }
  }

  /** A motor as stored by `Motor.__init__`. The thrust curve is the one
      attribute later code changes in place (the liftoff solver inserts the
      clamp-release time into it). */
  class Motor {
    var thrustCurve: Table
    const dryMass: real
    const totalImpulse: real
    const burnTime: real
    const fuelMassCurve: Table
    const fuelMass: real

    constructor (thrustCurve: Table, dryMass: real, totalImpulse: real, burnTime: real,
                 fuelMassCurve: Table, fuelMass: real)
      ensures this.thrustCurve == thrustCurve && this.dryMass == dryMass
      ensures this.totalImpulse == totalImpulse && this.burnTime == burnTime
      ensures this.fuelMassCurve == fuelMassCurve && this.fuelMass == fuelMass
    {
      this.thrustCurve := thrustCurve;
      this.dryMass := dryMass;
      this.totalImpulse := totalImpulse;
      this.burnTime := burnTime;
      this.fuelMassCurve := fuelMassCurve;
      this.fuelMass := fuelMass;
    }
  }

  /** `Motor(thrust_curve, dry_mass=0, fuel_mass_curve=None, fuel_mass=None)`.
      An absent or empty fuel-mass curve is `[]` and an absent fuel mass is 0,
      as Python's truthiness tests treat them alike. */
  method NewMotor(m: Math, thrustCurve: Table, dryMass: real := 0.0,
                  fuelMassCurve: Table := [], fuelMass: real := 0.0)
    returns (r: Result<Motor>)
    requires IsDict(thrustCurve)
    ensures r.Ok? <==>
      thrustCurve != [] &&
      (fuelMassCurve != [] ==> HasKey(fuelMassCurve, 0.0)) &&
      (fuelMassCurve == [] && fuelMass != 0.0 && |thrustCurve| >= 2 ==> thrustCurve[0].0 == 0.0)
    ensures r.Err? ==> r.error == (if thrustCurve == [] then EmptySequence else KeyNotFound)
    ensures r.Ok? ==> fresh(r.value)
    ensures r.Ok? ==>
      r.value.thrustCurve == thrustCurve && r.value.dryMass == dryMass &&
      r.value.totalImpulse == Trapezoid(thrustCurve) && r.value.burnTime == MaxKey(thrustCurve)
    ensures r.Ok? && fuelMassCurve != [] ==>
      r.value.fuelMassCurve == fuelMassCurve && r.value.fuelMass == Get(fuelMassCurve, 0.0)
    ensures r.Ok? && fuelMassCurve == [] && fuelMass != 0.0 ==>
      r.value.fuelMass == fuelMass &&
      ProportionalBurn(m, thrustCurve, Trapezoid(thrustCurve), fuelMass, r.value.fuelMassCurve)
    ensures r.Ok? && fuelMassCurve == [] && fuelMass == 0.0 ==>
      r.value.fuelMass == 0.0 &&
      r.value.fuelMassCurve == Put([(0.0, 0.0)], MaxKey(thrustCurve), 0.0)
  {
    var totalImpulse := Trapezoid(thrustCurve);
    if thrustCurve == [] {
      return Err(EmptySequence);
    }
    var burnTime := MaxKey(thrustCurve);
    if fuelMassCurve != [] {
      if !HasKey(fuelMassCurve, 0.0) {
        return Err(KeyNotFound);
      }
      var motor := new Motor(thrustCurve, dryMass, totalImpulse, burnTime,
                             fuelMassCurve, Get(fuelMassCurve, 0.0));
      return Ok(motor);
    } else if fuelMass != 0.0 {
      var built := BuildFuelMassCurve(m, thrustCurve, totalImpulse, fuelMass);
      if built.Err? {
        return Err(built.error);
      }
      var motor := new Motor(thrustCurve, dryMass, totalImpulse, burnTime, built.value, fuelMass);
      return Ok(motor);
    } else {
      var motor := new Motor(thrustCurve, dryMass, totalImpulse, burnTime,
                             Put([(0.0, 0.0)], burnTime, 0.0), 0.0);
      return Ok(motor);
    }
  }

  /** Without fuel data the zero curve spans the burn: both its samples are
      0 and it has a key at 0 and at the burn time. */
  lemma NoFuelCurve(burnTime: real)
    ensures var c := Put([(0.0, 0.0)], burnTime, 0.0);
            HasKey(c, 0.0) && HasKey(c, burnTime) &&
            (forall i :: 0 <= i < |c| ==> c[i].1 == 0.0) &&
            |c| == (if burnTime == 0.0 then 1 else 2)
  {
    var c := Put([(0.0, 0.0)], burnTime, 0.0);
    var z: Table := [(0.0, 0.0)];
    assert z[0].0 == 0.0;
    if burnTime == 0.0 {
      assert HasKey(z, burnTime);
      assert c[0] == (0.0, 0.0);
    } else {
      assert !HasKey(z, burnTime);
      assert c == [(0.0, 0.0), (burnTime, 0.0)];
      assert c[0].0 == 0.0 && c[1].0 == burnTime;
    }
  }
}
