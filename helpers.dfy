// rocketflightsim/helper_functions.py: the atmosphere formulas the flight
// phases call, and the piecewise-linear lookups into thrust and fuel-mass
// curves (`thrust_at_time`, `mass_at_time`).
module HelperFunctions {
  import opened Base
  import opened Dict

  /** `temp_at_height`: linear temperature profile above the launchpad.
      The flight phases call it under the name `temp_at_altitude`. */
  function TempAtHeight(h: real, launchpadTemp: real, lapseRate: real := T_LAPSE_RATE): real
  {
    launchpadTemp + h * lapseRate
  }

  /** With a negative lapse rate the air gets strictly colder with height. */
  lemma TempDecreasing(h1: real, h2: real, launchpadTemp: real, lapseRate: real)
    requires lapseRate < 0.0 && h1 < h2
    ensures TempAtHeight(h2, launchpadTemp, lapseRate) < TempAtHeight(h1, launchpadTemp, lapseRate)
  {
    assert (h2 - h1) * lapseRate < 0.0;
  }

  /** The standard lapse rate reproduces the launchpad temperature at h = 0
      and drops 6.5 K per kilometre. */
  lemma StandardLapse(launchpadTemp: real)
    ensures TempAtHeight(0.0, launchpadTemp) == launchpadTemp
    ensures TempAtHeight(1000.0, launchpadTemp) == launchpadTemp - 6.5
  {
  }

  /** `air_density_optimized`: `multiplier * pow(temp, exponent)`. */
  function AirDensityOptimized(m: Math, temp: real, multiplier: real, exponent: real): real
  {
    multiplier * m.pow(temp, exponent)
  }

  /** `calculate_dynamic_pressure`: half the density times the squared speed. */
  function DynamicPressure(airDensity: real, speed: real): (q: real)
    ensures airDensity >= 0.0 ==> q >= 0.0
    ensures speed == 0.0 ==> q == 0.0
  {
    var s2 := speed * speed;
    assert s2 >= 0.0;
    0.5 * airDensity * s2
  }

  /** `mach_number_fn`: speed over the speed of sound sqrt(gamma * R * T). */
  function MachNumber(m: Math, v: real, temp: real): real
  {
    Quot(m, v, m.sqrt(ADIABATIC_INDEX_AIR_TIMES_R_SPECIFIC_AIR * temp))
  }

  /** `air_density_fn`: the ideal-gas density P / (R_air * T). Both arguments
      are Python floats, so a zero temperature raises ZeroDivisionError. */
  function AirDensityFn(pressure: real, temp: real): (r: Result<real>)
    ensures r.Err? <==> temp == 0.0
    ensures r.Err? ==> r.error == ZeroDivision
    ensures r.Ok? ==> r.value * (R_SPECIFIC_AIR * temp) == pressure
    ensures r.Ok? && pressure > 0.0 && temp > 0.0 ==> r.value > 0.0
  {
    if R_SPECIFIC_AIR * temp == 0.0 then Err(ZeroDivision)
    else Ok(pressure / (R_SPECIFIC_AIR * temp))
  }

  /** The bracket-and-interpolate lookup shared by `thrust_at_time` and
      `mass_at_time`: the largest key <= t and the smallest key > t are found
      with max()/min() over all keys (either list may be empty, a ValueError),
      and the value is interpolated on the line through the two samples. */
  function Lookup(d: Table, t: real): (r: Result<real>)
    ensures r.Ok? <==> LowerKey(d, t).Some? && UpperKey(d, t).Some?
    ensures r.Err? ==> r.error == EmptySequence
  {
    var lo := LowerKey(d, t);
    var hi := UpperKey(d, t);
    if lo.None? || hi.None? then Err(EmptySequence)
    else Ok(OnLine(lo.value, Get(d, lo.value), hi.value, Get(d, hi.value), t))
  }

  /** The value at t of the line through (k1, v1) and (k2, v2). */
  function OnLine(k1: real, v1: real, k2: real, v2: real, t: real): real
    requires k1 < k2
  {
    v1 + (t - k1) * (v2 - v1) / (k2 - k1)
  }

  /** `thrust_at_time(time, engine_thrust_lookup)` */
  function ThrustAtTime(t: real, thrustCurve: Table): Result<real>
  {
    Lookup(thrustCurve, t)
  }

  /** `mass_at_time(time, dry_mass, fuel_mass_lookup)`: dry mass plus the
      interpolated fuel mass. */
  function MassAtTime(t: real, dryMass: real, fuelMassCurve: Table): Result<real>
  {
    match Lookup(fuelMassCurve, t)
    case Ok(fuel) => Ok(dryMass + fuel)
    case Err(e) => Err(e)
  }

  /** A lookup succeeds exactly when the first key <= t < the last key: at the
      largest key itself there is no larger key and min() fails. */
  lemma LookupDefinedIff(d: Table, t: real)
    ensures Lookup(d, t).Ok? <==> d != [] && MinKey(d) <= t < MaxKey(d)
    ensures ThrustAtTime(t, d).Ok? <==> Lookup(d, t).Ok?
    ensures forall dry :: MassAtTime(t, dry, d).Ok? <==> Lookup(d, t).Ok?
  {
    if d != [] {
      var lo := MinKey(d);
      var hi := MaxKey(d);
      var i :| 0 <= i < |d| && d[i].0 == lo;
      var j :| 0 <= j < |d| && d[j].0 == hi;
      if lo <= t < hi {
        assert d[i].0 <= t && d[j].0 > t;
      }
    }
  }

  /** The bracket is determined by the set of pairs, so two dicts holding the
      same items in different insertion orders give the same lookups. */
  lemma LookupOrderIndependent(d1: Table, d2: Table, t: real)
    requires IsDict(d1) && IsDict(d2)
    requires forall p :: p in d1 <==> p in d2
    ensures Lookup(d1, t) == Lookup(d2, t)
  {
    SameKeysSameLower(d1, d2, t);
    SameKeysSameUpper(d1, d2, t);
    SameBracketSameLookup(d1, d2, t);
  }

  /** `mass_at_time` inherits the order independence of the lookup. */
  lemma MassOrderIndependent(t: real, dryMass: real, d1: Table, d2: Table)
    requires IsDict(d1) && IsDict(d2)
    requires forall p :: p in d1 <==> p in d2
    ensures MassAtTime(t, dryMass, d1) == MassAtTime(t, dryMass, d2)
  {
    LookupOrderIndependent(d1, d2, t);
  }

  lemma SameBracketSameLookup(d1: Table, d2: Table, t: real)
    requires IsDict(d1) && IsDict(d2)
    requires forall p :: p in d1 <==> p in d2
    requires LowerKey(d1, t) == LowerKey(d2, t)
    requires UpperKey(d1, t) == UpperKey(d2, t)
    ensures Lookup(d1, t) == Lookup(d2, t)
  {
    var lo := LowerKey(d1, t);
    var hi := UpperKey(d1, t);
    if lo.Some? && hi.Some? {
      GetSamePairs(d1, d2, lo.value);
      GetSamePairs(d1, d2, hi.value);
    }
  }

  /** Every pair of d1 is in d2, so d2's largest key at or below t is no smaller. */
  lemma LowerDominated(d1: Table, d2: Table, t: real)
    requires forall p :: p in d1 ==> p in d2
    ensures LowerKey(d1, t).Some? ==>
              LowerKey(d2, t).Some? && LowerKey(d1, t).value <= LowerKey(d2, t).value
  {
    var r1 := LowerKey(d1, t);
    if r1.Some? {
      var i :| 0 <= i < |d1| && d1[i].0 == r1.value;
      assert d1[i] in d2;
      var j :| 0 <= j < |d2| && d2[j] == d1[i];
      assert d2[j].0 <= t;
    }
  }

  /** Every pair of d1 is in d2, so d2's smallest key above t is no larger. */
  lemma UpperDominated(d1: Table, d2: Table, t: real)
    requires forall p :: p in d1 ==> p in d2
    ensures UpperKey(d1, t).Some? ==>
              UpperKey(d2, t).Some? && UpperKey(d2, t).value <= UpperKey(d1, t).value
  {
    var r1 := UpperKey(d1, t);
    if r1.Some? {
      var i :| 0 <= i < |d1| && d1[i].0 == r1.value;
      assert d1[i] in d2;
      var j :| 0 <= j < |d2| && d2[j] == d1[i];
      assert d2[j].0 > t;
    }
  }

  lemma SameKeysSameLower(d1: Table, d2: Table, t: real)
    requires forall p :: p in d1 <==> p in d2
    ensures LowerKey(d1, t) == LowerKey(d2, t)
  {
    LowerDominated(d1, d2, t);
    LowerDominated(d2, d1, t);
  }

  lemma SameKeysSameUpper(d1: Table, d2: Table, t: real)
    requires forall p :: p in d1 <==> p in d2
    ensures UpperKey(d1, t) == UpperKey(d2, t)
  {
    UpperDominated(d1, d2, t);
    UpperDominated(d2, d1, t);
  }

  /** At a sample key other than the largest, the lookup returns the sample:
      `thrust_at_time` gives `curve[k]`, `mass_at_time` gives `dry + curve[k]`. */
  lemma LookupAtSample(d: Table, i: int, dryMass: real)
    requires IsDict(d)
    requires 0 <= i < |d|
    requires exists j :: 0 <= j < |d| && d[j].0 > d[i].0
    ensures ThrustAtTime(d[i].0, d) == Ok(d[i].1)
    ensures MassAtTime(d[i].0, dryMass, d) == Ok(dryMass + d[i].1)
  {
    var lo := LowerKey(d, d[i].0);
    assert lo.Some? && lo.value == d[i].0;
  }

  /** The interpolated value lies between the two bracketing samples. */
  lemma LookupBetween(d: Table, t: real)
    requires Lookup(d, t).Ok?
    ensures var v := Lookup(d, t).value;
            var lv := Get(d, LowerKey(d, t).value);
            var uv := Get(d, UpperKey(d, t).value);
            Min(lv, uv) <= v <= Max(lv, uv)
  {
    var lk := LowerKey(d, t).value;
    var uk := UpperKey(d, t).value;
    OnLineBetween(lk, Get(d, lk), uk, Get(d, uk), t);
  }

  /** On [k1, k2) the line through two samples stays between their values. */
  lemma OnLineBetween(k1: real, v1: real, k2: real, v2: real, t: real)
    requires k1 <= t < k2
    ensures Min(v1, v2) <= OnLine(k1, v1, k2, v2, t) <= Max(v1, v2)
  {
    var f := (t - k1) / (k2 - k1);
    UnitFraction(t - k1, k2 - k1);
    assert f * (k2 - k1) == t - k1;
    assert (t - k1) * (v2 - v1) == f * (v2 - v1) * (k2 - k1);
    DivOf((t - k1) * (v2 - v1), k2 - k1, f * (v2 - v1));
    assert OnLine(k1, v1, k2, v2, t) == v1 + f * (v2 - v1);
    if v1 <= v2 {
      ScaleWithin(f, v2 - v1);
    } else {
      ScaleWithin(f, v1 - v2);
      assert f * (v2 - v1) == -(f * (v1 - v2));
    }
  }

  /** x / w with 0 <= x < w is in [0, 1). */
  lemma UnitFraction(x: real, w: real)
    requires 0.0 <= x < w
    ensures 0.0 <= x / w < 1.0
  {
    var f := x / w;
    assert f * w == x;
    assert (1.0 - f) * w == w - x;
  }

  /** A fraction in [0, 1] of a non-negative quantity is at most that quantity. */
  lemma ScaleWithin(f: real, x: real)
    requires 0.0 <= f <= 1.0 && x >= 0.0
    ensures 0.0 <= f * x <= x
  {
    assert (1.0 - f) * x >= 0.0;
  }

  /** A fuel-mass curve whose values are non-negative and never increase with
      time (over the keys, in whatever order they were inserted). */
  ghost predicate BurnsDown(d: Table)
  {
    (forall i :: 0 <= i < |d| ==> d[i].1 >= 0.0) &&
    (forall i, j :: 0 <= i < |d| && 0 <= j < |d| && d[i].0 <= d[j].0 ==> d[i].1 >= d[j].1)
  }

  /** With such a curve the total mass never drops below the dry mass. */
  lemma MassAtLeastDry(t: real, dryMass: real, d: Table)
    requires IsDict(d) && BurnsDown(d)
    requires MassAtTime(t, dryMass, d).Ok?
    ensures MassAtTime(t, dryMass, d).value >= dryMass
  {
    LookupBetween(d, t);
    var lk := LowerKey(d, t).value;
    var uk := UpperKey(d, t).value;
    var i :| 0 <= i < |d| && d[i].0 == lk;
    var j :| 0 <= j < |d| && d[j].0 == uk;
    assert Get(d, lk) == d[i].1 && Get(d, uk) == d[j].1;
  }

  /** ... and it never increases with time. */
  lemma MassNonIncreasing(t1: real, t2: real, dryMass: real, d: Table)
    requires IsDict(d) && BurnsDown(d)
    requires t1 <= t2
    requires MassAtTime(t1, dryMass, d).Ok? && MassAtTime(t2, dryMass, d).Ok?
    ensures MassAtTime(t1, dryMass, d).value >= MassAtTime(t2, dryMass, d).value
  {
    LookupNonIncreasing(d, t1, t2);
  }

  lemma LookupNonIncreasing(d: Table, t1: real, t2: real)
    requires IsDict(d) && BurnsDown(d)
    requires t1 <= t2
    requires Lookup(d, t1).Ok? && Lookup(d, t2).Ok?
    ensures Lookup(d, t1).value >= Lookup(d, t2).value
  {
    var a1, b1 := LowerKey(d, t1).value, UpperKey(d, t1).value;
    var a2, b2 := LowerKey(d, t2).value, UpperKey(d, t2).value;
    BracketsAdvance(d, t1, t2);
    BurnsDownGet(d, a1, b1);
    BurnsDownGet(d, a2, b2);
    if a1 != a2 {
      BurnsDownGet(d, b1, a2);
    }
    LinesNonIncreasing(a1, Get(d, a1), b1, Get(d, b1), a2, Get(d, a2), b2, Get(d, b2), t1, t2);
  }

  /** Two consecutive or equal brackets of non-increasing samples give
      non-increasing interpolated values. */
  lemma LinesNonIncreasing(a1: real, va1: real, b1: real, vb1: real,
                           a2: real, va2: real, b2: real, vb2: real, t1: real, t2: real)
    requires a1 <= t1 < b1 && a2 <= t2 < b2 && t1 <= t2
    requires va1 >= vb1 && va2 >= vb2
    requires a1 == a2 ==> b1 == b2 && va1 == va2 && vb1 == vb2
    requires a1 != a2 ==> b1 <= a2 && vb1 >= va2
    ensures OnLine(a1, va1, b1, vb1, t1) >= OnLine(a2, va2, b2, vb2, t2)
  {
    if a1 == a2 {
      OnLineNonIncreasing(a1, va1, b1, vb1, t1, t2);
    } else {
      OnLineBetween(a1, va1, b1, vb1, t1);
      OnLineBetween(a2, va2, b2, vb2, t2);
    }
  }

  /** Moving t forward moves the bracket forward: either it stays the same or
      the old upper key is at most the new lower key. */
  lemma BracketsAdvance(d: Table, t1: real, t2: real)
    requires t1 <= t2
    requires LowerKey(d, t1).Some? && UpperKey(d, t1).Some?
    requires LowerKey(d, t2).Some? && UpperKey(d, t2).Some?
    ensures var a1, b1 := LowerKey(d, t1).value, UpperKey(d, t1).value;
            var a2, b2 := LowerKey(d, t2).value, UpperKey(d, t2).value;
            a1 <= a2 && (a1 == a2 ==> b1 == b2) && (a1 != a2 ==> b1 <= a2)
  {
    var a1, b1 := LowerKey(d, t1).value, UpperKey(d, t1).value;
    var a2, b2 := LowerKey(d, t2).value, UpperKey(d, t2).value;
    var i1 :| 0 <= i1 < |d| && d[i1].0 == a1;
    var j1 :| 0 <= j1 < |d| && d[j1].0 == b1;
    var i2 :| 0 <= i2 < |d| && d[i2].0 == a2;
    var j2 :| 0 <= j2 < |d| && d[j2].0 == b2;
    assert a1 <= a2;
    assert b1 <= t2 ==> b1 <= a2;
    assert t1 < b2;
  }

  /** In a burning-down curve a later key holds no more fuel. */
  lemma BurnsDownGet(d: Table, k1: real, k2: real)
    requires IsDict(d) && BurnsDown(d)
    requires HasKey(d, k1) && HasKey(d, k2) && k1 <= k2
    ensures Get(d, k1) >= Get(d, k2)
  {
    var i :| 0 <= i < |d| && d[i].0 == k1;
    var j :| 0 <= j < |d| && d[j].0 == k2;
    assert Get(d, k1) == d[i].1 && Get(d, k2) == d[j].1;
  }

  /** A line through samples that do not increase does not increase. */
  lemma OnLineNonIncreasing(k1: real, v1: real, k2: real, v2: real, t1: real, t2: real)
    requires k1 < k2 && v2 <= v1 && t1 <= t2
    ensures OnLine(k1, v1, k2, v2, t1) >= OnLine(k1, v1, k2, v2, t2)
  {
    var s := (v2 - v1) / (k2 - k1);
    assert s <= 0.0;
    MulDiv(t1 - k1, v2 - v1, k2 - k1);
    MulDiv(t2 - k1, v2 - v1, k2 - k1);
    assert (t2 - t1) * s <= 0.0;
  }

  lemma MulDiv(x: real, y: real, w: real)
    requires w != 0.0
    ensures x * y / w == x * (y / w)
  {
  }
}
