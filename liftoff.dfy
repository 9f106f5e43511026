// The ignition-to-liftoff phase: the time after ignition at which the thrust
// first exceeds the weight component along the rail (plus any hold-down clamp
// force), found by intersecting the thrust line with the threshold line
// between two neighbouring thrust-curve keys.
module IgnitionToLiftoff {
  import opened Base
  import opened Dict
  import opened HelperFunctions
  import opened MotorModel
  import opened RocketModel
  import opened Descriptors

  // ---------------------------------------------------------------------------
  // The liftoff threshold table

  lemma HasKeyCons(d: Table, k: real)
    requires d != []
    ensures HasKey(d, k) <==> d[0].0 == k || HasKey(d[1..], k)
  {
    if HasKey(d[1..], k) {
      var i :| 0 <= i < |d[1..]| && d[1..][i].0 == k;
      assert d[i + 1].0 == k;
    }
    if HasKey(d, k) && d[0].0 != k {
      var i :| 0 <= i < |d| && d[i].0 == k;
      assert d[1..][i - 1].0 == k;
    }
  }

  /** `[time for time in d.keys() if time < t]` */
  function KeysBefore(d: Table, t: real): (ks: seq<real>)
    ensures |ks| <= |d|
    ensures forall k :: k in ks <==> HasKey(d, k) && k < t
  {
    if d == [] then []
    else
      var rest := KeysBefore(d[1..], t);
      assert forall k :: HasKey(d, k) <==> d[0].0 == k || HasKey(d[1..], k) by {
        forall k ensures HasKey(d, k) <==> d[0].0 == k || HasKey(d[1..], k) {
          HasKeyCons(d, k);
        }
      }
      (if d[0].0 < t then [d[0].0] else []) + rest
  }

  /** In a sorted dict the keys before t are exactly its first entries. */
  lemma {:induction false} KeysBeforeSorted(d: Table, t: real)
    requires Increasing(d)
    ensures forall i :: 0 <= i < |d| ==> (d[i].0 < t <==> i < |KeysBefore(d, t)|)
    ensures forall i :: 0 <= i < |KeysBefore(d, t)| ==> KeysBefore(d, t)[i] == d[i].0
  {
    if d != [] {
      var tail := d[1..];
      assert Increasing(tail);
      KeysBeforeSorted(tail, t);
      assert forall i :: 1 <= i < |d| ==> d[i] == tail[i - 1];
      if d[0].0 >= t {
        assert KeysBefore(tail, t) == [] by {
          if |tail| > 0 {
            assert !(tail[0].0 < t);
          }
        }
      }
    }
  }

  /** `[mass_at_time(time, dry_mass, fuel) for time in ks]`: every lookup
      fails the same way, so the list exists exactly when each lookup succeeds. */
  function MassesAt(ks: seq<real>, dryMass: real, fuel: Table): (r: Result<seq<real>>)
    ensures r.Ok? <==> forall i :: 0 <= i < |ks| ==> MassAtTime(ks[i], dryMass, fuel).Ok?
    ensures r.Ok? ==> |r.value| == |ks|
    ensures r.Ok? ==> forall i :: 0 <= i < |ks| ==> MassAtTime(ks[i], dryMass, fuel) == Ok(r.value[i])
    ensures r.Err? ==> r.error == EmptySequence
  {
    if forall i | 0 <= i < |ks| :: MassAtTime(ks[i], dryMass, fuel).Ok?
    then Ok(seq(|ks|, i requires 0 <= i < |ks| && MassAtTime(ks[i], dryMass, fuel).Ok? =>
                          MassAtTime(ks[i], dryMass, fuel).value))
    else Err(EmptySequence)
  }

  /** `{key: mass * ratio for key, mass in zip(d.keys(), masses)}`: zip stops
      at the shorter of the two. */
  function Zipped(d: Table, masses: seq<real>, ratio: real): (r: Table)
    ensures |r| == if |d| < |masses| then |d| else |masses|
    ensures forall i :: 0 <= i < |r| ==> r[i].0 == d[i].0 && r[i].1 == masses[i] * ratio
  {
    var n := if |d| < |masses| then |d| else |masses|;
    seq(n, i requires 0 <= i < n => (d[i].0, masses[i] * ratio))
  }

  /** `liftoff_thrusts`: the masses at the fuel-mass keys before burnout, then
      the dry mass, each times g * uz, paired with the fuel-mass keys in dict
      order. */
  function Thresholds(dryMass: real, fuel: Table, burnTime: real, ratio: real): (r: Result<Table>)
    ensures r.Ok? <==> MassesAt(KeysBefore(fuel, burnTime), dryMass, fuel).Ok?
    ensures r.Err? ==> r.error == EmptySequence
    ensures r.Ok? ==> |r.value| <= |fuel| && forall i :: 0 <= i < |r.value| ==> r.value[i].0 == fuel[i].0
    ensures r.Ok? && IsDict(fuel) ==> IsDict(r.value)
  {
    match MassesAt(KeysBefore(fuel, burnTime), dryMass, fuel)
    case Err(e) => Err(e)
    case Ok(ms) => Ok(Zipped(fuel, ms + [dryMass], ratio))
  }

  /** With sorted fuel-mass keys, the threshold at each key before burnout is
      the mass there times g * uz, and the first key at or after burnout, the
      only one that remains, carries the dry mass. */
  lemma ThresholdsSorted(dryMass: real, fuel: Table, burnTime: real, ratio: real, lt: Table)
    requires Increasing(fuel)
    requires Thresholds(dryMass, fuel, burnTime, ratio) == Ok(lt)
    ensures var n := |KeysBefore(fuel, burnTime)|; |lt| == if n < |fuel| then n + 1 else |fuel|
    ensures forall i :: 0 <= i < |lt| ==> lt[i].0 == fuel[i].0
    ensures forall i :: 0 <= i < |lt| && fuel[i].0 < burnTime ==>
              MassAtTime(fuel[i].0, dryMass, fuel).Ok? &&
              lt[i].1 == MassAtTime(fuel[i].0, dryMass, fuel).value * ratio
    ensures forall i :: 0 <= i < |lt| && fuel[i].0 >= burnTime ==> lt[i].1 == dryMass * ratio
  {
    var ks := KeysBefore(fuel, burnTime);
    var ms := MassesAt(ks, dryMass, fuel).value;
    assert lt == Zipped(fuel, ms + [dryMass], ratio);
    KeysBeforeSorted(fuel, burnTime);
    ZippedSplit(fuel, burnTime, ks, ms, dryMass, ratio, lt);
    forall i | 0 <= i < |lt| && fuel[i].0 < burnTime
      ensures MassAtTime(fuel[i].0, dryMass, fuel).Ok? &&
              lt[i].1 == MassAtTime(fuel[i].0, dryMass, fuel).value * ratio
    {
      ThresholdIsMass(dryMass, fuel, ks, ms, ratio, lt, i);
    }
  }

  lemma ThresholdIsMass(dryMass: real, fuel: Table, ks: seq<real>, ms: seq<real>, ratio: real,
                        lt: Table, i: nat)
    requires |ms| == |ks|
    requires forall j :: 0 <= j < |ks| ==> MassAtTime(ks[j], dryMass, fuel) == Ok(ms[j])
    requires i < |ks| && i < |fuel| && ks[i] == fuel[i].0
    requires i < |lt| && lt[i].1 == ms[i] * ratio
    ensures MassAtTime(fuel[i].0, dryMass, fuel).Ok? &&
            lt[i].1 == MassAtTime(fuel[i].0, dryMass, fuel).value * ratio
  {
    assert MassAtTime(ks[i], dryMass, fuel) == Ok(ms[i]);
  }

  /** The zipped table splits at the first key at or after t: masses before,
      the appended dry mass at it, nothing after. */
  lemma ZippedSplit(fuel: Table, t: real, ks: seq<real>, ms: seq<real>, dryMass: real, ratio: real,
                    lt: Table)
    requires |ms| == |ks| && lt == Zipped(fuel, ms + [dryMass], ratio)
    requires forall j :: 0 <= j < |fuel| ==> (fuel[j].0 < t <==> j < |ks|)
    ensures |lt| == if |ks| < |fuel| then |ks| + 1 else |fuel|
    ensures forall i :: 0 <= i < |lt| && fuel[i].0 < t ==> i < |ks| && lt[i].1 == ms[i] * ratio
    ensures forall i :: 0 <= i < |lt| && fuel[i].0 >= t ==> lt[i].1 == dryMass * ratio
  {
    var masses := ms + [dryMass];
    forall i | 0 <= i < |lt| && fuel[i].0 >= t ensures lt[i].1 == dryMass * ratio {
      assert i == |ks|;
      assert masses[i] == dryMass;
    }
    forall i | 0 <= i < |lt| && fuel[i].0 < t ensures i < |ks| && lt[i].1 == ms[i] * ratio {
      assert masses[i] == ms[i];
    }
  }

  // ---------------------------------------------------------------------------
  // np.interp and the hold-down clamps

  /** `np.interp(x, keys, values)` over the dict's entries in order: the first
      value left of the first key, the last value right of the last key, and
      the line through the two neighbouring samples in between. */
  function NpInterp(d: Table, x: real): (r: Result<real>)
    ensures r.Err? <==> d == []
    ensures r.Err? ==> r.error == EmptySequence
  {
    if d == [] then Err(EmptySequence) else Ok(InterpScan(d, x))
  }

  function InterpScan(d: Table, x: real): real
    requires d != []
  {
    if |d| == 1 || x <= d[0].0 then d[0].1
    else if x < d[1].0 then OnLine(d[0].0, d[0].1, d[1].0, d[1].1, x)
    else InterpScan(d[1..], x)
  }

  /** At a sample key of a sorted dict, np.interp returns the sample itself. */
  lemma {:induction false} NpInterpAtKey(d: Table, i: nat)
    requires Increasing(d) && i < |d|
    ensures NpInterp(d, d[i].0) == Ok(d[i].1)
  {
    if i > 0 {
      assert d[i] == d[1..][i - 1];
      assert Increasing(d[1..]);
      NpInterpAtKey(d[1..], i - 1);
    }
  }

  /** Lines 56-62: a release time that is not yet a thrust key is added to the
      thrust dict and to the threshold dict with its np.interp value, and both
      are then sorted by key. */
  function Released(thrust: Table, lt: Table, release: real): (r: Result<(Table, Table)>)
    requires IsDict(thrust) && IsDict(lt)
    ensures r.Ok? ==> IsDict(r.value.0) && IsDict(r.value.1) && HasKey(r.value.0, release)
    ensures HasKey(thrust, release) ==> r == Ok((thrust, lt))
    ensures !HasKey(thrust, release) ==> (r.Ok? <==> thrust != [] && lt != [])
    ensures r.Err? ==> r.error == EmptySequence
    ensures r.Ok? && !HasKey(thrust, release) ==>
              Increasing(r.value.0) && Increasing(r.value.1) && HasKey(r.value.1, release) &&
              forall p :: p in r.value.0 <==> p in thrust || p == (release, NpInterp(thrust, release).value)
  {
    if HasKey(thrust, release) then Ok((thrust, lt))
    else
      match NpInterp(thrust, release)
      case Err(e) => Err(e)
      case Ok(v) =>
        match NpInterp(lt, release)
        case Err(e) => Err(e)
        case Ok(w) =>
          PutIsDict(thrust, release, v);
          PutIsDict(lt, release, w);
          var th := SortByKey(Put(thrust, release, v));
          var l := SortByKey(Put(lt, release, w));
          assert (release, v) in th;
          HasKeyFromPair(th, (release, v));
          HasKeyFromPair(l, (release, Get(Put(lt, release, w), release)));
          Ok((th, l))
  }

  /** `{key: thrust + force for key, thrust in d.items()}` */
  function Raised(d: Table, force: real): Table
  {
    seq(|d|, i requires 0 <= i < |d| => (d[i].0, d[i].1 + force))
  }

  /** `{key: (thrust + force if key < release else thrust) for key, thrust in d.items()}` */
  function RaisedBefore(d: Table, force: real, release: real): Table
  {
    seq(|d|, i requires 0 <= i < |d| => (d[i].0, if d[i].0 < release then d[i].1 + force else d[i].1))
  }

  /** What the clamp rules leave: either the answer itself, or the thrust and
      threshold dicts to search for the first exceeding key. */
  datatype Stage = Decided(result: Result<real>) | Search(thrust: Table, thresholds: Table)

  /** Lines 52-91. A force or a release time of 0 means the clamp is absent. */
  function Clamped(thrust: Table, lt: Table, burnTime: real, force: real, release: real): (s: Stage)
    requires IsDict(thrust) && IsDict(lt)
  {
    if force == 0.0 && release == 0.0 then Search(thrust, lt)
    else if release == 0.0 then Search(thrust, Raised(lt, force))
    else
      match Released(thrust, lt, release)
      case Err(e) => Decided(Err(e))
      case Ok((th, l)) =>
        if force != 0.0 then Search(th, RaisedBefore(l, force, release))
        else if release > burnTime then Decided(Err(ClampsOutlastBurn))
        else if !HasKey(l, release) then Decided(Err(KeyNotFound))
        else if Get(th, release) > Get(l, release) then Decided(Ok(release))
        else Search(KeepFrom(th, release), KeepFrom(l, release))
  }

  lemma RaisedGet(d: Table, force: real, release: real, k: real)
    requires IsDict(d) && HasKey(d, k)
    ensures HasKey(Raised(d, force), k) && Get(Raised(d, force), k) == Get(d, k) + force
    ensures HasKey(RaisedBefore(d, force, release), k)
    ensures Get(RaisedBefore(d, force, release), k) == if k < release then Get(d, k) + force else Get(d, k)
  {
    var i :| 0 <= i < |d| && d[i].0 == k;
    assert Raised(d, force)[i].0 == k;
    assert RaisedBefore(d, force, release)[i].0 == k;
  }

  lemma RaisedKeys(d: Table, force: real, release: real, k: real)
    ensures HasKey(Raised(d, force), k) <==> HasKey(d, k)
    ensures HasKey(RaisedBefore(d, force, release), k) <==> HasKey(d, k)
  {
    if HasKey(Raised(d, force), k) {
      var i :| 0 <= i < |d| && Raised(d, force)[i].0 == k;
      assert d[i].0 == k;
    }
    if HasKey(RaisedBefore(d, force, release), k) {
      var i :| 0 <= i < |d| && RaisedBefore(d, force, release)[i].0 == k;
      assert d[i].0 == k;
    }
    if HasKey(d, k) {
      var i :| 0 <= i < |d| && d[i].0 == k;
      assert Raised(d, force)[i].0 == k;
      assert RaisedBefore(d, force, release)[i].0 == k;
    }
  }

  /** A clamp force alone raises every threshold by exactly that force and
      leaves the thrust dict and the set of keys alone. */
  lemma ForceOnlyRaisesAll(thrust: Table, lt: Table, burnTime: real, force: real)
    requires IsDict(thrust) && IsDict(lt) && force != 0.0
    ensures var s := Clamped(thrust, lt, burnTime, force, 0.0);
      s.Search? && s.thrust == thrust &&
      (forall k :: HasKey(s.thresholds, k) <==> HasKey(lt, k)) &&
      (forall k :: HasKey(lt, k) ==> Get(s.thresholds, k) == Get(lt, k) + force)
  {
    forall k ensures HasKey(Raised(lt, force), k) <==> HasKey(lt, k) {
      RaisedKeys(lt, force, 0.0, k);
    }
    forall k | HasKey(lt, k) ensures Get(Raised(lt, force), k) == Get(lt, k) + force {
      RaisedGet(lt, force, 0.0, k);
    }
  }

  /** A clamp force with a release time raises only the thresholds at keys
      strictly before the release time. */
  lemma ForceAndReleaseRaisesBefore(thrust: Table, lt: Table, burnTime: real, force: real,
                                    release: real, th: Table, l: Table)
    requires IsDict(thrust) && IsDict(lt) && force != 0.0 && release != 0.0
    requires Released(thrust, lt, release) == Ok((th, l))
    ensures var s := Clamped(thrust, lt, burnTime, force, release);
      s.Search? && s.thrust == th &&
      (forall k :: HasKey(s.thresholds, k) <==> HasKey(l, k)) &&
      (forall k :: HasKey(l, k) && k < release ==> Get(s.thresholds, k) == Get(l, k) + force) &&
      (forall k :: HasKey(l, k) && k >= release ==> Get(s.thresholds, k) == Get(l, k))
  {
    forall k ensures HasKey(RaisedBefore(l, force, release), k) <==> HasKey(l, k) {
      RaisedKeys(l, force, release, k);
    }
    forall k | HasKey(l, k)
      ensures Get(RaisedBefore(l, force, release), k) == if k < release then Get(l, k) + force else Get(l, k)
    {
      RaisedGet(l, force, release, k);
    }
  }

  /** A release time without a force: release after burnout is an error; a
      thrust above the threshold at release lifts off exactly at release;
      otherwise the search continues over the keys at or after release only. */
  lemma ReleaseOnly(thrust: Table, lt: Table, burnTime: real, release: real, th: Table, l: Table)
    requires IsDict(thrust) && IsDict(lt) && release != 0.0
    requires Released(thrust, lt, release) == Ok((th, l))
    ensures var s := Clamped(thrust, lt, burnTime, 0.0, release);
      (release > burnTime ==> s == Decided(Err(ClampsOutlastBurn))) &&
      (release <= burnTime && HasKey(l, release) && Get(th, release) > Get(l, release) ==>
         s == Decided(Ok(release))) &&
      (release <= burnTime && HasKey(l, release) && Get(th, release) <= Get(l, release) ==>
         s.Search? &&
         (forall p :: p in s.thrust <==> p in th && p.0 >= release) &&
         (forall p :: p in s.thresholds <==> p in l && p.0 >= release))
  {
  }

  // ---------------------------------------------------------------------------
  // The first exceeding key and the line intersection

  /** Thrust entry j of th does not exceed its threshold (and has one). */
  predicate Holds(th: Table, lt: Table, j: int)
    requires 0 <= j < |th|
  {
    HasKey(lt, th[j].0) && th[j].1 <= Get(lt, th[j].0)
  }

  /** `next(key for key, thrust in th.items() if thrust > lt[key])`, as the
      position of that key in th, scanning from position `from`. */
  function FirstExceed(th: Table, lt: Table, from: nat): (r: Result<nat>)
    requires from <= |th|
    decreases |th| - from
    ensures r.Ok? ==> from <= r.value < |th| && HasKey(lt, th[r.value].0) &&
                      th[r.value].1 > Get(lt, th[r.value].0)
    ensures r.Ok? ==> forall j :: from <= j < r.value ==> Holds(th, lt, j)
    ensures r == Err(NeverLiftsOff) <==> forall j :: from <= j < |th| ==> Holds(th, lt, j)
    ensures r.Err? ==> r.error == NeverLiftsOff || r.error == KeyNotFound
    ensures r == Err(KeyNotFound) ==>
              exists j :: from <= j < |th| && !HasKey(lt, th[j].0) &&
                          forall i :: from <= i < j ==> Holds(th, lt, i)
  {
    if from == |th| then Err(NeverLiftsOff)
    else if !HasKey(lt, th[from].0) then assert !Holds(th, lt, from); Err(KeyNotFound)
    else if th[from].1 > Get(lt, th[from].0) then assert !Holds(th, lt, from); Ok(from)
    else
      assert Holds(th, lt, from);
      FirstExceed(th, lt, from + 1)
  }

  /** Lines 103-112: the time where the thrust line through (pre, thPre),
      (post, thPost) meets the threshold line through (pre, ltPre), (post, ltPost).
      The divisor is a numpy float: parallel lines give numpy's `a / 0`. */
  function LiftoffRoot(m: Math, pre: real, post: real, thPre: real, thPost: real, ltPre: real, ltPost: real)
    : (t: real)
    requires pre < post
    ensures thPost - thPre == ltPost - ltPre ==> t == m.divByZero(ltPre - thPre)
  {
    var thSlope := (thPost - thPre) / (post - pre);
    var thIntercept := thPre - thSlope * pre;
    var ltSlope := (ltPost - ltPre) / (post - pre);
    var ltIntercept := ltPre - ltSlope * pre;
    assert thPost - thPre == ltPost - ltPre ==>
             thSlope == ltSlope && ltIntercept - thIntercept == ltPre - thPre;
    Quot(m, ltIntercept - thIntercept, thSlope - ltSlope)
  }

  /** The root of a + s*x with positive slope s and a <= 0 < a + s*len lies in [0, len). */
  lemma RootOfRisingGap(d0: real, d1: real, len: real, x: real)
    requires len > 0.0 && d0 >= 0.0 && d1 > 0.0
    requires x * (d0 + d1) == d0 * len
    ensures 0.0 <= x < len
  {
    assert x * (d0 + d1) < len * (d0 + d1);
  }

  /** Where the gap between the lines passes from <= 0 at pre to > 0 at post,
      the lines meet, and at a time in [pre, post). */
  lemma RootBetween(m: Math, pre: real, post: real, thPre: real, thPost: real, ltPre: real, ltPost: real)
    requires pre < post && thPre <= ltPre && thPost > ltPost
    ensures var t := LiftoffRoot(m, pre, post, thPre, thPost, ltPre, ltPost);
      pre <= t < post && OnLine(pre, thPre, post, thPost, t) == OnLine(pre, ltPre, post, ltPost, t)
  {
    var len := post - pre;
    var thSlope := (thPost - thPre) / len;
    var ltSlope := (ltPost - ltPre) / len;
    var d0 := ltPre - thPre;
    var d1 := thPost - ltPost;
    var s := thSlope - ltSlope;
    assert s * len == d0 + d1;
    assert s > 0.0;
    var thIntercept := thPre - thSlope * pre;
    var ltIntercept := ltPre - ltSlope * pre;
    var t := (ltIntercept - thIntercept) / s;
    assert LiftoffRoot(m, pre, post, thPre, thPost, ltPre, ltPost) == t;
    assert ltIntercept - thIntercept == d0 + s * pre;
    var x := t - pre;
    assert t * s == d0 + s * pre;
    assert x * s == d0;
    assert x * (d0 + d1) == d0 * len by {
      assert x * (d0 + d1) == x * (s * len);
    }
    RootOfRisingGap(d0, d1, len, x);
    assert OnLine(pre, thPre, post, thPost, t) == thPre + x * thSlope by {
      DivOf(x * (thPost - thPre), len, x * thSlope);
    }
    assert OnLine(pre, ltPre, post, ltPost, t) == ltPre + x * ltSlope by {
      DivOf(x * (ltPost - ltPre), len, x * ltSlope);
    }
  }

  /** Lines 94-112: the first exceeding key, the largest key below it, and the
      intersection of the two lines between them. */
  function SearchRoot(m: Math, th: Table, lt: Table): (r: Result<real>)
  {
    match FirstExceed(th, lt, 0)
    case Err(e) => Err(e)
    case Ok(i) =>
      var post := th[i].0;
      assert HasKey(th, post);
      match StrictLowerKey(th, post)
      case None => Err(EmptySequence)
      case Some(pre) =>
        if !HasKey(lt, pre) then Err(KeyNotFound)
        else Ok(LiftoffRoot(m, pre, post, Get(th, pre), Get(th, post), Get(lt, pre), Get(lt, post)))
  }

  /** Over a sorted thrust dict: the search succeeds exactly when some key
      after the first exceeds its threshold, and the liftoff time then lies
      between that key and the one before it. */
  lemma SearchRootSorted(m: Math, th: Table, lt: Table)
    requires Increasing(th)
    ensures var f := FirstExceed(th, lt, 0);
      var r := SearchRoot(m, th, lt);
      (r.Ok? <==> f.Ok? && f.value > 0) &&
      (f.Ok? && f.value == 0 ==> r == Err(EmptySequence)) &&
      (f.Err? ==> r == Err(f.error)) &&
      (r.Ok? ==> th[f.value - 1].0 <= r.value < th[f.value].0)
  {
    var f := FirstExceed(th, lt, 0);
    if f.Ok? {
      var i := f.value;
      var post := th[i].0;
      var low := StrictLowerKey(th, post);
      if i == 0 {
        assert low.None?;
      } else {
        assert Holds(th, lt, i - 1);
        assert low == Some(th[i - 1].0) by {
          assert th[i - 1].0 < post;
          var pre := low.value;
          var j :| 0 <= j < |th| && th[j].0 == pre;
          assert j < i;
        }
        var pre := th[i - 1].0;
        IncreasingIsDict(th);
        assert Get(th, pre) == th[i - 1].1;
        assert Get(th, post) == th[i].1;
        RootBetween(m, pre, post, Get(th, pre), Get(th, post), Get(lt, pre), Get(lt, post));
      }
    }
  }

  /** Thresholds that are nowhere lower (and over the same keys) can only move
      the first exceeding key later. */
  lemma {:induction false} FirstExceedLater(th: Table, lt1: Table, lt2: Table, from: nat)
    requires from <= |th|
    requires forall k :: HasKey(lt1, k) <==> HasKey(lt2, k)
    requires forall k :: HasKey(lt1, k) ==> Get(lt1, k) <= Get(lt2, k)
    requires FirstExceed(th, lt2, from).Ok?
    ensures FirstExceed(th, lt1, from).Ok?
    ensures FirstExceed(th, lt1, from).value <= FirstExceed(th, lt2, from).value
    decreases |th| - from
  {
    if HasKey(lt1, th[from].0) && th[from].1 <= Get(lt1, th[from].0) {
      FirstExceedLater(th, lt1, lt2, from + 1);
    }
  }

  /** Adding a non-negative clamp force, with or without a release time, never
      makes the rocket lift off at an earlier thrust key. */
  lemma ClampForceDelaysLiftoff(th: Table, lt: Table, force: real, release: real)
    requires IsDict(lt) && force >= 0.0
    ensures FirstExceed(th, Raised(lt, force), 0).Ok? ==>
              FirstExceed(th, lt, 0).Ok? &&
              FirstExceed(th, lt, 0).value <= FirstExceed(th, Raised(lt, force), 0).value
    ensures FirstExceed(th, RaisedBefore(lt, force, release), 0).Ok? ==>
              FirstExceed(th, lt, 0).Ok? &&
              FirstExceed(th, lt, 0).value <= FirstExceed(th, RaisedBefore(lt, force, release), 0).value
  {
    forall k ensures (HasKey(lt, k) <==> HasKey(Raised(lt, force), k)) &&
                     (HasKey(lt, k) <==> HasKey(RaisedBefore(lt, force, release), k)) {
      RaisedKeys(lt, force, release, k);
    }
    forall k | HasKey(lt, k)
      ensures Get(lt, k) <= Get(Raised(lt, force), k) && Get(lt, k) <= Get(RaisedBefore(lt, force, release), k)
    {
      RaisedGet(lt, force, release, k);
    }
    if FirstExceed(th, Raised(lt, force), 0).Ok? {
      FirstExceedLater(th, lt, Raised(lt, force), 0);
    }
    if FirstExceed(th, RaisedBefore(lt, force, release), 0).Ok? {
      FirstExceedLater(th, lt, RaisedBefore(lt, force, release), 0);
    }
  }

  // ---------------------------------------------------------------------------
  // The whole phase

  /** The liftoff time `sim_ignition_to_liftoff` returns, from the motor's
      thrust dict as it was on entry. */
  function LiftoffTime(m: Math, dryMass: real, fuel: Table, thrust: Table, burnTime: real, ratio: real,
                       force: real, release: real): Result<real>
    requires IsDict(thrust) && IsDict(fuel)
  {
    match Thresholds(dryMass, fuel, burnTime, ratio)
    case Err(e) => Err(e)
    case Ok(lt) =>
      match Clamped(thrust, lt, burnTime, force, release)
      case Decided(res) => res
      case Search(th, l) => SearchRoot(m, th, l)
  }

  /** The motor's thrust dict after the call: a release time that is not yet a
      key is appended with its np.interp value, once the thresholds exist. */
  function ThrustCurveAfter(dryMass: real, fuel: Table, thrust: Table, burnTime: real, ratio: real,
                            release: real): Table
  {
    if Thresholds(dryMass, fuel, burnTime, ratio).Ok? && release != 0.0 &&
       !HasKey(thrust, release) && thrust != []
    then thrust + [(release, NpInterp(thrust, release).value)]
    else thrust
  }

  /** The insertion happens at most once: a second run with the same inputs
      finds the release time among the keys and leaves the dict alone. */
  lemma ThrustCurveAfterIdempotent(dryMass: real, fuel: Table, thrust: Table, burnTime: real,
                                   ratio: real, release: real)
    ensures var after := ThrustCurveAfter(dryMass, fuel, thrust, burnTime, ratio, release);
      ThrustCurveAfter(dryMass, fuel, after, burnTime, ratio, release) == after
  {
    var after := ThrustCurveAfter(dryMass, fuel, thrust, burnTime, ratio, release);
    if after != thrust {
      assert after[|thrust|].0 == release;
    }
  }

  predicate NonNegativeKeys(d: Table)
  {
    forall i :: 0 <= i < |d| ==> d[i].0 >= 0.0
  }

  lemma SearchedSorted(thrust: Table, lt: Table, burnTime: real, force: real, release: real)
    requires Increasing(thrust) && NonNegativeKeys(thrust) && IsDict(lt) && release >= 0.0
    ensures var s := Clamped(thrust, lt, burnTime, force, release);
      s.Search? ==> Increasing(s.thrust) && NonNegativeKeys(s.thrust)
  {
    IncreasingIsDict(thrust);
    var s := Clamped(thrust, lt, burnTime, force, release);
    if s.Search? && release != 0.0 {
      var th := Released(thrust, lt, release).value.0;
      assert Increasing(th) && NonNegativeKeys(th) by {
        if !HasKey(thrust, release) {
          forall i | 0 <= i < |th| ensures th[i].0 >= 0.0 {
            assert th[i] in th;
            if th[i] in thrust {
              var j :| 0 <= j < |thrust| && thrust[j] == th[i];
            }
          }
        }
      }
      if force == 0.0 {
        KeepFromIncreasing(th, release);
        var kept := KeepFrom(th, release);
        forall i | 0 <= i < |kept| ensures kept[i].0 >= 0.0 {
          assert kept[i] in kept;
        }
      }
    }
  }

  /** With a sorted thrust curve on non-negative times and a non-negative
      release time, a liftoff time is never before ignition. */
  lemma LiftoffAfterIgnition(m: Math, dryMass: real, fuel: Table, thrust: Table, burnTime: real, ratio: real,
                             force: real, release: real)
    requires Increasing(thrust) && NonNegativeKeys(thrust) && IsDict(fuel) && release >= 0.0
    ensures LiftoffTime(m, dryMass, fuel, thrust, burnTime, ratio, force, release).Ok? ==>
              LiftoffTime(m, dryMass, fuel, thrust, burnTime, ratio, force, release).value >= 0.0
  {
    var lts := Thresholds(dryMass, fuel, burnTime, ratio);
    if lts.Ok? {
      ClampedAfterIgnition(m, thrust, lts.value, burnTime, force, release);
    }
  }

  lemma ClampedAfterIgnition(m: Math, thrust: Table, lt: Table, burnTime: real, force: real, release: real)
    requires Increasing(thrust) && NonNegativeKeys(thrust) && IsDict(lt) && release >= 0.0
    ensures IsDict(thrust)
    ensures var s := Clamped(thrust, lt, burnTime, force, release);
      var r := if s.Decided? then s.result else SearchRoot(m, s.thrust, s.thresholds);
      r.Ok? ==> r.value >= 0.0
  {
    IncreasingIsDict(thrust);
    var s := Clamped(thrust, lt, burnTime, force, release);
    if s.Search? {
      SearchedSorted(thrust, lt, burnTime, force, release);
      SearchRootSorted(m, s.thrust, s.thresholds);
    }
  }

  /** `sim_ignition_to_liftoff(rocket, environment, launchpad)`. The one side
      effect is on the motor's own thrust dict (line 57). */
  method SimIgnitionToLiftoff(m: Math, rocket: Rocket, env: Environment, lp: Launchpad) returns (r: Result<real>)
    requires IsDict(rocket.motor.thrustCurve) && IsDict(rocket.motor.fuelMassCurve)
    modifies rocket.motor
    ensures r == LiftoffTime(m, rocket.dryMass, rocket.motor.fuelMassCurve, old(rocket.motor.thrustCurve),
                             rocket.motor.burnTime, env.localGravity * lp.railUnitVectorZ,
                             lp.holdDownClampForce, lp.holdDownClampReleaseTime)
    ensures rocket.motor.thrustCurve ==
              ThrustCurveAfter(rocket.dryMass, rocket.motor.fuelMassCurve, old(rocket.motor.thrustCurve),
                               rocket.motor.burnTime, env.localGravity * lp.railUnitVectorZ,
                               lp.holdDownClampReleaseTime)
  {
    var dryMass := rocket.dryMass;
    var fuel := rocket.motor.fuelMassCurve;
    var thrust := rocket.motor.thrustCurve;
    var burnTime := rocket.motor.burnTime;
    var ratio := env.localGravity * lp.railUnitVectorZ;
    var force := lp.holdDownClampForce;
    var release := lp.holdDownClampReleaseTime;

    var thresholds := Thresholds(dryMass, fuel, burnTime, ratio);
    if thresholds.Err? {
      return Err(thresholds.error);
    }
    var lt := thresholds.value;

    if force != 0.0 || release != 0.0 {
      if release != 0.0 {
        if !HasKey(thrust, release) {
          var v := NpInterp(thrust, release);
          if v.Err? {
            return Err(v.error);
          }
          rocket.motor.thrustCurve := Put(rocket.motor.thrustCurve, release, v.value);
          var w := NpInterp(lt, release);
          if w.Err? {
            return Err(w.error);
          }
          PutIsDict(thrust, release, v.value);
          PutIsDict(lt, release, w.value);
          lt := Put(lt, release, w.value);
          assert (release, v.value) in rocket.motor.thrustCurve;
          thrust := SortByKey(rocket.motor.thrustCurve);
          HasKeyFromPair(thrust, (release, v.value));
          lt := SortByKey(lt);
        }
        if force == 0.0 {
          if release > burnTime {
            return Err(ClampsOutlastBurn);
          }
          if !HasKey(lt, release) {
            return Err(KeyNotFound);
          }
          if Get(thrust, release) > Get(lt, release) {
            return Ok(release);
          }
          lt := KeepFrom(lt, release);
          thrust := KeepFrom(thrust, release);
        } else {
          lt := RaisedBefore(lt, force, release);
        }
      } else {
        lt := Raised(lt, force);
      }
    }
    r := SearchRoot(m, thrust, lt);
  }
}
