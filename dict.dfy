// A Python dict from float keys to float values, as the simulator uses it for
// thrust curves, fuel-mass curves and liftoff thresholds: a sequence of
// (key, value) pairs in insertion order, which is the order `keys()`,
// `items()` and iteration follow.
module Dict {
  import opened Base

  type Table = seq<(real, real)>

  /** Every dict has pairwise distinct keys. */
  ghost predicate IsDict(d: Table)
  {
    forall i, j :: 0 <= i < j < |d| ==> d[i].0 != d[j].0
  }

  /** `list(d.keys())` */
  function Keys(d: Table): (ks: seq<real>)
    ensures |ks| == |d|
    ensures forall i :: 0 <= i < |d| ==> ks[i] == d[i].0
  {
    if d == [] then [] else Keys(d[..|d| - 1]) + [d[|d| - 1].0]
  }

  /** `k in d` */
  predicate HasKey(d: Table, k: real)
  {
    exists i :: 0 <= i < |d| && d[i].0 == k
  }

  /** `d[k]`: the value stored under k. */
  function Get(d: Table, k: real): (v: real)
    requires HasKey(d, k)
    ensures (k, v) in d
    ensures IsDict(d) ==> forall i :: 0 <= i < |d| && d[i].0 == k ==> d[i].1 == v
  {
    if d[0].0 == k then d[0].1 else Get(d[1..], k)
  }

  /** `d[k] = v`: overwrites the value in place if k is present, appends otherwise. */
  function Put(d: Table, k: real, v: real): (r: Table)
    ensures HasKey(d, k) ==> |r| == |d|
    ensures HasKey(d, k) ==> forall i :: 0 <= i < |d| ==> r[i] == (if d[i].0 == k then (k, v) else d[i])
    ensures !HasKey(d, k) ==> r == d + [(k, v)]
  {
    if !HasKey(d, k) then d + [(k, v)]
    else seq(|d|, i requires 0 <= i < |d| => if d[i].0 == k then (k, v) else d[i])
  }

  /** Keys in strictly increasing order (a sorted dict with distinct keys). */
  predicate Increasing(d: Table)
  {
    forall i, j :: 0 <= i < j < |d| ==> d[i].0 < d[j].0
  }

  /** `max(d.keys())` */
  function MaxKey(d: Table): (k: real)
    requires d != []
    ensures HasKey(d, k)
    ensures forall i :: 0 <= i < |d| ==> d[i].0 <= k
  {
    if |d| == 1 then d[0].0
    else
      var rest := MaxKey(d[1..]);
      assert forall i :: 1 <= i < |d| ==> d[i] == d[1..][i - 1];
      if d[0].0 >= rest then d[0].0 else rest
  }

  /** `min(d.keys())` */
  function MinKey(d: Table): (k: real)
    requires d != []
    ensures HasKey(d, k)
    ensures forall i :: 0 <= i < |d| ==> k <= d[i].0
  {
    if |d| == 1 then d[0].0
    else
      var rest := MinKey(d[1..]);
      assert forall i :: 1 <= i < |d| ==> d[i] == d[1..][i - 1];
      if d[0].0 <= rest then d[0].0 else rest
  }

  /** `max([k for k in d.keys() if k <= t])`, None when that list is empty. */
  function LowerKey(d: Table, t: real): (r: Option<real>)
    ensures r.None? <==> forall i :: 0 <= i < |d| ==> d[i].0 > t
    ensures r.Some? ==> HasKey(d, r.value) && r.value <= t
    ensures r.Some? ==> forall i :: 0 <= i < |d| && d[i].0 <= t ==> d[i].0 <= r.value
  {
    if d == [] then None
    else
      var rest := LowerKey(d[1..], t);
      assert forall i :: 1 <= i < |d| ==> d[i] == d[1..][i - 1];
      if d[0].0 <= t && (rest.None? || rest.value < d[0].0) then Some(d[0].0) else rest
  }

  /** `min([k for k in d.keys() if k > t])`, None when that list is empty. */
  function UpperKey(d: Table, t: real): (r: Option<real>)
    ensures r.None? <==> forall i :: 0 <= i < |d| ==> d[i].0 <= t
    ensures r.Some? ==> HasKey(d, r.value) && r.value > t
    ensures r.Some? ==> forall i :: 0 <= i < |d| && d[i].0 > t ==> r.value <= d[i].0
  {
    if d == [] then None
    else
      var rest := UpperKey(d[1..], t);
      assert forall i :: 1 <= i < |d| ==> d[i] == d[1..][i - 1];
      if d[0].0 > t && (rest.None? || d[0].0 < rest.value) then Some(d[0].0) else rest
  }

  /** `max([k for k in d.keys() if k < t])`, None when that list is empty. */
  function StrictLowerKey(d: Table, t: real): (r: Option<real>)
    ensures r.None? <==> forall i :: 0 <= i < |d| ==> d[i].0 >= t
    ensures r.Some? ==> HasKey(d, r.value) && r.value < t
    ensures r.Some? ==> forall i :: 0 <= i < |d| && d[i].0 < t ==> d[i].0 <= r.value
  {
    if d == [] then None
    else
      var rest := StrictLowerKey(d[1..], t);
      assert forall i :: 1 <= i < |d| ==> d[i] == d[1..][i - 1];
      if d[0].0 < t && (rest.None? || rest.value < d[0].0) then Some(d[0].0) else rest
  }

  /** Assigning `d[k] = v` keeps the keys distinct. */
  lemma PutIsDict(d: Table, k: real, v: real)
    requires IsDict(d)
    ensures IsDict(Put(d, k, v)) && HasKey(Put(d, k, v), k)
  {
    var r := Put(d, k, v);
    if HasKey(d, k) {
      var i :| 0 <= i < |d| && d[i].0 == k;
      assert r[i].0 == k;
    } else {
      assert r[|d|].0 == k;
    }
  }

  /** `{k: v for k, v in d.items() if k >= t}` */
  function KeepFrom(d: Table, t: real): (r: Table)
    ensures forall p :: p in r <==> p in d && p.0 >= t
  {
    if d == [] then []
    else
      var rest := KeepFrom(d[1..], t);
      assert forall p :: p in d <==> p == d[0] || p in d[1..];
      if d[0].0 >= t then [d[0]] + rest else rest
  }

  /** Filtering keeps the keys of a sorted dict sorted and distinct. */
  lemma {:induction false} KeepFromIncreasing(d: Table, t: real)
    requires Increasing(d)
    ensures Increasing(KeepFrom(d, t))
  {
    if d != [] {
      var rest := KeepFrom(d[1..], t);
      assert Increasing(d[1..]);
      KeepFromIncreasing(d[1..], t);
      forall i | 0 <= i < |rest| ensures d[0].0 < rest[i].0 {
        assert rest[i] in d[1..];
      }
    }
  }

  /** Inserts pair e into a table with increasing keys, before the first larger key. */
  function InsertByKey(d: Table, e: (real, real)): (r: Table)
    requires Increasing(d)
    requires !HasKey(d, e.0)
    ensures Increasing(r)
    ensures |r| == |d| + 1
    ensures forall p :: p in r <==> p in d || p == e
  {
    if d == [] then [e]
    else if e.0 < d[0].0 then [e] + d
    else
      assert forall i :: 1 <= i < |d| ==> d[i] == d[1..][i - 1];
      assert e.0 != d[0].0;
      var rest := InsertByKey(d[1..], e);
      assert forall i :: 0 <= i < |rest| ==> d[0].0 < rest[i].0 by {
        forall i | 0 <= i < |rest| ensures d[0].0 < rest[i].0 {
          assert rest[i] in rest;
        }
      }
      [d[0]] + rest
  }

  /** `dict(sorted(d.items()))` for a dict (distinct keys: tuples sort by key). */
  function SortByKey(d: Table): (r: Table)
    requires IsDict(d)
    ensures Increasing(r)
    ensures |r| == |d|
    ensures forall p :: p in r <==> p in d
  {
    if d == [] then []
    else
      var init := d[..|d| - 1];
      assert forall i :: 0 <= i < |d| - 1 ==> d[i] == init[i];
      var s := SortByKey(init);
      forall i | 0 <= i < |s| ensures s[i].0 != d[|d| - 1].0 {
        assert s[i] in init;
        var j :| 0 <= j < |init| && init[j] == s[i];
        assert d[j] == init[j];
      }
      InsertByKey(s, d[|d| - 1])
  }

  lemma IncreasingIsDict(d: Table)
    requires Increasing(d)
    ensures IsDict(d)
  {
  }

  /** In a dict, a stored pair determines the value `d[k]` returns. */
  lemma GetPair(d: Table, k: real, v: real)
    requires IsDict(d)
    requires (k, v) in d
    ensures HasKey(d, k) && Get(d, k) == v
  {
    var i :| 0 <= i < |d| && d[i] == (k, v);
    assert d[i].0 == k;
  }

  /** Two dicts holding the same pairs answer `d[k]` alike, whatever their order. */
  lemma GetSamePairs(d1: Table, d2: Table, k: real)
    requires IsDict(d1) && IsDict(d2)
    requires forall p :: p in d1 <==> p in d2
    requires HasKey(d1, k)
    ensures HasKey(d2, k) && Get(d1, k) == Get(d2, k)
  {
    var v := Get(d1, k);
    GetPair(d2, k, v);
  }

  lemma HasKeyFromPair(d: Table, p: (real, real))
    requires p in d
    ensures HasKey(d, p.0)
  {
    var i :| 0 <= i < |d| && d[i] == p;
  }

  lemma SamePairsSameKeys(d1: Table, d2: Table, k: real)
    requires forall p :: p in d1 <==> p in d2
    ensures HasKey(d1, k) <==> HasKey(d2, k)
  {
    if HasKey(d1, k) {
      var i :| 0 <= i < |d1| && d1[i].0 == k;
      HasKeyFromPair(d2, d1[i]);
    }
    if HasKey(d2, k) {
      var i :| 0 <= i < |d2| && d2[i].0 == k;
      HasKeyFromPair(d1, d2[i]);
    }
  }
}
