/** Gap materialisation (`_set_missing_to_none`) and the two fill policies
    (`_use_linear_interpolation`, `_use_last_known`), with their reference
    definitions: the nearest observed entry before and after a gap. */
module GapFill {
  import opened Wrappers
  import opened Dates
  import opened Rates

  /** A currency's loaded rates as a series in which every value is present. */
  function Observe(obs: map<Date, real>): (m: Series)
    ensures m.Keys == obs.Keys
    ensures forall d :: d in obs ==> m[d] == Some(obs[d])
  {
    map d | d in obs :: Some(obs[d])
  }

  /** The loop of `_set_missing_to_none`: each listed date that is not yet a
      key becomes an explicit `None`. */
  function SetMissingToNone(rates: Series, dates: seq<Date>): Series
    decreases |dates|
  {
    if |dates| == 0 then rates
    else
      var d := dates[0];
      SetMissingToNone(if d in rates then rates else rates[d := None], dates[1..])
  }

  /** The loop adds exactly the listed dates that were missing, as `None`,
      and leaves every existing entry alone. */
  lemma {:induction false} SetMissingToNoneSpec(rates: Series, dates: seq<Date>)
    ensures forall d :: d in SetMissingToNone(rates, dates) <==> d in rates || d in dates
    ensures forall d :: d in rates ==> SetMissingToNone(rates, dates)[d] == rates[d]
    ensures forall d :: d in SetMissingToNone(rates, dates) && d !in rates ==> SetMissingToNone(rates, dates)[d] == None
    decreases |dates|
  {
    if |dates| > 0 {
      var d := dates[0];
      var next := if d in rates then rates else rates[d := None];
      SetMissingToNoneSpec(next, dates[1..]);
      assert dates == [d] + dates[1..];
    }
  }

  /** `_set_missing_to_none` applied to a freshly loaded currency. */
  function Materialise(obs: map<Date, real>, b: Bounds): Series {
    SetMissingToNone(Observe(obs), DatesBetween(b.first, b.last))
  }

  /** After materialisation the keys are exactly the bounds' days, observed
      values are unchanged and every added date is `None`. */
  lemma {:induction false} MaterialiseSpec(obs: map<Date, real>, b: Bounds)
    requires forall d :: d in obs ==> b.Contains(d)
    ensures Materialise(obs, b).Keys == Interval(b.first, b.last)
    ensures forall d :: d in obs ==> d in Materialise(obs, b) && Materialise(obs, b)[d] == Some(obs[d])
    ensures forall d :: d in Materialise(obs, b) && d !in obs ==> Materialise(obs, b)[d] == None
  {
    SetMissingToNoneSpec(Observe(obs), DatesBetween(b.first, b.last));
  }

  // ---------------------------------------------------------------------
  // Reference definitions: nearest observed entries in traversal order.

  /** The values of `rates` in the order `order` visits them. */
  function Column(rates: Series, order: seq<Date>): (vals: seq<Option<real>>)
    requires forall k :: 0 <= k < |order| ==> order[k] in rates
    ensures |vals| == |order|
    ensures forall k :: 0 <= k < |order| ==> vals[k] == rates[order[k]]
  {
    seq(|order|, k requires 0 <= k < |order| => rates[order[k]])
  }

  /** Index of the nearest observed entry at or before `i`, if any. */
  function PrevObserved(vals: seq<Option<real>>, i: nat): (p: Option<nat>)
    requires i < |vals|
    ensures p.Some? ==> p.value <= i && vals[p.value].Some?
    ensures p.None? ==> vals[0].None?
  {
    if vals[i].Some? then Some(i)
    else if i == 0 then None
    else PrevObserved(vals, i - 1)
  }

  /** Index of the nearest observed entry at or after `i`, if any. */
  function NextObserved(vals: seq<Option<real>>, i: nat): (q: Option<nat>)
    requires i < |vals|
    ensures q.Some? ==> i <= q.value < |vals| && vals[q.value].Some?
    decreases |vals| - i
  {
    if vals[i].Some? then Some(i)
    else if i + 1 == |vals| then None
    else NextObserved(vals, i + 1)
  }

  /** `PrevObserved` finds the nearest observed entry: none lies between it
      and `i`, and there is none at all when it finds nothing. */
  lemma {:induction false} PrevObservedNearest(vals: seq<Option<real>>, i: nat)
    requires i < |vals|
    ensures PrevObserved(vals, i).Some? ==>
              forall k :: PrevObserved(vals, i).value < k <= i ==> vals[k].None?
    ensures PrevObserved(vals, i).None? ==> forall k :: 0 <= k <= i ==> vals[k].None?
  {
    if vals[i].None? && i > 0 {
      PrevObservedNearest(vals, i - 1);
    }
  }

  /** `NextObserved` finds the nearest observed entry: none lies between `i`
      and it, and there is none at all when it finds nothing. */
  lemma {:induction false} NextObservedNearest(vals: seq<Option<real>>, i: nat)
    requires i < |vals|
    ensures NextObserved(vals, i).Some? ==>
              forall k :: i <= k < NextObserved(vals, i).value ==> vals[k].None?
    ensures NextObserved(vals, i).None? ==> forall k :: i <= k < |vals| ==> vals[k].None?
    decreases |vals| - i
  {
    if vals[i].None? && i + 1 < |vals| {
      NextObservedNearest(vals, i + 1);
    }
  }

  // ---------------------------------------------------------------------
  // `_use_linear_interpolation`

  /** The locals `closest_rate` and `dist` of a fill pass: not yet assigned,
      or the rate of the last observed entry passed and the number of
      entries passed since. */
  datatype Scan = Unbound | Near(rate: real, dist: nat)

  /** One iteration of a pass over an entry with value `v`. Reading `dist`
      before any assignment raises UnboundLocalError. */
  function Step(s: Scan, v: Option<real>): (r: Result<Scan, LoadError>)
    ensures r.Success? ==> r.value.Near?
    ensures r.Success? && v.None? ==> r.value.dist >= 1
    ensures r.Failure? <==> v.None? && s.Unbound?
    ensures r.Failure? ==> r.error == UnboundLocal
  {
    match v
    case Some(x) => Success(Near(x, 0))
    case None => if s.Unbound? then Failure(UnboundLocal) else Success(Near(s.rate, s.dist + 1))
  }

  /** State of the ascending pass after the first `i` entries. */
  function ForwardScan(vals: seq<Option<real>>, i: nat): (r: Result<Scan, LoadError>)
    requires i <= |vals|
    ensures 0 < i && r.Success? ==> r.value.Near?
    ensures 0 < i && r.Success? && vals[i - 1].None? ==> r.value.dist >= 1
  {
    if i == 0 then Success(Unbound)
    else
      var s :- ForwardScan(vals, i - 1);
      Step(s, vals[i - 1])
  }

  /** State of the descending pass after the last `j` entries. It starts from
      `start`, the state the ascending pass left behind: the same two
      locals are reused. */
  function BackwardScan(vals: seq<Option<real>>, start: Scan, j: nat): (r: Result<Scan, LoadError>)
    requires j <= |vals|
    ensures 0 < j && r.Success? ==> r.value.Near?
    ensures 0 < j && r.Success? && vals[|vals| - j].None? ==> r.value.dist >= 1
  {
    if j == 0 then Success(start)
    else
      var s :- BackwardScan(vals, start, j - 1);
      Step(s, vals[|vals| - j])
  }

  /** `(r0 * d1 + r1 * d0) / (d0 + d1)`: each rate weighted by the distance
      to the other one, so the nearer observation weighs more; the result
      lies between the two rates. */
  function Weighted(r0: real, d0: nat, r1: real, d1: nat): (r: real)
    requires d0 + d1 > 0
    ensures r0 <= r1 ==> r0 <= r <= r1
    ensures r1 <= r0 ==> r1 <= r <= r0
  {
    WeightedIsConvex(r0, d0, r1, d1);
    (r0 * d1 as real + r1 * d0 as real) / (d0 + d1) as real
  }

  lemma {:induction false} WeightedIsConvex(r0: real, d0: nat, r1: real, d1: nat)
    requires d0 + d1 > 0
    ensures var r := (r0 * d1 as real + r1 * d0 as real) / (d0 + d1) as real;
      && (r0 <= r1 ==> r0 <= r <= r1)
      && (r1 <= r0 ==> r1 <= r <= r0)
  {
    var w := (d0 + d1) as real;
    var x0 := d0 as real;
    var x1 := d1 as real;
    var r := (r0 * x1 + r1 * x0) / w;
    assert r * w == r0 * x1 + r1 * x0;
    if r0 <= r1 {
      WeightedGaps(r0, x0, r1, x1, w, r);
      ProductNonNegative(r1 - r0, x0);
      ProductNonNegative(r1 - r0, x1);
      ScaledLe(r0, r, w);
      ScaledLe(r, r1, w);
    }
    if r1 <= r0 {
      WeightedGaps(r1, x1, r0, x0, w, r);
      ProductNonNegative(r0 - r1, x0);
      ProductNonNegative(r0 - r1, x1);
      ScaledLe(r1, r, w);
      ScaledLe(r, r0, w);
    }
  }

  /** Scaled by the total weight, the average sits `(r1 - r0) * x0` above
      the first rate and `(r1 - r0) * x1` below the second. */
  lemma {:induction false} WeightedGaps(r0: real, x0: real, r1: real, x1: real, w: real, r: real)
    requires w == x0 + x1 && r * w == r0 * x1 + r1 * x0
    ensures r * w - r0 * w == (r1 - r0) * x0
    ensures r1 * w - r * w == (r1 - r0) * x1
  {
  }

  /** Scaling both sides by the same positive factor keeps their order. */
  lemma {:induction false} ScaledLe(a: real, b: real, w: real)
    requires 0.0 < w && a * w <= b * w
    ensures a <= b
  {
  }

  lemma {:induction false} ProductNonNegative(x: real, y: real)
    requires 0.0 <= x && 0.0 <= y
    ensures 0.0 <= x * y
  {
  }

  /** The filled value from the two neighbours recorded for a gap. */
  function Interpolate(before: Scan, after: Scan): real
    requires before.Near? && after.Near? && before.dist + after.dist > 0
  {
    Weighted(before.rate, before.dist, after.rate, after.dist)
  }

  /** The final loop: every gap among the first `i` entries gets the
      interpolation of the states both passes recorded at it. */
  function WriteBack(rates: Series, order: seq<Date>, fwd: Scan, i: nat): (r: Result<Series, LoadError>)
    requires i <= |order|
    requires forall k :: 0 <= k < |order| ==> order[k] in rates
  {
    if i == 0 then Success(rates)
    else
      var acc :- WriteBack(rates, order, fwd, i - 1);
      var vals := Column(rates, order);
      if vals[i - 1].Some? then Success(acc)
      else
        var before :- ForwardScan(vals, i);
        var after :- BackwardScan(vals, fwd, |vals| - (i - 1));
        Success(acc[order[i - 1] := Some(Interpolate(before, after))])
  }

  /** `_use_linear_interpolation` on one currency's series. */
  function LinearInterpolation(rates: Series): Result<Series, LoadError> {
    var order := SortedKeys(rates.Keys);
    var vals := Column(rates, order);
    var fwd :- ForwardScan(vals, |vals|);
    var bwd :- BackwardScan(vals, fwd, |vals|);
    WriteBack(rates, order, fwd, |order|)
  }

  // ---------------------------------------------------------------------
  // `_use_last_known`

  /** The table being filled and the local `last_rate`. */
  datatype Carry = Carry(table: Series, last: Option<real>)

  /** State of `_use_last_known` after the first `i` entries of `order`. */
  function LastKnownPass(rates: Series, order: seq<Date>, i: nat): (r: Result<Carry, LoadError>)
    requires i <= |order|
    requires forall k :: 0 <= k < |order| ==> order[k] in rates
  {
    if i == 0 then Success(Carry(rates, None))
    else
      var c :- LastKnownPass(rates, order, i - 1);
      var d := order[i - 1];
      match rates[d]
      case Some(x) => Success(Carry(c.table, Some(x)))
      case None =>
        if c.last.None? then Failure(UnboundLocal)
        else Success(Carry(c.table[d := c.last], c.last))
  }

  /** `_use_last_known` on one currency's series. */
  function LastKnown(rates: Series): Result<Series, LoadError> {
    var order := SortedKeys(rates.Keys);
    var c :- LastKnownPass(rates, order, |order|);
    Success(c.table)
  }
}
