/** A worked case of the two fill policies: a USD column observed on three
    days of a week, 18 on the first day, 6 on the fifth and 2 on the
    seventh, with the gaps in between materialised as missing. */
module Scenarios {
  import opened Wrappers
  import opened Dates
  import opened Rates
  import opened GapFill
  import opened GapFillProofs
  import opened LastKnownProofs

  /** The observed USD rates, `d` being the first day. */
  function Week(d: Date): map<Date, real> {
    map[d := 18.0, d + 4 := 6.0, d + 6 := 2.0]
  }

  /** The column after `_set_missing_to_none`. */
  function WeekSeries(d: Date): Series {
    Materialise(Week(d), Bounds(d, d + 6))
  }

  /** The materialised column covers the seven days, is observed on the
      first one and has a gap from the first to the fifth day. */
  lemma {:induction false} WeekShape(d: Date)
    ensures WeekSeries(d).Keys == Interval(d, d + 6)
    ensures WeekSeries(d)[d] == Some(18.0)
    ensures Gap(WeekSeries(d), d, d + 3, d + 4)
    ensures WeekSeries(d)[d + 4] == Some(6.0)
    ensures LastObservedAt(WeekSeries(d), d, d + 3)
  {
    var m := WeekSeries(d);
    MaterialiseSpec(Week(d), Bounds(d, d + 6));
    forall x | d < x < d + 4 && x in m
      ensures m[x].None?
    {
      assert x !in Week(d);
    }
  }

  /** Linear interpolation fills the fourth day with
      `(18 * 1 + 6 * 3) / (3 + 1) = 9`: the later observation is nearer and
      weighs more. */
  lemma {:induction false} WeekLinear(d: Date)
    ensures LinearInterpolation(WeekSeries(d)).Success?
    ensures d + 3 in LinearInterpolation(WeekSeries(d)).value
    ensures LinearInterpolation(WeekSeries(d)).value[d + 3] == Some(9.0)
  {
    var m := WeekSeries(d);
    WeekShape(d);
    LinearInterpolationOnInterval(m, d, d + 6);
    assert Weighted(18.0, 3, 6.0, 1) == 9.0;
  }

  /** Last-known filling gives the fourth day the first day's 18, the most
      recent rate observed on or before it. */
  lemma {:induction false} WeekLastKnown(d: Date)
    ensures LastKnown(WeekSeries(d)).Success?
    ensures d + 3 in LastKnown(WeekSeries(d)).value
    ensures LastKnown(WeekSeries(d)).value[d + 3] == Some(18.0)
  {
    var m := WeekSeries(d);
    WeekShape(d);
    LastKnownOnInterval(m, d, d + 6);
  }
}
