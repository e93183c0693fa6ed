/** Calendar helpers: dates are day ordinals, so a day step is `+ 1`. */
module Dates {

  type Date = int

  /** Strictly increasing, hence also free of duplicates. */
  predicate Ascending(s: seq<int>) {
    forall i, j :: 0 <= i < j < |s| ==> s[i] < s[j]
  }

  /** Every day from `first` to `last`, both included. */
  function Interval(first: Date, last: Date): (r: set<Date>)
    ensures forall d :: d in r <==> first <= d <= last
  {
    set d | d in DatesBetween(first, last)
  }

  /** `list_dates_between`: the days from `first` to `last` inclusive,
      `1 + (last - first)` of them; none when `last < first`. */
  function DatesBetween(first: Date, last: Date): (r: seq<Date>)
    ensures |r| == if last < first then 0 else 1 + (last - first)
    ensures forall d :: d in r <==> first <= d <= last
    ensures forall k :: 0 <= k < |r| ==> r[k] == first + k
  {
    var r := if last < first then [] else seq(1 + (last - first), k => first + k);
    CoversInterval(r, first, last);
    r
  }

  /** The days come out in ascending order, hence without duplicates. */
  lemma {:induction false} DatesBetweenAscending(first: Date, last: Date)
    ensures Ascending(DatesBetween(first, last))
  {
  }

  lemma {:induction false} CoversInterval(r: seq<Date>, first: Date, last: Date)
    requires |r| == if last < first then 0 else 1 + (last - first)
    requires forall k :: 0 <= k < |r| ==> r[k] == first + k
    ensures forall d :: d in r <==> first <= d <= last
  {
    forall d | first <= d <= last
      ensures d in r
    {
      assert r[d - first] == d;
    }
  }

  lemma {:induction false} HeadIsElement(s: seq<int>)
    ensures |s| > 0 ==> s[0] in s
  {
  }

  /** A non-empty set has an element. */
  lemma {:induction false} NonEmptyHasElement(s: set<int>)
    requires s != {}
    ensures exists y :: y in s
  {
    if forall y :: y !in s {
      assert false;
    }
  }

  lemma {:induction false} MinExists(s: set<int>)
    requires s != {}
    ensures exists m :: m in s && forall x :: x in s ==> m <= x
    decreases |s|
  {
    NonEmptyHasElement(s);
    var y :| y in s;
    var rest := s - {y};
    if rest != {} {
      MinExists(rest);
      var m :| m in rest && forall x :: x in rest ==> m <= x;
      var least := if y < m then y else m;
      forall x | x in s
        ensures least <= x
      {
        if x != y {
          assert x in rest;
        }
      }
      assert least in s;
    } else {
      assert forall x :: x in s ==> x == y;
    }
  }

  lemma {:induction false} MaxExists(s: set<int>)
    requires s != {}
    ensures exists m :: m in s && forall x :: x in s ==> x <= m
    decreases |s|
  {
    NonEmptyHasElement(s);
    var y :| y in s;
    var rest := s - {y};
    if rest != {} {
      MaxExists(rest);
      var m :| m in rest && forall x :: x in rest ==> x <= m;
      var most := if y > m then y else m;
      forall x | x in s
        ensures x <= most
      {
        if x != y {
          assert x in rest;
        }
      }
      assert most in s;
    } else {
      assert forall x :: x in s ==> x == y;
    }
  }

  /** Python's `min` over a non-empty collection of dates. */
  function SetMin(s: set<int>): (m: int)
    requires s != {}
    ensures m in s
    ensures forall x :: x in s ==> m <= x
  {
    MinExists(s);
    var m :| m in s && forall x :: x in s ==> m <= x;
    m
  }

  /** Python's `max` over a non-empty collection of dates. */
  function SetMax(s: set<int>): (m: int)
    requires s != {}
    ensures m in s
    ensures forall x :: x in s ==> x <= m
  {
    MaxExists(s);
    var m :| m in s && forall x :: x in s ==> x <= m;
    m
  }

  /** Python's `sorted` over the keys of a dictionary of dates. */
  function SortedKeys(s: set<int>): (r: seq<int>)
    ensures |r| == |s|
    ensures forall x :: x in r <==> x in s
    ensures forall k :: 0 <= k < |r| ==> r[k] in s
    decreases |s|
  {
    if s == {} then []
    else
      var m := SetMin(s);
      [m] + SortedKeys(s - {m})
  }

  /** `SortedKeys` lists its elements in ascending order. */
  lemma {:induction false} SortedKeysAscending(s: set<int>)
    ensures Ascending(SortedKeys(s))
    decreases |s|
  {
    if s != {} {
      var m := SetMin(s);
      var rest := SortedKeys(s - {m});
      SortedKeysAscending(s - {m});
      forall k | 0 <= k < |rest|
        ensures m < rest[k]
      {
        assert rest[k] in s - {m};
      }
      ConsAscending(m, rest);
    }
  }

  /** Putting an element below all others in front keeps a sequence
      ascending. */
  lemma {:induction false} ConsAscending(m: int, rest: seq<int>)
    requires Ascending(rest)
    requires forall k :: 0 <= k < |rest| ==> m < rest[k]
    ensures Ascending([m] + rest)
  {
    var r := [m] + rest;
    forall i, j | 0 <= i < j < |r|
      ensures r[i] < r[j]
    {
      assert r[j] == rest[j - 1];
      if i > 0 {
        assert r[i] == rest[i - 1];
      }
    }
  }

  /** No element repeats an earlier one. */
  predicate NoRepeats(s: seq<int>)
    decreases |s|
  {
    |s| == 0 || (s[|s| - 1] !in s[..|s| - 1] && NoRepeats(s[..|s| - 1]))
  }

  /** In a sequence without repeats, different positions hold different
      elements. */
  lemma {:induction false} NoRepeatsApart(s: seq<int>, i: nat, j: nat)
    requires NoRepeats(s) && i < j < |s|
    ensures s[i] != s[j]
    decreases |s|
  {
    var init := s[..|s| - 1];
    assert init[i] == s[i];
    if j < |s| - 1 {
      NoRepeatsApart(init, i, j);
      assert init[j] == s[j];
    }
  }

  /** An ascending sequence has no repeats. */
  lemma {:induction false} AscendingNoRepeats(s: seq<int>)
    requires Ascending(s)
    ensures NoRepeats(s)
    decreases |s|
  {
    if |s| > 0 {
      var init := s[..|s| - 1];
      assert Ascending(init) by {
        forall i, j | 0 <= i < j < |init|
          ensures init[i] < init[j]
        {
          assert init[i] == s[i] && init[j] == s[j];
        }
      }
      AscendingNoRepeats(init);
      forall i | 0 <= i < |init|
        ensures init[i] != s[|s| - 1]
      {
        assert init[i] == s[i];
      }
    }
  }

  /** `SortedKeys` lists every element once. */
  lemma {:induction false} SortedKeysNoRepeats(s: set<int>)
    ensures NoRepeats(SortedKeys(s))
  {
    SortedKeysAscending(s);
    AscendingNoRepeats(SortedKeys(s));
  }

  /** An ascending sequence is determined by its elements. */
  lemma {:induction false} AscendingUnique(a: seq<int>, b: seq<int>)
    requires Ascending(a) && Ascending(b)
    requires forall x :: x in a <==> x in b
    ensures a == b
    decreases |a|
  {
    if a != [] && b != [] {
      assert a[0] == b[0] by {
        HeadIsElement(a);
        HeadIsElement(b);
        assert a[0] in b && b[0] in a;
      }
      forall x | x in a[1..]
        ensures x in b[1..]
      {
        var i :| 1 <= i < |a| && a[i] == x;
        assert a[0] < x;
        assert x in b;
        var j :| 0 <= j < |b| && b[j] == x;
        assert j != 0;
      }
      forall x | x in b[1..]
        ensures x in a[1..]
      {
        var j :| 1 <= j < |b| && b[j] == x;
        assert b[0] < x;
        assert x in a;
        var i :| 0 <= i < |a| && a[i] == x;
        assert i != 0;
      }
      AscendingUnique(a[1..], b[1..]);
      assert a == [a[0]] + a[1..];
      assert b == [b[0]] + b[1..];
    } else if a != [] {
      HeadIsElement(a);
      assert false;
    } else if b != [] {
      HeadIsElement(b);
      assert false;
    }
  }

  /** Sorting the days of an interval lists them in calendar order. */
  lemma {:induction false} SortedInterval(first: Date, last: Date)
    ensures SortedKeys(Interval(first, last)) == DatesBetween(first, last)
  {
    SortedKeysAscending(Interval(first, last));
    DatesBetweenAscending(first, last);
    AscendingUnique(SortedKeys(Interval(first, last)), DatesBetween(first, last));
  }
}
