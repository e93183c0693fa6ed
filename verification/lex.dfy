/** Python's ordering of `str` values (code point by code point, a proper
    prefix first) and `sorted` over a set of currency codes. */
module Lex {

  /** `a < b` on Python strings. */
  predicate Below(a: string, b: string)
    decreases |a|
  {
    if |a| == 0 then |b| > 0
    else |b| > 0 && (a[0] < b[0] || (a[0] == b[0] && Below(a[1..], b[1..])))
  }

  lemma {:induction false} BelowIrreflexive(a: string)
    ensures !Below(a, a)
    decreases |a|
  {
    if |a| > 0 {
      BelowIrreflexive(a[1..]);
    }
  }

  lemma {:induction false} BelowTransitive(a: string, b: string, c: string)
    requires Below(a, b) && Below(b, c)
    ensures Below(a, c)
    decreases |a|
  {
    if |a| > 0 && a[0] == b[0] && b[0] == c[0] {
      BelowTransitive(a[1..], b[1..], c[1..]);
    }
  }

  /** Two different strings are ordered one way or the other. */
  lemma {:induction false} BelowTotal(a: string, b: string)
    requires a != b
    ensures Below(a, b) || Below(b, a)
    decreases |a|
  {
    if |a| > 0 && |b| > 0 && a[0] == b[0] {
      assert a == [a[0]] + a[1..] && b == [b[0]] + b[1..];
      BelowTotal(a[1..], b[1..]);
    }
  }

  lemma {:induction false} LeastExists(s: set<string>)
    requires s != {}
    ensures exists m :: m in s && forall x :: x in s && x != m ==> Below(m, x)
    decreases |s|
  {
    var y :| y in s;
    var rest := s - {y};
    if rest == {} {
      assert s == {y};
    } else {
      LeastExists(rest);
      var m :| m in rest && forall x :: x in rest && x != m ==> Below(m, x);
      if Below(y, m) {
        forall x | x in s && x != y
          ensures Below(y, x)
        {
          if x != m {
            assert x in rest;
            BelowTransitive(y, m, x);
          }
        }
      } else {
        BelowTotal(y, m);
        forall x | x in s && x != m
          ensures Below(m, x)
        {
          if x != y {
            assert x in rest;
          }
        }
      }
    }
  }

  /** The smallest string of a non-empty set. */
  function Least(s: set<string>): (m: string)
    requires s != {}
    ensures m in s
    ensures forall x :: x in s && x != m ==> Below(m, x)
  {
    LeastExists(s);
    var m :| m in s && forall x :: x in s && x != m ==> Below(m, x);
    LeastUnique(s, m);
    m
  }

  /** At most one element of a set lies below all the others. */
  lemma {:induction false} LeastUnique(s: set<string>, m: string)
    requires m in s && forall x :: x in s && x != m ==> Below(m, x)
    ensures forall n :: n in s && (forall x :: x in s && x != n ==> Below(n, x)) ==> n == m
  {
    forall n | n in s && (forall x :: x in s && x != n ==> Below(n, x))
      ensures n == m
    {
      if n != m {
        assert Below(m, n) && Below(n, m);
        BelowTransitive(m, n, m);
        BelowIrreflexive(m);
      }
    }
  }

  /** `sorted(s)` for a set of strings. */
  function Sorted(s: set<string>): (r: seq<string>)
    ensures |r| == |s|
    ensures forall x :: x in r <==> x in s
    ensures forall k :: 0 <= k < |r| ==> r[k] in s
    decreases |s|
  {
    if s == {} then []
    else
      var m := Least(s);
      [m] + Sorted(s - {m})
  }

  /** Strictly increasing in Python's string order. */
  predicate Increasing(s: seq<string>) {
    forall i, j :: 0 <= i < j < |s| ==> Below(s[i], s[j])
  }

  /** `Sorted` lists the strings in strictly increasing order. */
  lemma {:induction false} SortedIncreasing(s: set<string>)
    ensures Increasing(Sorted(s))
    decreases |s|
  {
    if s != {} {
      var m := Least(s);
      var rest := Sorted(s - {m});
      SortedIncreasing(s - {m});
      forall k | 0 <= k < |rest|
        ensures Below(m, rest[k])
      {
        assert rest[k] in s - {m};
      }
      ConsIncreasing(m, rest);
    }
  }

  /** Putting a string below all others in front keeps a sequence
      increasing. */
  lemma {:induction false} ConsIncreasing(m: string, rest: seq<string>)
    requires Increasing(rest)
    requires forall k :: 0 <= k < |rest| ==> Below(m, rest[k])
    ensures Increasing([m] + rest)
  {
    var r := [m] + rest;
    forall i, j | 0 <= i < j < |r|
      ensures Below(r[i], r[j])
    {
      assert r[j] == rest[j - 1];
      if i > 0 {
        assert r[i] == rest[i - 1];
      }
    }
  }
}
