/** Python's ordering of `str` values (code point by code point, a proper
    prefix first) and `sorted(...)` applied to a set of strings. */
module Ordering {

  /** `a < b` on Python strings. */
  predicate Less(a: string, b: string)
    decreases |a|
  {
    if |a| == 0 then |b| > 0
    else if |b| == 0 then false
    else if a[0] != b[0] then a[0] < b[0]
    else Less(a[1..], b[1..])
  }

  lemma {:induction false} LessIrreflexive(a: string)
    ensures !Less(a, a)
    decreases |a|
  {
    if |a| > 0 {
      LessIrreflexive(a[1..]);
    }
  }

  lemma {:induction false} LessTransitive(a: string, b: string, c: string)
    requires Less(a, b) && Less(b, c)
    ensures Less(a, c)
    decreases |a|
  {
    if |a| > 0 && |b| > 0 && |c| > 0 && a[0] == b[0] && b[0] == c[0] {
      LessTransitive(a[1..], b[1..], c[1..]);
    }
  }

  /** Two different strings are always ordered one way or the other. */
  lemma {:induction false} LessTotal(a: string, b: string)
    requires a != b
    ensures Less(a, b) || Less(b, a)
    decreases |a|
  {
    if |a| > 0 && |b| > 0 && a[0] == b[0] {
      assert a == [a[0]] + a[1..] && b == [b[0]] + b[1..];
      LessTotal(a[1..], b[1..]);
    }
  }

  lemma {:induction false} LessAsymmetric(a: string, b: string)
    requires Less(a, b)
    ensures !Less(b, a)
  {
    if Less(b, a) {
      LessTransitive(a, b, a);
      LessIrreflexive(a);
    }
  }

  /** Every element is smaller than every later one. */
  predicate StrictlySorted(r: seq<string>)
  {
    forall i, j :: 0 <= i < j < |r| ==> Less(r[i], r[j])
  }

  /** `r` is `sorted(s)`: the elements of the set `s`, ascending. */
  predicate SortedListOf(r: seq<string>, s: set<string>)
  {
    StrictlySorted(r) && (forall x :: x in r ==> x in s) && (forall x :: x in s ==> x in r)
  }

  /** A strictly sorted list holds each element exactly once. */
  lemma {:induction false} SortedDistinct(r: seq<string>)
    requires StrictlySorted(r)
    ensures forall i, j :: 0 <= i < |r| && 0 <= j < |r| && i != j ==> r[i] != r[j]
  {
    forall i, j | 0 <= i < |r| && 0 <= j < |r| && i != j ensures r[i] != r[j] {
      if r[i] == r[j] {
        if i < j { LessIrreflexive(r[i]); } else { LessIrreflexive(r[j]); }
      }
    }
  }

  /** `m` is the smallest element of `s`. */
  predicate IsLeast(m: string, s: set<string>)
  {
    m in s && forall y :: y in s && y != m ==> Less(m, y)
  }

  lemma {:induction false} LeastExists(s: set<string>)
    requires s != {}
    ensures exists m :: IsLeast(m, s)
    decreases |s|
  {
    var x :| x in s;
    var t := s - {x};
    if t == {} {
      assert s == {x};
      assert IsLeast(x, s);
    } else {
      LeastExists(t);
      var m :| IsLeast(m, t);
      if Less(x, m) {
        forall y | y in s && y != x ensures Less(x, y) {
          if y != m { LessTransitive(x, m, y); }
        }
        assert IsLeast(x, s);
      } else {
        LessTotal(x, m);
        assert IsLeast(m, s);
      }
    }
  }

  lemma {:induction false} HeadIn(r: seq<string>)
    ensures |r| > 0 ==> r[0] in r
  {
  }

  /** There is only one sorted list of a given set, so `sorted` is determined
      by the set alone. */
  lemma {:induction false} SortedListUnique(r1: seq<string>, r2: seq<string>, s: set<string>)
    requires SortedListOf(r1, s) && SortedListOf(r2, s)
    ensures r1 == r2
    decreases |r1|
  {
    if |r1| == 0 {
      if |r2| > 0 { HeadIn(r2); assert false; }
    } else {
      assert r1[0] in s;
      assert |r2| > 0 by { if |r2| == 0 { assert r1[0] in r2; } }
      // each head occurs in the other list; if neither sits at the front, the
      // two heads would each be smaller than the other
      HeadIn(r1);
      HeadIn(r2);
      var k :| 0 <= k < |r1| && r1[k] == r2[0];
      var j :| 0 <= j < |r2| && r2[j] == r1[0];
      if k != 0 && j != 0 {
        LessAsymmetric(r1[0], r1[k]);
        assert false;
      }
      var t := s - {r1[0]};
      SortedDistinct(r1);
      SortedDistinct(r2);
      forall x ensures x in r1[1..] <==> x in t {
        if x in r1[1..] {
          var k :| 1 <= k < |r1| && r1[k] == x;
        }
      }
      forall x ensures x in r2[1..] <==> x in t {
        if x in r2[1..] {
          var k :| 1 <= k < |r2| && r2[k] == x;
        }
        if x in t {
          var k :| 0 <= k < |r2| && r2[k] == x;
          assert k != 0;
        }
      }
      SortedListUnique(r1[1..], r2[1..], t);
    }
  }

  /** `sorted(s)` for a set of strings, by repeatedly taking the least
      remaining element. */
  method Sorted(s: set<string>) returns (r: seq<string>)
    ensures SortedListOf(r, s)
  {
    r := [];
    var rest := s;
    while rest != {}
      invariant StrictlySorted(r)
      invariant forall x :: x in r <==> x in s && x !in rest
      invariant rest <= s
      invariant forall x, y :: x in r && y in rest ==> Less(x, y)
      decreases |rest|
    {
      LeastExists(rest);
      var m :| IsLeast(m, rest);
      forall i | 0 <= i < |r| ensures Less(r[i], m) {
        assert r[i] in r;
      }
      r := r + [m];
      rest := rest - {m};
    }
  }
}
