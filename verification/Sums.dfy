/** Finite sums over lists. */
module Sums {
  import opened Names

  ghost function Sum<T>(s: seq<T>, f: T -> int): int {
    if s == [] then 0 else f(s[0]) + Sum(s[1..], f)
  }

  lemma {:induction false} SumConcat<T>(a: seq<T>, b: seq<T>, f: T -> int)
    ensures Sum(a + b, f) == Sum(a, f) + Sum(b, f)
  {
    if a == [] {
      assert a + b == b;
    } else {
      SumConcat(a[1..], b, f);
      assert (a + b)[1..] == a[1..] + b;
    }
  }

  lemma SumAppend<T>(a: seq<T>, x: T, f: T -> int)
    ensures Sum(a + [x], f) == Sum(a, f) + f(x)
  {
    SumConcat(a, [x], f);
  }

  lemma {:induction false} SumEqual<T>(s: seq<T>, f: T -> int, g: T -> int)
    requires forall x | x in s :: f(x) == g(x)
    ensures Sum(s, f) == Sum(s, g)
  {
    if s != [] {
      SumEqual(s[1..], f, g);
    }
  }

  lemma {:induction false} SumAtMost<T>(s: seq<T>, f: T -> int, g: T -> int)
    requires forall x | x in s :: f(x) <= g(x)
    ensures Sum(s, f) <= Sum(s, g)
  {
    if s != [] {
      SumAtMost(s[1..], f, g);
    }
  }

  /** What is nowhere more and equal in sum is equal everywhere. */
  lemma {:induction false} SumTight<T>(s: seq<T>, f: T -> int, g: T -> int)
    requires (forall x | x in s :: f(x) <= g(x)) && Sum(s, f) == Sum(s, g)
    ensures forall x | x in s :: f(x) == g(x)
  {
    if s != [] {
      SumAtMost(s[1..], f, g);
      SumTight(s[1..], f, g);
      assert forall x | x in s :: x == s[0] || x in s[1..];
    }
  }

  lemma {:induction false} SumZero<T>(s: seq<T>, f: T -> int)
    requires forall x | x in s :: f(x) == 0
    ensures Sum(s, f) == 0
  {
    if s != [] {
      SumZero(s[1..], f);
    }
  }

  lemma {:induction false} SumSplit<T>(s: seq<T>, f: T -> int, g: T -> int, h: T -> int)
    requires forall x | x in s :: f(x) == g(x) + h(x)
    ensures Sum(s, f) == Sum(s, g) + Sum(s, h)
  {
    if s != [] {
      SumSplit(s[1..], f, g, h);
    }
  }

  lemma SumRemove<T>(s: seq<T>, i: nat, f: T -> int)
    requires i < |s|
    ensures Sum(s, f) == f(s[i]) + Sum(s[..i] + s[i + 1..], f)
  {
    var before, after := s[..i], s[i + 1..];
    SumConcat(before, s[i..], f);
    assert s == before + s[i..];
    assert s[i..][1..] == after;
    SumConcat(before, after, f);
  }

  lemma SumReplace<T>(s: seq<T>, i: nat, x: T, f: T -> int)
    requires i < |s|
    ensures Sum(s[i := x], f) == Sum(s, f) - f(s[i]) + f(x)
  {
    SumRemove(s, i, f);
    SumRemove(s[i := x], i, f);
    assert s[i := x][..i] + s[i := x][i + 1..] == s[..i] + s[i + 1..];
  }

  /** A sum over distinct items does not depend on the order in which they are listed. */
  lemma {:induction false} SumAnyOrder<T>(s: seq<T>, t: seq<T>, f: T -> int)
    requires Distinct(s) && Distinct(t)
    requires forall x :: x in s <==> x in t
    ensures Sum(s, f) == Sum(t, f)
  {
    if s == [] {
      SumZero(t, f);
    } else {
      assert s[0] in s;
      var i :| 0 <= i < |t| && t[i] == s[0];
      var u := t[..i] + t[i + 1..];
      forall x ensures x in s[1..] <==> x in u {
        if x in s[1..] {
          assert x in t && x != s[0];
        }
        if x in u {
          assert x in t && x in s;
          var j :| 0 <= j < |u| && u[j] == x;
          assert x == t[if j < i then j else j + 1];
        }
      }
      SumAnyOrder(s[1..], u, f);
      SumRemove(t, i, f);
    }
  }

  /** A function that is zero except at one listed item sums to its value there. */
  lemma {:induction false} SumOneHot<T>(s: seq<T>, x: T, f: T -> int)
    requires Distinct(s)
    requires forall y | y in s && y != x :: f(y) == 0
    ensures Sum(s, f) == if x in s then f(x) else 0
  {
    if x in s {
      var i :| 0 <= i < |s| && s[i] == x;
      SumRemove(s, i, f);
      var rest := s[..i] + s[i + 1..];
      forall y | y in rest ensures f(y) == 0 {
        var j :| 0 <= j < |rest| && rest[j] == y;
        assert y == s[if j < i then j else j + 1];
      }
      SumZero(rest, f);
    } else {
      SumZero(s, f);
    }
  }
}
