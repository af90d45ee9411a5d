/** Sums over maps to reals, and each test's share of a suite's total time. */
module Shares {

  datatype Id = Id(name: string)

  /** The sum of f over s, in any order. */
  ghost function Sum(f: map<Id, real>, s: set<Id>): real
    requires s <= f.Keys
  {
    if s == {} then 0.0 else
    var x :| x in s;
    f[x] + Sum(f, s - {x})
  }

  /** Any element can be taken out first. */
  lemma {:induction false} SumRemove(f: map<Id, real>, s: set<Id>, x: Id)
    requires s <= f.Keys && x in s
    ensures Sum(f, s) == f[x] + Sum(f, s - {x})
    decreases |s|
  {
    var y :| y in s && Sum(f, s) == f[y] + Sum(f, s - {y});
    if x != y {
      SumRemove(f, s - {y}, x);
      SumRemove(f, s - {x}, y);
      assert s - {y} - {x} == s - {x} - {y};
    }
  }

  lemma {:induction false} SumSame(f: map<Id, real>, g: map<Id, real>, s: set<Id>)
    requires s <= f.Keys && s <= g.Keys && forall x :: x in s ==> f[x] == g[x]
    ensures Sum(f, s) == Sum(g, s)
    decreases |s|
  {
    if s != {} {
      var x :| x in s;
      SumRemove(f, s, x);
      SumRemove(g, s, x);
      SumSame(f, g, s - {x});
    }
  }

  lemma {:induction false} SumAdd(f: map<Id, real>, g: map<Id, real>, h: map<Id, real>, s: set<Id>)
    requires s <= f.Keys && s <= g.Keys && s <= h.Keys && forall x :: x in s ==> h[x] == f[x] + g[x]
    ensures Sum(h, s) == Sum(f, s) + Sum(g, s)
    decreases |s|
  {
    if s != {} {
      var x :| x in s;
      SumRemove(f, s, x);
      SumRemove(g, s, x);
      SumRemove(h, s, x);
      SumAdd(f, g, h, s - {x});
    }
  }

  function Mul(c: real, a: real): real {
    c * a
  }

  lemma Distribute(c: real, a: real, b: real)
    ensures Mul(c, a + b) == Mul(c, a) + Mul(c, b) && Mul(c, 0.0) == 0.0
  {
  }

  lemma {:induction false} SumScale(f: map<Id, real>, g: map<Id, real>, c: real, s: set<Id>)
    requires s <= f.Keys && s <= g.Keys && forall x :: x in s ==> g[x] == Mul(c, f[x])
    ensures Sum(g, s) == Mul(c, Sum(f, s))
    decreases |s|
  {
    hide Mul;
    if s != {} {
      var x :| x in s;
      SumRemove(f, s, x);
      SumRemove(g, s, x);
      SumScale(f, g, c, s - {x});
      Distribute(c, f[x], Sum(f, s - {x}));
    } else {
      Distribute(c, 0.0, 0.0);
    }
  }

  lemma {:induction false} SumAtMost(f: map<Id, real>, g: map<Id, real>, s: set<Id>)
    requires s <= f.Keys && s <= g.Keys && forall x :: x in s ==> f[x] <= g[x]
    ensures Sum(f, s) <= Sum(g, s)
    decreases |s|
  {
    if s != {} {
      var x :| x in s;
      SumRemove(f, s, x);
      SumRemove(g, s, x);
      SumAtMost(f, g, s - {x});
    }
  }

  /** Elements that contribute nothing may be left out. */
  lemma {:induction false} SumWithoutZeros(f: map<Id, real>, s: set<Id>, t: set<Id>)
    requires s <= t <= f.Keys && forall x :: x in t && x !in s ==> f[x] == 0.0
    ensures Sum(f, t) == Sum(f, s)
    decreases |t|
  {
    if s != t {
      var x :| x in t && x !in s;
      SumRemove(f, t, x);
      SumWithoutZeros(f, s, t - {x});
    }
  }

  lemma SumNonNegative(f: map<Id, real>, s: set<Id>)
    requires s <= f.Keys && forall x :: x in s ==> f[x] >= 0.0
    ensures Sum(f, s) >= 0.0
    decreases |s|
  {
    if s != {} {
      var x :| x in s;
      SumRemove(f, s, x);
      SumNonNegative(f, s - {x});
    }
  }

  ghost function Total(d: map<Id, real>): real {
    Sum(d, d.Keys)
  }

  /** A measured suite: no negative durations, and some time in all. */
  ghost predicate Measured(d: map<Id, real>) {
    (forall x :: x in d ==> d[x] >= 0.0) && Total(d) > 0.0
  }

  /** A test's share in percentage points; zero if it was not measured. */
  ghost function Share(d: map<Id, real>, x: Id): real {
    if x in d && Total(d) > 0.0 then 100.0 * d[x] / Total(d) else 0.0
  }

  ghost function ShareMap(d: map<Id, real>, ids: set<Id>): (m: map<Id, real>)
    ensures m.Keys == ids && forall x :: x in ids ==> m[x] == Share(d, x)
  {
    map x | x in ids :: Share(d, x)
  }

  lemma Percent(a: real, t: real)
    requires t > 0.0
    ensures 100.0 * a / t == Mul(100.0 / t, a)
    ensures a == t ==> Mul(100.0 / t, a) == 100.0
    ensures a >= 0.0 ==> 100.0 * a / t >= 0.0
  {
    assert 100.0 / t * t == 100.0;
    assert a >= 0.0 ==> 100.0 / t * a >= 0.0;
    assert 100.0 * a / t * t == 100.0 * a;
    assert 100.0 / t * a * t == 100.0 / t * t * a;
  }

  /** Shares add up to a hundred, over any set that holds all the tests. */
  lemma SharesSum(d: map<Id, real>, ids: set<Id>)
    requires Total(d) > 0.0 && d.Keys <= ids
    ensures Sum(ShareMap(d, ids), ids) == 100.0
  {
    hide Sum, Mul;
    var m, t := ShareMap(d, ids), Total(d);
    SumWithoutZeros(m, d.Keys, ids);
    forall x | x in d
      ensures m[x] == Mul(100.0 / t, d[x])
    {
      Percent(d[x], t);
    }
    SumScale(d, m, 100.0 / t, d.Keys);
    Percent(t, t);
  }

  /** Multiplying every duration by the same factor changes no share. */
  lemma ScaleFree(d: map<Id, real>, e: map<Id, real>, c: real, x: Id)
    requires c > 0.0 && e.Keys == d.Keys && (forall y :: y in d ==> e[y] == c * d[y]) && Total(d) > 0.0
    ensures Total(e) == c * Total(d) > 0.0
    ensures Share(e, x) == Share(d, x)
  {
    hide Sum;
    SumScale(d, e, c, d.Keys);
    Positive(c, Total(d));
    if x in d {
      Cancel(c, d[x], Total(d));
    }
  }

  lemma Positive(a: real, b: real)
    requires a > 0.0 && b > 0.0
    ensures a * b > 0.0
  {
  }

  lemma Cancel(c: real, a: real, t: real)
    requires c > 0.0 && t > 0.0 && c * t > 0.0
    ensures 100.0 * (c * a) / (c * t) == 100.0 * a / t
  {
    var q := 100.0 * a / t;
    assert q * t == 100.0 * a;
    assert q * (c * t) == c * (q * t) == 100.0 * (c * a);
  }

  /** Shares are in the ratio of the durations. */
  lemma ShareRatio(d: map<Id, real>, x: Id, y: Id)
    requires Total(d) > 0.0 && x in d && y in d
    ensures Mul(Share(d, x), d[y]) == Mul(Share(d, y), d[x])
  {
    hide Total, Sum;
    var t := Total(d);
    Percent(d[x], t);
    Percent(d[y], t);
    Swap(100.0 / t, d[x], d[y]);
  }

  lemma Swap(c: real, a: real, b: real)
    ensures Mul(Mul(c, a), b) == Mul(Mul(c, b), a)
  {
    assert c * a * b == c * b * a;
  }

  /** A test with all of the time has all of the share. */
  lemma WholeShare(d: map<Id, real>, x: Id)
    requires Total(d) > 0.0 && x in d
    ensures Share(d, x) == 100.0 <==> d[x] == Total(d)
  {
    hide Total, Sum;
    Percent(d[x], Total(d));
    assert 100.0 * d[x] / Total(d) * Total(d) == 100.0 * d[x];
  }

  lemma {:induction false} SumConstant(f: map<Id, real>, s: set<Id>, c: real)
    requires s <= f.Keys && forall x :: x in s ==> f[x] == c
    ensures Sum(f, s) == Mul(|s| as real, c)
    decreases |s|
  {
    hide Mul;
    if s != {} {
      var x :| x in s;
      SumRemove(f, s, x);
      SumConstant(f, s - {x}, c);
      OneTimesMore(|s - {x}|, c);
    } else {
      Distribute(c, 0.0, 0.0);
      NoneTimes(c);
    }
  }

  lemma OneTimesMore(n: nat, c: real)
    ensures Mul((n + 1) as real, c) == c + Mul(n as real, c)
  {
  }

  lemma NoneTimes(c: real)
    ensures Mul(0 as real, c) == 0.0
  {
  }

  lemma {:induction false} SumUnion(f: map<Id, real>, s: set<Id>, t: set<Id>)
    requires s <= f.Keys && t <= f.Keys && s !! t
    ensures Sum(f, s + t) == Sum(f, s) + Sum(f, t)
    decreases |s|
  {
    if s != {} {
      var x :| x in s;
      SumRemove(f, s, x);
      SumRemove(f, s + t, x);
      assert s + t - {x} == (s - {x}) + t;
      SumUnion(f, s - {x}, t);
    } else {
      assert s + t == t;
    }
  }
}
