/** The distance between two timing files, and when it is material. */
module TimingCompare {
  import opened Options
  import opened Shares

  const SINGLE_TEST: real := 2.0
  const TOTAL_VARIATION: real := 10.0

  function Abs(x: real): real {
    if x < 0.0 then -x else x
  }

  ghost function Delta(a: map<Id, real>, b: map<Id, real>, x: Id): real {
    Share(b, x) - Share(a, x)
  }

  ghost function Deltas(a: map<Id, real>, b: map<Id, real>, ids: set<Id>): (m: map<Id, real>)
    ensures m.Keys == ids && forall x :: x in ids ==> m[x] == Delta(a, b, x)
  {
    map x | x in ids :: Delta(a, b, x)
  }

  ghost function Moves(a: map<Id, real>, b: map<Id, real>, ids: set<Id>): (m: map<Id, real>)
    ensures m.Keys == ids && forall x :: x in ids ==> m[x] == Abs(Delta(a, b, x))
  {
    map x | x in ids :: Abs(Delta(a, b, x))
  }

  /** Half the sum of all moves: the weight that changed place. */
  ghost function Weight(a: map<Id, real>, b: map<Id, real>): real {
    var ids := a.Keys + b.Keys;
    Sum(Moves(a, b, ids), ids) / 2.0
  }

  ghost predicate Material(a: map<Id, real>, b: map<Id, real>) {
    (exists x :: x in a.Keys + b.Keys && Abs(Delta(a, b, x)) >= SINGLE_TEST) || Weight(a, b) >= TOTAL_VARIATION
  }

  /** The weight over a larger set of tests is the same: others do not move. */
  lemma WeightOver(a: map<Id, real>, b: map<Id, real>, ids: set<Id>)
    requires Total(a) > 0.0 && Total(b) > 0.0 && a.Keys + b.Keys <= ids
    ensures Sum(Moves(a, b, ids), ids) == 2.0 * Weight(a, b)
  {
    hide Sum, Total;
    var own := a.Keys + b.Keys;
    SumWithoutZeros(Moves(a, b, ids), own, ids);
    SumSame(Moves(a, b, ids), Moves(a, b, own), own);
  }

  /** What some tests gain others lose. */
  lemma DeltasSumToZero(a: map<Id, real>, b: map<Id, real>, ids: set<Id>)
    requires Total(a) > 0.0 && Total(b) > 0.0 && a.Keys + b.Keys <= ids
    ensures Sum(Deltas(a, b, ids), ids) == 0.0
  {
    hide Sum, Total, Share;
    SharesSum(a, ids);
    SharesSum(b, ids);
    SumAdd(Deltas(a, b, ids), ShareMap(a, ids), ShareMap(b, ids), ids);
  }

  /** The weight moved is between nothing and everything. */
  lemma WeightInRange(a: map<Id, real>, b: map<Id, real>)
    requires Measured(a) && Measured(b)
    ensures 0.0 <= Weight(a, b) <= 100.0
  {
    hide Sum, Total;
    var ids := a.Keys + b.Keys;
    var moves, sa, sb := Moves(a, b, ids), ShareMap(a, ids), ShareMap(b, ids);
    SumNonNegative(moves, ids);
    SharesSum(a, ids);
    SharesSum(b, ids);
    var both := map x | x in ids :: Share(a, x) + Share(b, x);
    SumAdd(sa, sb, both, ids);
    forall x | x in ids
      ensures moves[x] <= both[x]
    {
      ShareNonNegative(a, x);
      ShareNonNegative(b, x);
    }
    SumAtMost(moves, both, ids);
  }

  lemma ShareNonNegative(d: map<Id, real>, x: Id)
    requires Measured(d)
    ensures Share(d, x) >= 0.0
  {
    if x in d {
      Percent(d[x], Total(d));
    }
  }

  /** No single test moves more than the weight moved in all. */
  lemma MoveWithinWeight(a: map<Id, real>, b: map<Id, real>, x: Id)
    requires Total(a) > 0.0 && Total(b) > 0.0
    ensures Abs(Delta(a, b, x)) <= Weight(a, b)
  {
    hide Sum, Total, Share;
    var ids := a.Keys + b.Keys + {x};
    var rest := ids - {x};
    var deltas, moves := Deltas(a, b, ids), Moves(a, b, ids);
    DeltasSumToZero(a, b, ids);
    WeightOver(a, b, ids);
    SumRemove(deltas, ids, x);
    SumRemove(moves, ids, x);
    SumAtMost(deltas, moves, rest);
    var negated := map y | y in ids :: Mul(-1.0, deltas[y]);
    SumScale(deltas, negated, -1.0, rest);
    SumAtMost(negated, moves, rest);
  }

  /** A change by way of a third file moves at least as much. */
  lemma Triangle(a: map<Id, real>, b: map<Id, real>, c: map<Id, real>)
    requires Total(a) > 0.0 && Total(b) > 0.0 && Total(c) > 0.0
    ensures Weight(a, c) <= Weight(a, b) + Weight(b, c)
  {
    hide Sum, Total, Share, Weight;
    var ids := a.Keys + b.Keys + c.Keys;
    WeightOver(a, c, ids);
    WeightOver(a, b, ids);
    WeightOver(b, c, ids);
    var first, second := Moves(a, b, ids), Moves(b, c, ids);
    var both := map x | x in ids :: first[x] + second[x];
    SumAdd(first, second, both, ids);
    SumAtMost(Moves(a, c, ids), both, ids);
  }

  /** Swapping the files changes neither the weight nor the verdict. */
  lemma Symmetric(a: map<Id, real>, b: map<Id, real>)
    requires Total(a) > 0.0 && Total(b) > 0.0
    ensures Weight(a, b) == Weight(b, a) && (Material(a, b) <==> Material(b, a))
  {
    hide Sum, Total, Share;
    var ids := a.Keys + b.Keys;
    assert ids == b.Keys + a.Keys;
    SumSame(Moves(a, b, ids), Moves(b, a, ids), ids);
    assert forall x :: Abs(Delta(a, b, x)) == Abs(Delta(b, a, x));
  }

  predicate ScaledBy(d: map<Id, real>, e: map<Id, real>, c: real) {
    c > 0.0 && e.Keys == d.Keys && forall x :: x in d ==> e[x] == Mul(c, d[x])
  }

  /** A run that was uniformly slower or faster, on either side, gives the same verdict. */
  lemma ScaleInvariant(a: map<Id, real>, b: map<Id, real>, a': map<Id, real>, b': map<Id, real>, c: real, d: real)
    requires Total(a) > 0.0 && Total(b) > 0.0 && ScaledBy(a, a', c) && ScaledBy(b, b', d)
    ensures Total(a') > 0.0 && Total(b') > 0.0
    ensures Weight(a', b') == Weight(a, b) && (Material(a', b') <==> Material(a, b))
  {
    hide Sum, Total, Share;
    var ids := a.Keys + b.Keys;
    ScaleFree(a, a', c, Id(""));
    ScaleFree(b, b', d, Id(""));
    forall x
      ensures Delta(a', b', x) == Delta(a, b, x)
    {
      ScaleFree(a, a', c, x);
      ScaleFree(b, b', d, x);
    }
    SumSame(Moves(a', b', ids), Moves(a, b, ids), ids);
  }

  /** Nothing moved exactly when every test kept its share. */
  lemma NoWeight(a: map<Id, real>, b: map<Id, real>)
    requires Total(a) > 0.0 && Total(b) > 0.0
    ensures Weight(a, b) == 0.0 <==> forall x :: Share(a, x) == Share(b, x)
  {
    hide Sum, Total, Share;
    var ids := a.Keys + b.Keys;
    if Weight(a, b) == 0.0 {
      forall x
        ensures Share(a, x) == Share(b, x)
      {
        MoveWithinWeight(a, b, x);
      }
    } else if forall x :: Share(a, x) == Share(b, x) {
      NoMoves(Moves(a, b, ids), ids);
    }
  }

  lemma {:induction false} NoMoves(f: map<Id, real>, s: set<Id>)
    requires s <= f.Keys && forall x :: x in s ==> f[x] == 0.0
    ensures Sum(f, s) == 0.0
  {
    SumWithoutZeros(f, {}, s);
  }

  // ----- what the weight means -----

  /** What a set of tests has gained in share. */
  ghost function Gain(a: map<Id, real>, b: map<Id, real>, s: set<Id>): real {
    Sum(Deltas(a, b, s), s)
  }

  lemma GainWithin(a: map<Id, real>, b: map<Id, real>, s: set<Id>, ids: set<Id>)
    requires s <= ids
    ensures Gain(a, b, s) == Sum(Deltas(a, b, ids), s)
  {
    hide Sum, Delta;
    SumSame(Deltas(a, b, s), Deltas(a, b, ids), s);
  }

  /** The tests whose share has grown. */
  ghost function Gainers(a: map<Id, real>, b: map<Id, real>): set<Id> {
    set x | x in a.Keys + b.Keys && Delta(a, b, x) > 0.0
  }

  /** No set of tests gains more than the weight, and the gainers together gain just that. */
  lemma WeightIsLargestGain(a: map<Id, real>, b: map<Id, real>, s: set<Id>)
    requires Total(a) > 0.0 && Total(b) > 0.0
    ensures Gain(a, b, s) <= Weight(a, b) && Gain(a, b, Gainers(a, b)) == Weight(a, b)
  {
    hide Sum, Total, Share, Weight;
    var ids := a.Keys + b.Keys + s;
    var deltas, moves, up := Deltas(a, b, ids), Moves(a, b, ids), Gainers(a, b);
    DeltasSumToZero(a, b, ids);
    WeightOver(a, b, ids);
    GainHalves(deltas, moves, ids, s);
    GainHalves(deltas, moves, ids, up);
    GainWithin(a, b, s, ids);
    GainWithin(a, b, up, ids);
    GainersTake(a, b, ids);
  }

  /** A set's gain is at most half of all moves: what it gains the others lose. */
  lemma GainHalves(deltas: map<Id, real>, moves: map<Id, real>, ids: set<Id>, s: set<Id>)
    requires s <= ids && deltas.Keys == ids && moves.Keys == ids && Sum(deltas, ids) == 0.0
    requires forall x :: x in ids ==> moves[x] == Abs(deltas[x])
    ensures Sum(deltas, s) <= Sum(moves, ids) / 2.0
  {
    hide Sum;
    var rest := ids - s;
    assert s + rest == ids;
    SumUnion(deltas, s, rest);
    SumUnion(moves, s, rest);
    SumAtMost(deltas, moves, s);
    var negated := map x | x in ids :: Mul(-1.0, deltas[x]);
    SumScale(deltas, negated, -1.0, rest);
    SumAtMost(negated, moves, rest);
  }

  /** The gainers move by what they gain, the others by what they lose. */
  lemma GainersTake(a: map<Id, real>, b: map<Id, real>, ids: set<Id>)
    requires Total(a) > 0.0 && Total(b) > 0.0 && a.Keys + b.Keys <= ids
    ensures Gain(a, b, Gainers(a, b)) == Weight(a, b)
  {
    hide Sum, Total, Weight;
    var deltas, moves, up := Deltas(a, b, ids), Moves(a, b, ids), Gainers(a, b);
    var rest := ids - up;
    DeltasSumToZero(a, b, ids);
    WeightOver(a, b, ids);
    GainWithin(a, b, up, ids);
    assert up + rest == ids;
    SumUnion(deltas, up, rest);
    SumUnion(moves, up, rest);
    SumSame(deltas, moves, up);
    var negated := map x | x in ids :: Mul(-1.0, deltas[x]);
    SumScale(deltas, negated, -1.0, rest);
    SumSame(negated, moves, rest);
  }

  // ----- the thresholds -----

  /** 2n tests of one second each, half of which become slower and half faster by e. */
  ghost predicate EvenShift(a: map<Id, real>, b: map<Id, real>, up: set<Id>, down: set<Id>, e: real) {
    && up !! down && |up| == |down| > 0 && a.Keys == b.Keys == up + down && 0.0 <= e <= 1.0
    && (forall x :: x in a ==> a[x] == 1.0)
    && (forall x :: x in b ==> b[x] == if x in up then 1.0 + e else 1.0 - e)
  }

  lemma ShiftTotals(a: map<Id, real>, b: map<Id, real>, up: set<Id>, down: set<Id>, e: real)
    requires EvenShift(a, b, up, down, e)
    ensures Total(a) == Total(b) == 2.0 * (|up| as real) > 0.0
  {
    hide Sum;
    SumUnion(a, up, down);
    SumUnion(b, up, down);
    SumConstant(a, up, 1.0);
    SumConstant(a, down, 1.0);
    SumConstant(b, up, 1.0 + e);
    SumConstant(b, down, 1.0 - e);
    var n := |up| as real;
    assert n * (1.0 + e) + n * (1.0 - e) == 2.0 * n;
  }

  /** Each test moves by 50 e / n points. */
  lemma ShiftDelta(a: map<Id, real>, b: map<Id, real>, up: set<Id>, down: set<Id>, e: real, x: Id)
    requires EvenShift(a, b, up, down, e) && x in a
    ensures Abs(Delta(a, b, x)) == 50.0 * e / (|up| as real)
  {
    hide Sum, Total;
    ShiftTotals(a, b, up, down, e);
    var n := |up| as real;
    ShiftedShare(n, 1.0, e);
  }

  lemma ShiftedShare(n: real, one: real, e: real)
    requires n > 0.0 && one == 1.0 && 0.0 <= e
    ensures 100.0 * (one + e) / (2.0 * n) - 100.0 * one / (2.0 * n) == 50.0 * e / n
    ensures 100.0 * (one - e) / (2.0 * n) - 100.0 * one / (2.0 * n) == -(50.0 * e / n)
    ensures 50.0 * e / n >= 0.0
  {
    var p, q, r, s := 100.0 * (one + e) / (2.0 * n), 100.0 * (one - e) / (2.0 * n), 100.0 * one / (2.0 * n),
      50.0 * e / n;
    assert p * (2.0 * n) == 100.0 * (one + e) && q * (2.0 * n) == 100.0 * (one - e) && r * (2.0 * n) == 100.0;
    assert s * n == 50.0 * e;
    SameFactor(p - r, s, n);
    SameFactor(q - r, -s, n);
    assert s < 0.0 ==> s * n < 0.0;
  }

  lemma SameFactor(u: real, v: real, n: real)
    requires n > 0.0 && u * (2.0 * n) == 2.0 * (v * n)
    ensures u == v
  {
    assert (u - v) * (2.0 * n) == 0.0;
  }

  /** The verdict on such a pair: material from 2 points for one test, or from 10 points in all. */
  lemma Thresholds(a: map<Id, real>, b: map<Id, real>, up: set<Id>, down: set<Id>, e: real)
    requires EvenShift(a, b, up, down, e)
    ensures Weight(a, b) == 50.0 * e
    ensures Material(a, b) <==> 50.0 * e >= 2.0 * (|up| as real) || 50.0 * e >= 10.0
  {
    hide Sum, Total, Delta;
    var ids := a.Keys + b.Keys;
    var n := |up| as real;
    forall x | x in ids
      ensures Abs(Delta(a, b, x)) == 50.0 * e / n
    {
      ShiftDelta(a, b, up, down, e, x);
    }
    SumConstant(Moves(a, b, ids), ids, 50.0 * e / n);
    assert ids == up + down && |ids| == 2 * |up|;
    AllMoves(n, e);
    AtLeastTwo(n, e);
    var x :| x in up;
    assert x in ids;
  }

  lemma AllMoves(n: real, e: real)
    requires n > 0.0
    ensures Mul(2.0 * n, 50.0 * e / n) / 2.0 == 50.0 * e
  {
    assert 50.0 * e / n * n == 50.0 * e;
    assert 2.0 * n * (50.0 * e / n) == 2.0 * (50.0 * e / n * n);
  }

  lemma AtLeastTwo(n: real, e: real)
    requires n > 0.0
    ensures 50.0 * e / n >= 2.0 <==> 50.0 * e >= 2.0 * n
  {
    var s := 50.0 * e / n;
    assert s * n == 50.0 * e;
    if s >= 2.0 {
      assert (s - 2.0) * n >= 0.0;
    } else {
      assert (2.0 - s) * n > 0.0;
    }
  }
}
