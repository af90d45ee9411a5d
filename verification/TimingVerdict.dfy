/** The comparison as it is computed: shares, sorted movers, weight and verdict. */
module TimingVerdict {
  import opened Options
  import opened Shares
  import opened TimingCompare

  /** Adds up a file's durations, one test at a time. */
  method TotalOf(d: map<Id, real>) returns (t: real)
    ensures t == Total(d)
  {
    t := 0.0;
    var rest := d.Keys;
    while rest != {}
      invariant rest <= d.Keys && t + Sum(d, rest) == Total(d)
      decreases |rest|
    {
      var x :| x in rest;
      SumRemove(d, rest, x);
      t, rest := t + d[x], rest - {x};
    }
  }

  /** The shares of a file's tests, and no others. */
  ghost predicate Tells(m: map<Id, real>, d: map<Id, real>) {
    Total(d) > 0.0 && m.Keys == d.Keys && forall x :: x in d ==> m[x] == Share(d, x)
  }

  method SharesOf(d: map<Id, real>) returns (r: Option<map<Id, real>>)
    ensures r.None? <==> Total(d) <= 0.0
    ensures r.Some? ==> Tells(r.value, d)
  {
    var total := TotalOf(d);
    if total <= 0.0 {
      return None;
    }
    return Some(map x | x in d :: 100.0 * d[x] / total);
  }

  predicate LexLE(a: string, b: string) {
    a == "" || (b != "" && (a[0] < b[0] || (a[0] == b[0] && LexLE(a[1..], b[1..]))))
  }

  lemma {:induction false} LexTotal(a: string, b: string)
    ensures LexLE(a, b) || LexLE(b, a)
  {
    if a != "" && b != "" && a[0] == b[0] {
      LexTotal(a[1..], b[1..]);
    }
  }

  lemma {:induction false} LexTrans(a: string, b: string, c: string)
    requires LexLE(a, b) && LexLE(b, c)
    ensures LexLE(a, c)
  {
    if a != "" && a[0] == b[0] == c[0] {
      LexTrans(a[1..], b[1..], c[1..]);
    }
  }

  type Row = (real, Id)

  /** Larger moves first; equal ones by name. */
  predicate RowLE(r: Row, q: Row) {
    Abs(r.0) > Abs(q.0) || (Abs(r.0) == Abs(q.0) && LexLE(r.1.name, q.1.name))
  }

  lemma RowTotal(r: Row, q: Row)
    ensures RowLE(r, q) || RowLE(q, r)
  {
    LexTotal(r.1.name, q.1.name);
  }

  lemma RowTrans(r: Row, q: Row, p: Row)
    requires RowLE(r, q) && RowLE(q, p)
    ensures RowLE(r, p)
  {
    if Abs(r.0) == Abs(q.0) == Abs(p.0) {
      LexTrans(r.1.name, q.1.name, p.1.name);
    }
  }

  predicate Ordered(rows: seq<Row>) {
    forall i, j :: 0 <= i < j < |rows| ==> RowLE(rows[i], rows[j])
  }

  function RowSum(rows: seq<Row>): real {
    if rows == [] then 0.0 else RowSum(rows[..|rows| - 1]) + Abs(rows[|rows| - 1].0)
  }

  lemma {:induction false} RowSumJoin(a: seq<Row>, b: seq<Row>)
    ensures RowSum(a + b) == RowSum(a) + RowSum(b)
  {
    if b == [] {
      assert a + b == a;
    } else {
      RowSumJoin(a, b[..|b| - 1]);
      assert (a + b)[..|a + b| - 1] == a + b[..|b| - 1];
    }
  }

  lemma RowSumOne(r: Row)
    ensures RowSum([r]) == Abs(r.0)
  {
    assert [r][..0] == [];
  }

  /** Puts a row in its place. */
  method Insert(rows: seq<Row>, row: Row) returns (r: seq<Row>)
    requires Ordered(rows)
    ensures Ordered(r) && multiset(r) == multiset(rows) + multiset{row} && RowSum(r) == RowSum(rows) + Abs(row.0)
  {
    hide RowLE, RowSum, Abs;
    var i := |rows|;
    while i > 0 && !RowLE(rows[i - 1], row)
      invariant 0 <= i <= |rows|
      invariant forall k :: i <= k < |rows| ==> RowLE(row, rows[k])
    {
      RowTotal(rows[i - 1], row);
      i := i - 1;
    }
    forall k | 0 <= k < i
      ensures RowLE(rows[k], row)
    {
      if k < i - 1 {
        RowTrans(rows[k], rows[i - 1], row);
      }
    }
    r := rows[..i] + [row] + rows[i..];
    InsertedSum(rows, i, row);
    InsertedOrder(rows, i, row);
  }

  lemma InsertedSum(rows: seq<Row>, i: nat, row: Row)
    requires i <= |rows|
    ensures RowSum(rows[..i] + [row] + rows[i..]) == RowSum(rows) + Abs(row.0)
    ensures multiset(rows[..i] + [row] + rows[i..]) == multiset(rows) + multiset{row}
  {
    hide RowSum, Abs;
    var a, b := rows[..i], rows[i..];
    assert rows == a + b;
    RowSumJoin(a, b);
    RowSumJoin(a + [row], b);
    RowSumJoin(a, [row]);
    RowSumOne(row);
  }

  lemma InsertedOrder(rows: seq<Row>, i: nat, row: Row)
    requires i <= |rows| && Ordered(rows)
    requires (forall k :: 0 <= k < i ==> RowLE(rows[k], row)) && (forall k :: i <= k < |rows| ==> RowLE(row, rows[k]))
    ensures Ordered(rows[..i] + [row] + rows[i..])
  {
    hide RowLE;
  }

  /** Python's sort of a list of rows. */
  method Sort(rows: seq<Row>) returns (r: seq<Row>)
    ensures Ordered(r) && multiset(r) == multiset(rows) && RowSum(r) == RowSum(rows)
  {
    r := [];
    for k := 0 to |rows|
      invariant Ordered(r) && multiset(r) == multiset(rows[..k]) && RowSum(r) == RowSum(rows[..k])
    {
      assert rows[..k + 1] == rows[..k] + [rows[k]];
      assert rows[..k + 1][..k] == rows[..k];
      r := Insert(r, rows[k]);
    }
    assert rows[..|rows|] == rows;
  }

  datatype Result = Result(material: bool, movers: seq<Row>, weight: real)

  function Get(m: map<Id, real>, x: Id): real {
    if x in m then m[x] else 0.0
  }

  lemma RowTells(a: map<Id, real>, b: map<Id, real>, sa: map<Id, real>, sb: map<Id, real>, x: Id)
    requires Tells(sa, a) && Tells(sb, b)
    ensures Get(sb, x) - Get(sa, x) == Delta(a, b, x)
  {
    hide Total;
  }

  /** Every test once, with its change of share. */
  ghost predicate Lists(rows: seq<Row>, a: map<Id, real>, b: map<Id, real>, ids: set<Id>) {
    && |rows| == |ids|
    && (forall row :: row in multiset(rows) ==> row.1 in ids && row.0 == Delta(a, b, row.1))
    && (forall x :: x in ids ==> (Delta(a, b, x), x) in multiset(rows))
  }

  method ListMovers(committed: map<Id, real>, measured: map<Id, real>, oldShare: map<Id, real>, newShare: map<Id,
                    real>) returns (rows: seq<Row>)
    requires Tells(oldShare, committed) && Tells(newShare, measured)
    ensures Lists(rows, committed, measured, committed.Keys + measured.Keys)
    ensures RowSum(rows) == 2.0 * Weight(committed, measured)
  {
    hide Total, RowSum, SoFar, Weight, Lists, Get, Tells, Delta;
    ghost var ids := committed.Keys + measured.Keys;
    var rest := committed.Keys + measured.Keys;
    rows := [];
    Start(committed, measured, ids);
    while rest != {}
      invariant SoFar(rows, committed, measured, ids, rest)
      decreases |rest|
    {
      var x :| x in rest;
      var row := (Get(newShare, x) - Get(oldShare, x), x);
      RowTells(committed, measured, oldShare, newShare, x);
      OneMore(rows, committed, measured, ids, rest, row);
      rows, rest := rows + [row], rest - {x};
    }
    Done(rows, committed, measured, ids);
  }

  /** The rows of the tests outside rest. */
  ghost predicate SoFar(rows: seq<Row>, a: map<Id, real>, b: map<Id, real>, ids: set<Id>, rest: set<Id>) {
    && rest <= ids && |rows| + |rest| == |ids|
    && (forall row :: row in multiset(rows) ==> row.1 in ids && row.0 == Delta(a, b, row.1))
    && (forall x :: x in ids && x !in rest ==> (Delta(a, b, x), x) in multiset(rows))
    && RowSum(rows) + Sum(Moves(a, b, ids), rest) == Sum(Moves(a, b, ids), ids)
  }

  lemma Start(a: map<Id, real>, b: map<Id, real>, ids: set<Id>)
    ensures SoFar([], a, b, ids, ids)
  {
    hide Total, Sum, Share;
  }

  lemma OneMore(rows: seq<Row>, a: map<Id, real>, b: map<Id, real>, ids: set<Id>, rest: set<Id>, row: Row)
    requires SoFar(rows, a, b, ids, rest) && row.1 in rest && row.0 == Delta(a, b, row.1)
    ensures SoFar(rows + [row], a, b, ids, rest - {row.1})
  {
    hide Total, Sum, Share, RowSum, Delta;
    var x := row.1;
    SumRemove(Moves(a, b, ids), rest, x);
    RowSumJoin(rows, [row]);
    RowSumOne(row);
    assert multiset(rows + [row]) == multiset(rows) + multiset{row};
  }

  lemma Done(rows: seq<Row>, a: map<Id, real>, b: map<Id, real>, ids: set<Id>)
    requires ids == a.Keys + b.Keys && SoFar(rows, a, b, ids, {})
    ensures Lists(rows, a, b, ids) && RowSum(rows) == 2.0 * Weight(a, b)
  {
    hide Total, Share, RowSum, Delta;
    NoMoves(Moves(a, b, ids), {});
  }

  /** Compares two timing files; None if either has no time in it. */
  method Compare(committed: map<Id, real>, measured: map<Id, real>) returns (r: Option<Result>)
    ensures r.None? <==> Total(committed) <= 0.0 || Total(measured) <= 0.0
    ensures r.Some? ==>
              && (r.value.material <==> Material(committed, measured)) && r.value.weight == Weight(committed, measured)
              && Ordered(r.value.movers) && Lists(r.value.movers, committed, measured, committed.Keys + measured.Keys)
  {
    hide Total, Share, Weight, Lists, Ordered, Tells, RowSum, Delta;
    var oldShare := SharesOf(committed);
    var newShare := SharesOf(measured);
    if oldShare.None? || newShare.None? {
      return None;
    }
    var rows := ListMovers(committed, measured, oldShare.value, newShare.value);
    var movers := Sort(rows);
    SortedLists(rows, movers, committed, measured, committed.Keys + measured.Keys);
    var weight := RowSum(movers) / 2.0;
    var biggest := if movers != [] then Abs(movers[0].0) else 0.0;
    BiggestFirst(movers, committed, measured, committed.Keys + measured.Keys);
    return Some(Result(biggest >= SINGLE_TEST || weight >= TOTAL_VARIATION, movers, weight));
  }

  lemma SortedLists(rows: seq<Row>, sorted: seq<Row>, a: map<Id, real>, b: map<Id, real>, ids: set<Id>)
    requires Lists(rows, a, b, ids) && multiset(sorted) == multiset(rows)
    ensures Lists(sorted, a, b, ids)
  {
    hide Total, Share;
    assert |sorted| == |multiset(sorted)| == |multiset(rows)| == |rows|;
  }

  /** The first row has the largest move. */
  lemma BiggestFirst(rows: seq<Row>, a: map<Id, real>, b: map<Id, real>, ids: set<Id>)
    requires Lists(rows, a, b, ids) && Ordered(rows)
    ensures (rows != [] && Abs(rows[0].0) >= SINGLE_TEST) <==>
              exists x :: x in ids && Abs(Delta(a, b, x)) >= SINGLE_TEST
  {
    hide Total, Share;
    if rows != [] && Abs(rows[0].0) >= SINGLE_TEST {
      assert rows[0] in multiset(rows);
    }
    forall x | x in ids
      ensures rows != [] && Abs(Delta(a, b, x)) <= Abs(rows[0].0)
    {
      assert (Delta(a, b, x), x) in multiset(rows);
      var k :| 0 <= k < |rows| && rows[k] == (Delta(a, b, x), x);
    }
  }

  /** Names are ordered as in a dictionary, and a larger move comes first whatever the names. */
  lemma OrderOfRows(x: real, y: real)
    ensures LexLE("a", "b") && !LexLE("b", "a") && LexLE("a", "ab") && !LexLE("ab", "a") && LexLE("ab", "b")
    ensures x > y >= 0.0 ==> RowLE((x, Id("b")), (y, Id("a"))) && !RowLE((y, Id("a")), (x, Id("b")))
    ensures RowLE((x, Id("a")), (-x, Id("b"))) && !RowLE((-x, Id("b")), (x, Id("a")))
  {
    assert "ab"[1..] == "b" && "a"[1..] == "";
  }
}
