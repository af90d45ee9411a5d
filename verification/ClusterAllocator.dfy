/** First-fit allocation of consecutive clusters in staged 16-bit refcount blocks. */
module ClusterAllocator {
  import opened Bytes
  import opened Options

  datatype Error = Unsupported | InvalidConfig | ParseFailed | MisalignedAccess | RefcountExhausted

  datatype Result = Ok(offset: nat) | Err(error: Error)

  /** The staged blocks: one cluster each, covering consecutive cluster indices from base on. */
  datatype Pool = Pool(clusterSize: nat, blocks: nat, base: nat)
  {
    function Per(): nat { clusterSize * 8 / 16 }

    function Total(): nat { Times(blocks, Per()) }
  }

  class Cursor {
    var refblock: nat
    var entry: nat
    var given: nat

    constructor ()
      ensures refblock == 0 && entry == 0 && given == 0
    {
      refblock, entry, given := 0, 0, 0;
    }

    function Index(p: Pool): nat
      reads this
    {
      Times(refblock, p.Per()) + entry
    }
  }

  /** Where the count of cluster c is kept. */
  function At(p: Pool, c: nat): nat
    requires p.Per() > 0
  {
    Times(c / p.Per(), p.clusterSize) + 2 * (c % p.Per())
  }

  /** The whole block of cluster c is in a buffer of the given length. */
  predicate Staged(len: nat, p: Pool, c: nat)
    requires p.Per() > 0
  {
    Times(c / p.Per(), p.clusterSize) + p.clusterSize <= len
  }

  lemma Inside(len: nat, p: Pool, c: nat)
    requires p.Per() > 0 && Staged(len, p, c)
    ensures At(p, c) + 2 <= len
  {
    hide Times;
  }

  function Count(b: seq<byte>, p: Pool, c: nat): nat
    requires p.Per() > 0 && Staged(|b|, p, c)
  {
    Inside(|b|, p, c);
    GetBE(b, At(p, c), 2)
  }

  lemma StagedBefore(len: nat, p: Pool, c: nat, d: nat)
    requires p.Per() > 0 && Staged(len, p, c) && d <= c
    ensures Staged(len, p, d)
  {
    hide Times;
    DivMono(d, c, p.Per());
    TimesMono(d / p.Per(), c / p.Per(), p.clusterSize);
  }

  lemma CountsApart(p: Pool, c: nat, d: nat)
    requires p.Per() > 0 && c < d
    ensures At(p, c) + 2 <= At(p, d)
  {
    hide Times;
    var per := p.Per();
    WholeAndRest(c, per);
    WholeAndRest(d, per);
    DivMono(c, d, per);
    if c / per < d / per {
      TimesStep(c / per, p.clusterSize);
      TimesMono(c / per + 1, d / per, p.clusterSize);
    }
  }

  // ----- what the search is for -----

  /** Some cluster of the n from s on is in use. */
  ghost predicate Occupied(b: seq<byte>, p: Pool, s: nat, n: nat)
    requires p.Per() > 0
  {
    exists c :: s <= c < s + n && Staged(|b|, p, c) && Count(b, p, c) != 0
  }

  ghost predicate Free(b: seq<byte>, p: Pool, s: nat, n: nat)
    requires p.Per() > 0
  {
    forall c :: s <= c < s + n ==> Staged(|b|, p, c) && Count(b, p, c) == 0
  }

  /** The first place from which n clusters fit without meeting one in use. */
  ghost predicate FirstFit(b: seq<byte>, p: Pool, from: nat, n: nat, s: nat)
    requires p.Per() > 0
  {
    && from <= s && s + n <= p.Total() && !Occupied(b, p, s, n)
    && forall w :: from <= w < s ==> Occupied(b, p, w, n)
  }

  ghost predicate Full(b: seq<byte>, p: Pool, from: nat, n: nat)
    requires p.Per() > 0
  {
    forall w :: from <= w && w + n <= p.Total() ==> Occupied(b, p, w, n)
  }

  /** The blocks with the counts of the n clusters from s on set to one. */
  function Claimed(b: seq<byte>, p: Pool, s: nat, n: nat): (r: seq<byte>)
    requires p.Per() > 0 && forall c :: s <= c < s + n ==> Staged(|b|, p, c)
    ensures |r| == |b|
  {
    if n == 0 then b else
    assert Staged(|b|, p, s + n - 1);
    Inside(|b|, p, s + n - 1);
    Splice(Claimed(b, p, s, n - 1), At(p, s + n - 1), BE(2, 1))
  }

  lemma CountWritten(b: seq<byte>, p: Pool, c: nat, d: nat)
    requires p.Per() > 0 && Staged(|b|, p, c) && Staged(|b|, p, d)
    ensures At(p, c) + 2 <= |b|
    ensures Count(Splice(b, At(p, c), BE(2, 1)), p, d) == if d == c then 1 else Count(b, p, d)
  {
    hide Times, BE, FromBE, Staged, At;
    Inside(|b|, p, c);
    Inside(|b|, p, d);
    if d == c {
      WidthLimits();
      GetBEPut(b, At(p, c), 2, 1);
    } else {
      CountsApart(p, if c < d then c else d, if c < d then d else c);
      SpliceElsewhere(b, At(p, c), BE(2, 1), At(p, d), 2);
    }
  }

  /** Exactly the claimed counts change. */
  lemma {:induction false} ClaimedCount(b: seq<byte>, p: Pool, s: nat, n: nat, d: nat)
    requires p.Per() > 0 && Staged(|b|, p, d) && forall c :: s <= c < s + n ==> Staged(|b|, p, c)
    ensures Count(Claimed(b, p, s, n), p, d) == if s <= d < s + n then 1 else Count(b, p, d)
  {
    hide Count, Staged, At, Splice;
    if n > 0 {
      ClaimedCount(b, p, s, n - 1, d);
      CountWritten(Claimed(b, p, s, n - 1), p, s + n - 1, d);
    }
  }

  /** Bytes that hold none of the claimed counts are as they were. */
  lemma {:induction false} ClaimedElsewhere(b: seq<byte>, p: Pool, s: nat, n: nat, at: nat)
    requires p.Per() > 0 && at < |b|
    requires forall c :: s <= c < s + n ==> Staged(|b|, p, c) && !(At(p, c) <= at < At(p, c) + 2)
    ensures Claimed(b, p, s, n)[at] == b[at]
  {
    hide Staged, At, BE;
    if n > 0 {
      ClaimedElsewhere(b, p, s, n - 1, at);
      assert Staged(|b|, p, s + n - 1);
      Inside(|b|, p, s + n - 1);
    }
  }

  // ----- the search -----

  /** Checks that come before the search. */
  function Gate(p: Pool, bits: nat, n: nat, refblock: nat, entry: nat): Option<Error> {
    if bits != 16 then Some(Unsupported)
    else if p.clusterSize == 0 || n == 0 || p.Per() == 0 then Some(InvalidConfig)
    else if p.Total() >= U64 || Times(refblock, p.Per()) + entry >= U64 then Some(ParseFailed)
    else None
  }

  /** Counts the free clusters from start on, up to n of them. */
  method Probe(blocks: seq<byte>, p: Pool, start: nat, n: nat) returns (probe: nat, error: bool)
    requires p.Per() > 0
    ensures start <= probe <= start + n && Free(blocks, p, start, probe - start)
    ensures probe == start + n ==> !error
    ensures error <==> probe < start + n && !Staged(|blocks|, p, probe)
    ensures probe < start + n && !error ==> Count(blocks, p, probe) != 0
  {
    hide Staged, Count;
    probe := start;
    while probe < start + n
      invariant start <= probe <= start + n && Free(blocks, p, start, probe - start)
    {
      if !Staged(|blocks|, p, probe) {
        return probe, true;
      }
      if Count(blocks, p, probe) != 0 {
        return probe, false;
      }
      probe := probe + 1;
    }
    return probe, false;
  }

  method Claim(blocks: array<byte>, p: Pool, s: nat, n: nat)
    requires p.Per() > 0 && forall c :: s <= c < s + n ==> Staged(blocks.Length, p, c)
    modifies blocks
    ensures blocks[..] == Claimed(old(blocks[..]), p, s, n)
  {
    hide Staged, At, BE, Splice;
    ghost var b := blocks[..];
    for k := 0 to n
      invariant blocks[..] == Claimed(b, p, s, k)
    {
      assert Staged(blocks.Length, p, s + k);
      Inside(blocks.Length, p, s + k);
      Store(blocks, At(p, s + k), BE(2, 1));
    }
  }

  /** Every start up to a cluster in use has that cluster in its window. */
  lemma SkipIsSafe(b: seq<byte>, p: Pool, start: nat, n: nat, probe: nat)
    requires p.Per() > 0 && start <= probe < start + n && Staged(|b|, p, probe) && Count(b, p, probe) != 0
    ensures forall w :: start <= w <= probe ==> Occupied(b, p, w, n)
  {
    hide Staged, Count;
  }

  /** A window of free clusters followed by an unstaged one holds no cluster in use. */
  lemma UnstagedNotOccupied(b: seq<byte>, p: Pool, start: nat, n: nat, probe: nat)
    requires p.Per() > 0 && start <= probe < start + n && Free(b, p, start, probe - start) && !Staged(|b|, p, probe)
    ensures !Occupied(b, p, start, n) && !Free(b, p, start, n)
  {
    hide Staged, Count;
    forall c | probe <= c < start + n
      ensures !Staged(|b|, p, c)
    {
      if Staged(|b|, p, c) {
        StagedBefore(|b|, p, c, probe);
      }
    }
  }

  lemma FreeNotOccupied(b: seq<byte>, p: Pool, s: nat, n: nat)
    requires p.Per() > 0 && Free(b, p, s, n)
    ensures !Occupied(b, p, s, n)
  {
    hide Staged, Count;
  }

  /** What is granted: the first fit, if all of it is staged. */
  ghost predicate Granted(b: seq<byte>, p: Pool, from: nat, n: nat, s: nat)
    requires p.Per() > 0
  {
    FirstFit(b, p, from, n, s) && Free(b, p, s, n)
  }

  /** The state after clusters from s on were granted. */
  twostate predicate Taken(blocks: array<byte>, cursor: Cursor, p: Pool, n: nat, s: nat)
    requires p.Per() > 0
    reads blocks, cursor
  {
    && Free(old(blocks[..]), p, s, n) && blocks[..] == Claimed(old(blocks[..]), p, s, n)
    && cursor.refblock == (s + n) / p.Per() && cursor.entry == (s + n) % p.Per()
    && cursor.given == old(cursor.given) + n
  }

  twostate predicate Kept(blocks: array<byte>, cursor: Cursor)
    reads blocks, cursor
  {
    && blocks[..] == old(blocks[..])
    && cursor.refblock == old(cursor.refblock) && cursor.entry == old(cursor.entry) && cursor.given == old(cursor.given)
  }

  /** The answer for clusters from s on: their offset, if it fits 64 bits. */
  function AnswerFor(p: Pool, s: nat): Result {
    if Times(s, p.clusterSize) + p.base < U64 then Ok(Times(s, p.clusterSize) + p.base) else Err(ParseFailed)
  }

  /** c is the first cluster of the n from s on whose block is not staged. */
  ghost predicate Missing(len: nat, p: Pool, s: nat, n: nat, c: nat)
    requires p.Per() > 0
  {
    s <= c < s + n && !Staged(len, p, c) && forall d :: s <= d < c ==> Staged(len, p, d)
  }

  /** Reading a count that is not staged: the block's end is past the buffer, or past 64 bits. */
  function MissingError(p: Pool, c: nat): Error
    requires p.Per() > 0
  {
    if Times(c / p.Per(), p.clusterSize) + p.clusterSize < U64 then MisalignedAccess else ParseFailed
  }

  /** Nothing could be granted: no place is free, or the first fit is not staged. */
  ghost predicate Refused(b: seq<byte>, p: Pool, from: nat, n: nat, r: Result)
    requires p.Per() > 0
  {
    || (r == Err(RefcountExhausted) && Full(b, p, from, n))
    || (exists s, c :: FirstFit(b, p, from, n, s) && Missing(|b|, p, s, n, c) && r == Err(MissingError(p, c)))
  }

  /** Which answer is given is decided by the blocks alone. */
  lemma AnswerIsExact(b: seq<byte>, p: Pool, from: nat, n: nat, r: Result)
    requires p.Per() > 0 && (Refused(b, p, from, n, r) || exists s :: Granted(b, p, from, n, s) && r == AnswerFor(p, s))
    ensures r == Err(RefcountExhausted) <==> Full(b, p, from, n)
    ensures forall s, c :: FirstFit(b, p, from, n, s) && Missing(|b|, p, s, n, c) ==> r == Err(MissingError(p, c))
    ensures forall s :: Granted(b, p, from, n, s) ==> r == AnswerFor(p, s)
    ensures Refused(b, p, from, n, r) <==> !exists s :: Granted(b, p, from, n, s)
  {
    hide Occupied, Times, Staged, Count;
    forall s | FirstFit(b, p, from, n, s)
      ensures !Full(b, p, from, n) && forall t :: FirstFit(b, p, from, n, t) ==> t == s
    {
      Settled(b, p, from, n, s);
    }
    forall s, c, d | Missing(|b|, p, s, n, c) && Missing(|b|, p, s, n, d)
      ensures c == d && !Free(b, p, s, n)
    {
      OneMissing(b, p, s, n, c, d);
    }
  }

  lemma OneMissing(b: seq<byte>, p: Pool, s: nat, n: nat, c: nat, d: nat)
    requires p.Per() > 0 && Missing(|b|, p, s, n, c) && Missing(|b|, p, s, n, d)
    ensures c == d && !Free(b, p, s, n)
  {
    hide Staged, Count;
  }

  /** The allocator. An offset that does not fit 64 bits is noticed only after the clusters were claimed. */
  method Allocate(blocks: array<byte>, p: Pool, bits: nat, n: nat, cursor: Cursor) returns (r: Result)
    modifies blocks, cursor
    ensures var gate := Gate(p, bits, n, old(cursor.refblock), old(cursor.entry));
            gate.Some? ==> r == Err(gate.value) && Kept(blocks, cursor)
    ensures Gate(p, bits, n, old(cursor.refblock), old(cursor.entry)).None? ==>
              var b, from := old(blocks[..]), old(cursor.Index(p));
              || (Refused(b, p, from, n, r) && Kept(blocks, cursor))
              || exists s :: Granted(b, p, from, n, s) && r == AnswerFor(p, s) && Taken(blocks, cursor, p, n, s)
  {
    hide Staged, Count, Occupied, Free, Claimed, Times;
    if bits != 16 {
      return Err(Unsupported);
    }
    if p.clusterSize == 0 || n == 0 || p.Per() == 0 {
      return Err(InvalidConfig);
    }
    if p.Total() >= U64 || cursor.Index(p) >= U64 {
      return Err(ParseFailed);
    }
    ghost var b, from := blocks[..], cursor.Index(p);
    var start := cursor.Index(p);
    while start + n <= p.Total()
      invariant blocks[..] == b && from <= start && forall w :: from <= w < start ==> Occupied(b, p, w, n)
      invariant unchanged(cursor)
    {
      var probe, error := Probe(blocks[..], p, start, n);
      if error {
        UnstagedNotOccupied(b, p, start, n, probe);
        assert Missing(|b|, p, start, n, probe) by { FreeIsStaged(b, p, start, probe - start); }
        return Err(MissingError(p, probe));
      }
      if probe == start + n {
        FreeNotOccupied(b, p, start, n);
        assert forall c :: start <= c < start + n ==> Staged(blocks.Length, p, c) by { FreeIsStaged(b, p, start, n); }
        Claim(blocks, p, start, n);
        cursor.refblock := (start + n) / p.Per();
        cursor.entry := (start + n) % p.Per();
        cursor.given := cursor.given + n;
        assert Granted(b, p, from, n, start);
        if Times(start, p.clusterSize) + p.base >= U64 {
          return Err(ParseFailed);
        }
        return Ok(Times(start, p.clusterSize) + p.base);
      }
      SkipIsSafe(b, p, start, n, probe);
      start := probe + 1;
    }
    return Err(RefcountExhausted);
  }

  lemma FreeIsStaged(b: seq<byte>, p: Pool, s: nat, n: nat)
    requires p.Per() > 0 && Free(b, p, s, n)
    ensures forall c :: s <= c < s + n ==> Staged(|b|, p, c)
  {
  }

  /** There is at most one first fit, and none if every place is taken. */
  lemma Settled(b: seq<byte>, p: Pool, from: nat, n: nat, s: nat)
    requires p.Per() > 0 && FirstFit(b, p, from, n, s)
    ensures !Full(b, p, from, n) && forall t :: FirstFit(b, p, from, n, t) ==> t == s
  {
    hide Occupied;
  }

  /** Clusters can be claimed and the call still fail: exactly if the offset of the first fit does not fit 64 bits. */
  lemma ClaimedYetFailed(b: seq<byte>, p: Pool, from: nat, n: nat, r: Result)
    requires p.Per() > 0 && (Refused(b, p, from, n, r) || exists s :: Granted(b, p, from, n, s) && r == AnswerFor(p, s))
    ensures (r.Err? && !Refused(b, p, from, n, r)) <==>
              exists s :: Granted(b, p, from, n, s) && Times(s, p.clusterSize) + p.base >= U64
  {
    hide Occupied, Free, Times, Staged, Missing;
    AnswerIsExact(b, p, from, n, r);
  }

  /** An instance: two blocks of one entry each, the first in use, at the top of the address range. */
  lemma TopOfTheRange()
    ensures var b: seq<byte>, p := [0, 1, 0, 0], Pool(2, 2, U64 - 1);
            Granted(b, p, 0, 1, 1) && AnswerFor(p, 1) == Err(ParseFailed)
  {
    var b: seq<byte>, p := [0, 1, 0, 0], Pool(2, 2, U64 - 1);
    assert p.Per() == 1 && p.Total() == 2;
    assert Staged(4, p, 0) && At(p, 0) == 0 && Staged(4, p, 1) && At(p, 1) == 2;
    assert b[0..2] == [0, 1] && b[2..4] == [0, 0];
    assert FromBE([0, 1]) == 1 by { assert [0, 1][..1] == [0]; }
    assert FromBE([0, 0]) == 0 by { assert [0, 0][..1] == [0]; }
    assert Count(b, p, 0) == 1 && Count(b, p, 1) == 0;
  }

  // ----- runs of allocations -----

  /** Cluster c belongs to one of the ranges. */
  ghost predicate InRanges(starts: seq<nat>, sizes: seq<nat>, c: nat)
    requires |starts| <= |sizes|
  {
    exists j :: 0 <= j < |starts| && starts[j] <= c < starts[j] + sizes[j]
  }

  /** The ranges follow one another from a given index on. */
  ghost predicate InOrder(starts: seq<nat>, sizes: seq<nat>, from: nat, end: nat)
    requires |starts| <= |sizes|
  {
    && from <= end
    && (forall j :: 0 <= j < |starts| ==> from <= starts[j] && starts[j] + sizes[j] <= end)
    && (forall j, k :: 0 <= j < k < |starts| ==> starts[j] + sizes[j] <= starts[k])
  }

  /** The blocks hold one for every cluster of the ranges, and what they held before for every other. */
  ghost predicate Holding(b: seq<byte>, now: seq<byte>, p: Pool, starts: seq<nat>, sizes: seq<nat>)
    requires p.Per() > 0 && |starts| <= |sizes|
  {
    && |now| == |b|
    && forall c: nat :: Staged(|b|, p, c) ==>
       Count(now, p, c) == if InRanges(starts, sizes, c) then 1 else Count(b, p, c)
  }

  ghost predicate AllFree(b: seq<byte>, p: Pool, starts: seq<nat>, sizes: seq<nat>)
    requires p.Per() > 0 && |starts| <= |sizes|
  {
    forall j :: 0 <= j < |starts| ==> Free(b, p, starts[j], sizes[j])
  }

  function Sum(sizes: seq<nat>, n: nat): nat
    requires n <= |sizes|
  {
    if n == 0 then 0 else Sum(sizes, n - 1) + sizes[n - 1]
  }

  lemma OneRangeMore(b: seq<byte>, now: seq<byte>, p: Pool, starts: seq<nat>, sizes: seq<nat>, from: nat, end: nat,
                     s: nat)
    requires p.Per() > 0 && |starts| < |sizes| && Holding(b, now, p, starts, sizes) && InOrder(starts, sizes, from, end)
    requires end <= s && Free(now, p, s, sizes[|starts|]) && AllFree(b, p, starts, sizes)
    ensures forall c :: s <= c < s + sizes[|starts|] ==> Staged(|b|, p, c)
    ensures InOrder(starts + [s], sizes, from, s + sizes[|starts|])
    ensures Holding(b, Claimed(now, p, s, sizes[|starts|]), p, starts + [s], sizes)
    ensures AllFree(b, p, starts + [s], sizes)
  {
    hide Staged, Count, Claimed;
    var n, more := sizes[|starts|], starts + [s];
    assert forall j :: 0 <= j < |starts| ==> more[j] == starts[j];
    assert more[|starts|] == s;
    forall c: nat | Staged(|b|, p, c)
      ensures Count(Claimed(now, p, s, n), p, c) == if InRanges(more, sizes, c) then 1 else Count(b, p, c)
    {
      ClaimedCount(now, p, s, n, c);
      RangesGrow(starts, sizes, s, c);
    }
    forall c | s <= c < s + n
      ensures Staged(|b|, p, c) && Count(b, p, c) == 0
    {
      assert !InRanges(starts, sizes, c);
    }
  }

  lemma RangesGrow(starts: seq<nat>, sizes: seq<nat>, s: nat, c: nat)
    requires |starts| < |sizes|
    ensures InRanges(starts + [s], sizes, c) <==> InRanges(starts, sizes, c) || s <= c < s + sizes[|starts|]
  {
    var more := starts + [s];
    if InRanges(starts, sizes, c) {
      var j :| 0 <= j < |starts| && starts[j] <= c < starts[j] + sizes[j];
      assert more[j] == starts[j];
    }
    if s <= c < s + sizes[|starts|] {
      assert more[|starts|] == s;
    }
  }

  /** Repeated calls with one cursor never hand out a cluster twice, nor one that was in use. */
  method AllocateMany(blocks: array<byte>, p: Pool, sizes: seq<nat>, cursor: Cursor) returns (starts: seq<nat>)
    requires p.Per() > 0 && p.base + Times(p.Total(), p.clusterSize) < U64
    modifies blocks, cursor
    ensures |starts| <= |sizes| && InOrder(starts, sizes, old(cursor.Index(p)), cursor.Index(p))
    ensures AllFree(old(blocks[..]), p, starts, sizes) && Holding(old(blocks[..]), blocks[..], p, starts, sizes)
    ensures cursor.given == old(cursor.given) + Sum(sizes, |starts|)
  {
    hide Staged, Count, Claimed, Times, Full, FirstFit, Free, AllFree, Holding, InOrder, Occupied, Granted;
    ghost var b, from := blocks[..], cursor.Index(p);
    starts := [];
    NoRanges(b, p, sizes, from);
    for k := 0 to |sizes|
      invariant |starts| == k && InOrder(starts, sizes, from, cursor.Index(p))
      invariant AllFree(b, p, starts, sizes) && Holding(b, blocks[..], p, starts, sizes)
      invariant cursor.given == old(cursor.given) + Sum(sizes, k)
    {
      ghost var now, at := blocks[..], cursor.Index(p);
      var s := AllocateOne(blocks, p, sizes[k], cursor);
      if s.None? {
        assert cursor.Index(p) == at;
        return;
      }
      OneRangeMore(b, now, p, starts, sizes, from, at, s.value);
      WholeAndRest(s.value + sizes[k], p.Per());
      starts := starts + [s.value];
    }
  }

  /** One allocation in a pool whose offsets all fit 64 bits. */
  method AllocateOne(blocks: array<byte>, p: Pool, n: nat, cursor: Cursor) returns (s: Option<nat>)
    requires p.Per() > 0 && p.base + Times(p.Total(), p.clusterSize) < U64
    modifies blocks, cursor
    ensures s.None? ==> Kept(blocks, cursor)
    ensures s.Some? ==>
              && old(cursor.Index(p)) <= s.value && Free(old(blocks[..]), p, s.value, n)
              && Taken(blocks, cursor, p, n, s.value)
  {
    hide Staged, Count, Claimed, Times, Full, FirstFit, Free, Occupied, Granted, Missing, MissingError;
    ghost var now, at := blocks[..], cursor.Index(p);
    forall first | Granted(now, p, at, n, first)
      ensures Times(first, p.clusterSize) + p.base < U64
    {
      GrantFits(now, p, at, n, first);
    }
    var r := Allocate(blocks, p, 16, n, cursor);
    if r.Err? {
      return None;
    }
    ghost var first :| Granted(now, p, at, n, first) && r == AnswerFor(p, first) && Taken(blocks, cursor, p, n, first);
    GrantFits(now, p, at, n, first);
    QuotientIs(r.offset - p.base, first, p.clusterSize, 0);
    return Some((r.offset - p.base) / p.clusterSize);
  }

  /** If the whole pool has 64-bit offsets, so has every grant. */
  lemma GrantFits(b: seq<byte>, p: Pool, from: nat, n: nat, s: nat)
    requires p.Per() > 0 && p.base + Times(p.Total(), p.clusterSize) < U64 && Granted(b, p, from, n, s)
    ensures Times(s, p.clusterSize) + p.base < U64 && from <= s && Free(b, p, s, n)
  {
    hide Times, Occupied, Free;
    TimesMono(s, p.Total(), p.clusterSize);
  }

  lemma NoRanges(b: seq<byte>, p: Pool, sizes: seq<nat>, from: nat)
    requires p.Per() > 0
    ensures InOrder([], sizes, from, from) && AllFree(b, p, [], sizes) && Holding(b, b, p, [], sizes)
  {
  }

  // ----- the pool as one run of counts -----

  /** Staged one behind the other, the blocks are one long run of 16-bit counts, high byte first. */
  lemma CountIsField(b: seq<byte>, p: Pool, c: nat)
    requires p.Per() > 0 && p.clusterSize % 2 == 0 && Staged(|b|, p, c)
    ensures 2 * c + 2 <= |b| && Count(b, p, c) == 256 * (b[2 * c] as nat) + b[2 * c + 1]
  {
    hide Times, FromBE;
    Inside(|b|, p, c);
    WholeAndRest(c, p.Per());
    TwiceTimes(c / p.Per(), p.Per());
    TwoBytes(b[2 * c..2 * c + 2]);
  }

  lemma TwiceTimes(n: nat, per: nat)
    ensures Times(n, 2 * per) == 2 * Times(n, per)
  {
    MulAssoc(n, 2, per);
    MulAssoc(2, n, per);
  }

  lemma TwoBytes(s: seq<byte>)
    requires |s| == 2
    ensures FromBE(s) == 256 * (s[0] as nat) + s[1]
  {
    assert FromBE(s[..1]) == s[0];
  }
}
