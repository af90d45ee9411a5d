/**
 Refcount adjustment for snapshots: a checking pass over every reference, then an applying pass over the same
 references. The references are the clusters visited by the L1/L2 walk, in walk order, repetitions included.
 */
module SnapshotRefcount {
  import opened Bytes
  import opened RefcountBlock
  import Repair

  datatype Error = Overflow | Underflow

  datatype Outcome = Done | Failed(error: Error)

  datatype Direction = Increment | Decrement

  /** The staged blocks as one array of entries, and references inside it. */
  predicate Staged(blocks: seq<byte>, bits: nat, refs: seq<nat>) {
    Supported(bits) && |blocks| % 8 == 0 && forall k :: 0 <= k < |refs| ==> refs[k] < Capacity(|blocks|, bits)
  }

  /** Whether one more reference, or one fewer, can be recorded. */
  predicate Room(current: nat, bits: nat, dir: Direction)
    requires Supported(bits)
  {
    match dir case Increment => current + 1 < Values(bits) case Decrement => current > 0
  }

  function Refusal(dir: Direction): Outcome {
    Failed(match dir case Increment => Overflow case Decrement => Underflow)
  }

  function Moved(current: nat, dir: Direction): int {
    match dir case Increment => current + 1 case Decrement => current - 1
  }

  function Adjusted(blocks: seq<byte>, bits: nat, c: nat, dir: Direction): (r: seq<byte>)
    requires Supported(bits) && c < Capacity(|blocks|, bits) && Room(Entry(blocks, bits, c), bits, dir)
    ensures |r| == |blocks|
  {
    WithEntry(blocks, bits, c, Moved(Entry(blocks, bits, c), dir))
  }

  /** The checking pass looks at every reference against the counts as they are, without adding up repetitions. */
  predicate Checks(blocks: seq<byte>, bits: nat, refs: seq<nat>, dir: Direction)
    requires Staged(blocks, bits, refs)
  {
    forall k :: 0 <= k < |refs| ==> Room(Entry(blocks, bits, refs[k]), bits, dir)
  }

  /** The applying pass: stops at the first reference that has no room, keeping what it has done so far. */
  function Applied(blocks: seq<byte>, bits: nat, refs: seq<nat>, dir: Direction): (r: (seq<byte>, Outcome))
    requires Staged(blocks, bits, refs)
    ensures |r.0| == |blocks|
  {
    if refs == [] then (blocks, Done) else
    assert forall k :: 0 <= k < |refs| - 1 ==> refs[..|refs| - 1][k] == refs[k];
    var (b, o) := Applied(blocks, bits, refs[..|refs| - 1], dir);
    var c := refs[|refs| - 1];
    if o.Failed? then (b, o)
    else if Room(Entry(b, bits, c), bits, dir) then (Adjusted(b, bits, c, dir), Done)
    else (b, Refusal(dir))
  }

  /** Check, then apply. */
  function Updated(blocks: seq<byte>, bits: nat, refs: seq<nat>, dir: Direction): (seq<byte>, Outcome)
    requires Staged(blocks, bits, refs)
  {
    if Checks(blocks, bits, refs, dir) then Applied(blocks, bits, refs, dir) else (blocks, Refusal(dir))
  }

  /** The checking pass. */
  method CheckAll(blocks: seq<byte>, bits: nat, refs: seq<nat>, dir: Direction) returns (ok: bool)
    requires Staged(blocks, bits, refs)
    ensures ok <==> Checks(blocks, bits, refs, dir)
  {
    hide Entry, Capacity, Values;
    for k := 0 to |refs|
      invariant forall j :: 0 <= j < k ==> Room(Entry(blocks, bits, refs[j]), bits, dir)
    {
      if !Room(Entry(blocks, bits, refs[k]), bits, dir) {
        return false;
      }
    }
    return true;
  }

  /** The applying pass, in place. */
  method ApplyAll(blocks: array<byte>, bits: nat, refs: seq<nat>, dir: Direction) returns (o: Outcome)
    requires Staged(blocks[..], bits, refs)
    modifies blocks
    ensures (blocks[..], o) == Applied(old(blocks[..]), bits, refs, dir)
  {
    hide Entry, WithEntry, Capacity, Values;
    ghost var before := blocks[..];
    for k := 0 to |refs|
      invariant Staged(before, bits, refs[..k]) && (blocks[..], Done) == Applied(before, bits, refs[..k], dir)
    {
      assert refs[..k + 1][..k] == refs[..k];
      var c := refs[k];
      var current := Entry(blocks[..], bits, c);
      if !Room(current, bits, dir) {
        FailureStays(before, bits, refs, dir, k + 1);
        return Refusal(dir);
      }
      var done := Repair.SetRefcount(blocks, bits, c, Moved(current, dir));
    }
    assert refs[..|refs|] == refs;
    return Done;
  }

  /** Create and delete: check every reference, then apply every reference. */
  method UpdateRefcounts(blocks: array<byte>, bits: nat, refs: seq<nat>, dir: Direction) returns (o: Outcome)
    requires Staged(blocks[..], bits, refs)
    modifies blocks
    ensures (blocks[..], o) == Updated(old(blocks[..]), bits, refs, dir)
  {
    var ok := CheckAll(blocks[..], bits, refs, dir);
    if !ok {
      return Refusal(dir);
    }
    o := ApplyAll(blocks, bits, refs, dir);
  }

  /** Once the applying pass has failed, the remaining references change nothing. */
  lemma {:induction false} FailureStays(blocks: seq<byte>, bits: nat, refs: seq<nat>, dir: Direction, k: nat)
    requires Staged(blocks, bits, refs) && k <= |refs| && Staged(blocks, bits, refs[..k])
    requires Applied(blocks, bits, refs[..k], dir).1.Failed?
    ensures Applied(blocks, bits, refs, dir) == Applied(blocks, bits, refs[..k], dir)
    decreases |refs| - k
  {
    hide Entry, WithEntry, Capacity, Values;
    if k == |refs| {
      assert refs[..k] == refs;
    } else {
      assert refs[..k + 1][..k] == refs[..k];
      FailureStays(blocks, bits, refs, dir, k + 1);
    }
  }

  // ----- what the two passes amount to -----

  function Count(refs: seq<nat>, c: nat): nat {
    multiset(refs)[c]
  }

  function Signed(n: int, dir: Direction): int {
    match dir case Increment => n case Decrement => -n
  }

  predicate Fits(blocks: seq<byte>, bits: nat, refs: seq<nat>, dir: Direction, c: nat)
    requires Supported(bits) && c < Capacity(|blocks|, bits)
  {
    c in refs ==> 0 <= Entry(blocks, bits, c) + Signed(Count(refs, c), dir) < Values(bits)
  }

  /** Every cluster has room for all of its references together. */
  predicate AllFit(blocks: seq<byte>, bits: nat, refs: seq<nat>, dir: Direction)
    requires Staged(blocks, bits, refs)
  {
    forall c :: 0 <= c < Capacity(|blocks|, bits) ==> Fits(blocks, bits, refs, dir, c)
  }

  /** The applying pass succeeds exactly if all fits, and then each count has moved by its number of references. */
  lemma {:induction false} ApplyCounts(blocks: seq<byte>, bits: nat, refs: seq<nat>, dir: Direction)
    requires Staged(blocks, bits, refs)
    ensures Applied(blocks, bits, refs, dir).1.Done? <==> AllFit(blocks, bits, refs, dir)
    ensures Applied(blocks, bits, refs, dir).1.Done? ==>
              forall c :: 0 <= c < Capacity(|blocks|, bits) ==>
                Entry(Applied(blocks, bits, refs, dir).0, bits, c) ==
                  Entry(blocks, bits, c) + Signed(Count(refs, c), dir)
    ensures Applied(blocks, bits, refs, dir).1.Failed? ==> Applied(blocks, bits, refs, dir).1 == Refusal(dir)
  {
    hide Entry, WithEntry, Capacity, Values, Stored;
    if refs != [] {
      var init, c := refs[..|refs| - 1], refs[|refs| - 1];
      assert refs == init + [c];
      ApplyCounts(blocks, bits, init, dir);
      var (b, o) := Applied(blocks, bits, init, dir);
      forall j | 0 <= j < Capacity(|blocks|, bits)
        ensures Count(refs, j) == Count(init, j) + if j == c then 1 else 0
        ensures Fits(blocks, bits, refs, dir, j) ==> Fits(blocks, bits, init, dir, j)
        ensures j != c ==> (Fits(blocks, bits, refs, dir, j) <==> Fits(blocks, bits, init, dir, j))
      {
        EntryFits(blocks, bits, j);
      }
      assert o.Done? ==> (Fits(blocks, bits, refs, dir, c) <==> Room(Entry(b, bits, c), bits, dir)) by {
        EntryFits(blocks, bits, c);
      }
      if o.Done? && Room(Entry(b, bits, c), bits, dir) {
        EntryFits(b, bits, c);
        forall j | 0 <= j < Capacity(|blocks|, bits)
          ensures Entry(Adjusted(b, bits, c, dir), bits, j) == if j == c then Moved(Entry(b, bits, c), dir)
                    else Entry(b, bits, j)
        {
          EntryOfWith(b, bits, c, Moved(Entry(b, bits, c), dir), j);
        }
      }
    }
  }

  /** A failed applying pass that got past some reference has changed the blocks for good. */
  lemma {:induction false} PartialApply(blocks: seq<byte>, bits: nat, refs: seq<nat>, dir: Direction)
    requires Staged(blocks, bits, refs)
    ensures forall c :: 0 <= c < Capacity(|blocks|, bits) ==>
              0 <= Signed(Entry(Applied(blocks, bits, refs, dir).0, bits, c) - Entry(blocks, bits, c),
                dir) <= Count(refs, c)
    ensures refs != [] && Room(Entry(blocks, bits, refs[0]), bits, dir) ==>
              Entry(Applied(blocks, bits, refs, dir).0, bits, refs[0]) != Entry(blocks, bits, refs[0])
  {
    hide Entry, WithEntry, Capacity, Values, Stored;
    if refs != [] {
      var init, c := refs[..|refs| - 1], refs[|refs| - 1];
      assert refs == init + [c];
      assert init != [] ==> init[0] == refs[0];
      PartialApply(blocks, bits, init, dir);
      var (b, o) := Applied(blocks, bits, init, dir);
      if o.Done? && Room(Entry(b, bits, c), bits, dir) {
        EntryFits(b, bits, c);
        forall j | 0 <= j < Capacity(|blocks|, bits)
          ensures Entry(Adjusted(b, bits, c, dir), bits, j) == if j == c then Moved(Entry(b, bits, c), dir)
                    else Entry(b, bits, j)
        {
          EntryOfWith(b, bits, c, Moved(Entry(b, bits, c), dir), j);
        }
      }
    }
  }

  /**
   The documented promise is that a failed update leaves the blocks byte-identical. It fails exactly when every
   reference passes on its own but some cluster has no room for all of its references together.
   */
  lemma FailureIsNotAlwaysClean(blocks: seq<byte>, bits: nat, refs: seq<nat>, dir: Direction)
    requires Staged(blocks, bits, refs)
    ensures Updated(blocks, bits, refs, dir).1.Done? <==> AllFit(blocks, bits, refs, dir)
    ensures Updated(blocks, bits, refs, dir).1.Failed? && Updated(blocks, bits, refs, dir).0 != blocks <==>
            Checks(blocks, bits, refs, dir) && !AllFit(blocks, bits, refs, dir)
  {
    hide Entry, WithEntry, Capacity, Values;
    ApplyCounts(blocks, bits, refs, dir);
    if Checks(blocks, bits, refs, dir) {
      PartialApply(blocks, bits, refs, dir);
    } else {
      var k :| 0 <= k < |refs| && !Room(Entry(blocks, bits, refs[k]), bits, dir);
      assert !Fits(blocks, bits, refs, dir, refs[k]) by {
        assert Count(refs, refs[k]) >= 1;
        EntryFits(blocks, bits, refs[k]);
      }
    }
  }

  /** Where no cluster is referenced twice the promise holds: checking alone decides, and a failure changes nothing. */
  lemma CleanWithoutRepetition(blocks: seq<byte>, bits: nat, refs: seq<nat>, dir: Direction)
    requires Staged(blocks, bits, refs) && forall c :: c in refs ==> Count(refs, c) == 1
    ensures Updated(blocks, bits, refs, dir).1.Failed? ==> Updated(blocks, bits, refs, dir).0 == blocks
  {
    hide Entry, WithEntry, Capacity, Values;
    FailureIsNotAlwaysClean(blocks, bits, refs, dir);
    if Checks(blocks, bits, refs, dir) {
      SingleFits(blocks, bits, refs, dir);
    }
  }

  /** A witness: one-bit counts, a free cluster reached by two references. The update fails and leaves the bit set. */
  lemma TwoReferencesOneBit()
    ensures var blocks: seq<byte> := [0, 0, 0, 0, 0, 0, 0, 0];
            Staged(blocks, 1, [0, 0])
              && Updated(blocks, 1, [0, 0], Increment) == ([1, 0, 0, 0, 0, 0, 0, 0], Failed(Overflow))
  {
    var blocks: seq<byte> := [0, 0, 0, 0, 0, 0, 0, 0];
    var once: seq<nat>, twice: seq<nat> := [0], [0, 0];
    assert WithField(0, 1, 0, 1) == 1 && Field(1, 1, 0) == 1 && Field(0, 1, 0) == 0;
    assert once[..|once| - 1] == [] && twice[..|twice| - 1] == once;
    assert Applied(blocks, 1, once[..0], Increment) == (blocks, Done);
    assert Entry(blocks, 1, 0) == 0 && WithEntry(blocks, 1, 0, 1) == [1, 0, 0, 0, 0, 0, 0, 0];
    assert Applied(blocks, 1, once, Increment) == ([1, 0, 0, 0, 0, 0, 0, 0], Done);
  }

  // ----- taking a snapshot and deleting it again -----

  lemma {:induction false} SameFields(a: nat, b: nat, bits: nat, n: nat)
    requires SubWidth(bits) && a < RefcountBlock.Room(bits, n) && b < RefcountBlock.Room(bits, n)
    requires forall k :: 0 <= k < n ==> Field(a, bits, k) == Field(b, bits, k)
    ensures a == b
    decreases n
  {
    if n > 0 {
      assert Field(a, bits, 0) == Field(b, bits, 0);
      forall k | 0 <= k < n - 1
        ensures Field(High(a, bits), bits, k) == Field(High(b, bits), bits, k)
      {
        assert Field(a, bits, k + 1) == Field(b, bits, k + 1);
      }
      SameFields(High(a, bits), High(b, bits), bits, n - 1);
    }
  }

  /** The entry that a byte belongs to (its first one, below a byte). */
  function EntryAt(bits: nat, p: nat): nat
    requires Supported(bits)
  {
    match bits case 1 => p * 8 case 2 => p * 4 case 4 => p * 2 case 8 => p case 16 => p / 2 case 32 => p / 4
      case _ => p / 8
  }

  /** Entries that share a byte determine it. */
  lemma SubByteDetermined(a: seq<byte>, b: seq<byte>, bits: nat, p: nat)
    requires SubWidth(bits) && |a| == |b| && p < |a|
    requires forall c :: 0 <= c < Capacity(|a|, bits) ==> Entry(a, bits, c) == Entry(b, bits, c)
    ensures a[p] == b[p]
  {
    hide BE, FromBE, Field;
    var c := EntryAt(bits, p);
    forall k | 0 <= k < Capacity(1, bits)
      ensures Field(a[p], bits, k) == Field(b[p], bits, k)
    {
      assert Offset(bits, c + k) == p && Position(bits, c + k) == k;
      assert Entry(a, bits, c + k) == Entry(b, bits, c + k);
    }
    assert RefcountBlock.Room(1, 4) == 16 && RefcountBlock.Room(1, 6) == 64 && RefcountBlock.Room(2, 2) == 16;
    SameFields(a[p], b[p], bits, Capacity(1, bits));
  }

  /** An entry of whole bytes determines each of them. */
  lemma WideDetermined(a: seq<byte>, b: seq<byte>, bits: nat, p: nat)
    requires Supported(bits) && !SubWidth(bits) && |a| == |b| && |a| % 8 == 0 && p < |a|
    requires forall c :: 0 <= c < Capacity(|a|, bits) ==> Entry(a, bits, c) == Entry(b, bits, c)
    ensures a[p] == b[p]
  {
    hide BE, FromBE, Field, Entry, Capacity, EntryAt;
    var c := EntryAt(bits, p);
    var at, n := Offset(bits, c), Span(bits);
    EntryAround(|a|, bits, p);
    assert Entry(a, bits, c) == Entry(b, bits, c);
    WideEntry(a, bits, c);
    WideEntry(b, bits, c);
    BEInverse(a[at..at + n]);
    BEInverse(b[at..at + n]);
    assert a[p] == a[at..at + n][p - at] && b[p] == b[at..at + n][p - at];
  }

  /** Every byte lies in the entry that is meant to hold it. */
  lemma EntryAround(len: nat, bits: nat, p: nat)
    requires Supported(bits) && !SubWidth(bits) && len % 8 == 0 && p < len
    ensures var c := EntryAt(bits, p);
            c < Capacity(len, bits) && Offset(bits, c) <= p < Offset(bits, c) + Span(bits) <= len
  {
    if bits == 16 {
      InPair(len / 8, p);
    } else if bits == 32 {
      InFour(len / 8, p);
    } else if bits == 64 {
      InEight(len / 8, p);
    }
  }

  lemma InPair(m: nat, p: nat)
    requires p < 8 * m
    ensures p / 2 < 8 * m / 2 && p / 2 * 2 <= p < p / 2 * 2 + 2 <= 8 * m
  {
  }

  lemma InFour(m: nat, p: nat)
    requires p < 8 * m
    ensures p / 4 < 8 * m / 4 && p / 4 * 4 <= p < p / 4 * 4 + 4 <= 8 * m
  {
  }

  lemma InEight(m: nat, p: nat)
    requires p < 8 * m
    ensures p / 8 < 8 * m / 8 && p / 8 * 8 <= p < p / 8 * 8 + 8 <= 8 * m
  {
  }

  lemma WideEntry(a: seq<byte>, bits: nat, c: nat)
    requires Supported(bits) && !SubWidth(bits) && c < Capacity(|a|, bits) && Offset(bits, c) + Span(bits) <= |a|
    ensures Entry(a, bits, c) == FromBE(a[Offset(bits, c)..Offset(bits, c) + Span(bits)])
  {
    hide FromBE;
  }

  lemma EntriesDetermineByte(a: seq<byte>, b: seq<byte>, bits: nat, p: nat)
    requires Supported(bits) && |a| == |b| && |a| % 8 == 0 && p < |a|
    requires forall c :: 0 <= c < Capacity(|a|, bits) ==> Entry(a, bits, c) == Entry(b, bits, c)
    ensures a[p] == b[p]
  {
    hide Entry, Capacity;
    if SubWidth(bits) {
      SubByteDetermined(a, b, bits, p);
    } else {
      WideDetermined(a, b, bits, p);
    }
  }

  /** Deleting right after creating puts every refcount byte back, at every width and with any repetition. */
  lemma CreateThenDelete(blocks: seq<byte>, bits: nat, refs: seq<nat>)
    requires Staged(blocks, bits, refs) && Updated(blocks, bits, refs, Increment).1.Done?
    ensures |Updated(blocks, bits, refs, Increment).0| == |blocks|
    ensures Updated(Updated(blocks, bits, refs, Increment).0, bits, refs, Decrement) == (blocks, Done)
  {
    hide Entry, WithEntry, Capacity, Values;
    var b := Updated(blocks, bits, refs, Increment).0;
    ApplyCounts(blocks, bits, refs, Increment);
    forall c | 0 <= c < Capacity(|b|, bits)
      ensures Fits(b, bits, refs, Decrement, c)
    {
      EntryFits(b, bits, c);
    }
    FailureIsNotAlwaysClean(b, bits, refs, Decrement);
    ApplyCounts(b, bits, refs, Decrement);
    var r := Updated(b, bits, refs, Decrement).0;
    forall p | 0 <= p < |blocks|
      ensures r[p] == blocks[p]
    {
      EntriesDetermineByte(r, blocks, bits, p);
    }
    assert r == blocks;
  }

  // ----- switching to a snapshot -----

  /** Both passes for the outgoing references and the incoming ones: both checked against the counts as they are. */
  function Swapped(blocks: seq<byte>, bits: nat, from: seq<nat>, to: seq<nat>): (seq<byte>, Outcome)
    requires Staged(blocks, bits, from) && Staged(blocks, bits, to)
  {
    if !Checks(blocks, bits, from, Decrement) then (blocks, Refusal(Decrement))
    else if !Checks(blocks, bits, to, Increment) then (blocks, Refusal(Increment))
    else
      var (b, o) := Applied(blocks, bits, from, Decrement);
      if o.Failed? then (b, o) else Applied(b, bits, to, Increment)
  }

  /**
   The checks are documented not to fail spuriously for a cluster shared by both sides at its maximum count. They do:
   whenever applying alone would succeed, the swap is refused exactly if some incoming cluster is at its maximum.
   */
  lemma SwapRefusesSharedMaximum(blocks: seq<byte>, bits: nat, from: seq<nat>, to: seq<nat>)
    requires Staged(blocks, bits, from) && Staged(blocks, bits, to) && AllFit(blocks, bits, from, Decrement)
    requires AllFit(Applied(blocks, bits, from, Decrement).0, bits, to, Increment)
    ensures Swapped(blocks, bits, from, to).1.Failed? <==>
              exists c :: c in to && Entry(blocks, bits, c) == Values(bits) - 1
    ensures Swapped(blocks, bits, from, to).1.Done? ==>
              forall c :: 0 <= c < Capacity(|blocks|, bits) ==>
                Entry(Swapped(blocks, bits, from, to).0, bits, c) ==
                  Entry(blocks, bits, c) - Count(from, c) + Count(to, c)
  {
    hide Entry, WithEntry, Capacity, Values;
    FailureIsNotAlwaysClean(blocks, bits, from, Decrement);
    ApplyCounts(blocks, bits, from, Decrement);
    ApplyCounts(Applied(blocks, bits, from, Decrement).0, bits, to, Increment);
    forall k | 0 <= k < |to|
      ensures Room(Entry(blocks, bits, to[k]), bits, Increment) <==> Entry(blocks, bits, to[k]) != Values(bits) - 1
    {
      EntryFits(blocks, bits, to[k]);
    }
  }

  /** A pass that fails to raise a count has found one at its maximum. */
  lemma {:induction false} StuckAtMaximum(blocks: seq<byte>, bits: nat, refs: seq<nat>)
    requires Staged(blocks, bits, refs) && Applied(blocks, bits, refs, Increment).1.Failed?
    ensures exists c :: c in refs && Entry(Applied(blocks, bits, refs, Increment).0, bits, c) == Values(bits) - 1
  {
    hide Entry, WithEntry, Capacity, Values;
    var init, c := refs[..|refs| - 1], refs[|refs| - 1];
    assert refs == init + [c];
    var (b, o) := Applied(blocks, bits, init, Increment);
    if o.Failed? {
      StuckAtMaximum(blocks, bits, init);
      var d :| d in init && Entry(b, bits, d) == Values(bits) - 1;
      assert d in refs;
    } else {
      EntryFits(b, bits, c);
      assert c in refs;
    }
  }

  /**
   A swap fails with the blocks changed exactly if both sides pass their checks but do not fit when applied in turn.
   */
  lemma SwapFailureIsNotAlwaysClean(blocks: seq<byte>, bits: nat, from: seq<nat>, to: seq<nat>)
    requires Staged(blocks, bits, from) && Staged(blocks, bits, to)
    ensures Swapped(blocks, bits, from, to).1.Failed? && Swapped(blocks, bits, from, to).0 != blocks <==>
            && Checks(blocks, bits, from, Decrement) && Checks(blocks, bits, to, Increment)
            && !(AllFit(blocks, bits, from, Decrement)
               && AllFit(Applied(blocks, bits, from, Decrement).0, bits, to, Increment))
  {
    hide Entry, WithEntry, Capacity, Values, AllFit;
    if Checks(blocks, bits, from, Decrement) && Checks(blocks, bits, to, Increment) {
      var (b, o) := Applied(blocks, bits, from, Decrement);
      ApplyCounts(blocks, bits, from, Decrement);
      if o.Failed? {
        PartialApply(blocks, bits, from, Decrement);
        NothingToApply(blocks, bits, from, Decrement);
      } else {
        ApplyCounts(b, bits, to, Increment);
        if Applied(b, bits, to, Increment).1.Failed? {
          StuckAtMaximum(b, bits, to);
          var c :| c in to && Entry(Applied(b, bits, to, Increment).0, bits, c) == Values(bits) - 1;
          assert Room(Entry(blocks, bits, c), bits, Increment);
        }
      }
    }
  }

  lemma NothingToApply(blocks: seq<byte>, bits: nat, refs: seq<nat>, dir: Direction)
    requires Staged(blocks, bits, refs) && Applied(blocks, bits, refs, dir).1.Failed?
    ensures refs != []
  {
  }

  /** Where neither side reaches a cluster twice, a failed swap changes nothing. */
  lemma SwapCleanWithoutRepetition(blocks: seq<byte>, bits: nat, from: seq<nat>, to: seq<nat>)
    requires Staged(blocks, bits, from) && Staged(blocks, bits, to)
    requires (forall c :: c in from ==> Count(from, c) == 1) && (forall c :: c in to ==> Count(to, c) == 1)
    ensures Swapped(blocks, bits, from, to).1.Failed? ==> Swapped(blocks, bits, from, to).0 == blocks
  {
    hide Entry, WithEntry, Capacity, Values;
    SwapFailureIsNotAlwaysClean(blocks, bits, from, to);
    if Checks(blocks, bits, from, Decrement) && Checks(blocks, bits, to, Increment) {
      SingleFits(blocks, bits, from, Decrement);
      ApplyCounts(blocks, bits, from, Decrement);
      var b := Applied(blocks, bits, from, Decrement).0;
      forall k | 0 <= k < |to|
        ensures Room(Entry(b, bits, to[k]), bits, Increment)
      {
        assert Room(Entry(blocks, bits, to[k]), bits, Increment);
      }
      SingleFits(b, bits, to, Increment);
    }
  }

  /** References without repetition that pass their checks fit together. */
  lemma SingleFits(blocks: seq<byte>, bits: nat, refs: seq<nat>, dir: Direction)
    requires Staged(blocks, bits, refs) && Checks(blocks, bits, refs, dir) && forall c :: c in refs ==>
              Count(refs, c) == 1
    ensures AllFit(blocks, bits, refs, dir)
  {
    hide Entry, WithEntry, Capacity, Values;
    forall c | 0 <= c < Capacity(|blocks|, bits)
      ensures Fits(blocks, bits, refs, dir, c)
    {
      EntryFits(blocks, bits, c);
      if c in refs {
        var k :| 0 <= k < |refs| && refs[k] == c;
      }
    }
  }

  /** Switching to a snapshot, in place: both sides checked, then both applied. */
  method SwapRefcounts(blocks: array<byte>, bits: nat, from: seq<nat>, to: seq<nat>) returns (o: Outcome)
    requires Staged(blocks[..], bits, from) && Staged(blocks[..], bits, to)
    modifies blocks
    ensures (blocks[..], o) == Swapped(old(blocks[..]), bits, from, to)
  {
    hide Entry, Capacity, Applied, Checks;
    var ok := CheckAll(blocks[..], bits, from, Decrement);
    if !ok {
      return Refusal(Decrement);
    }
    ok := CheckAll(blocks[..], bits, to, Increment);
    if !ok {
      return Refusal(Increment);
    }
    o := ApplyAll(blocks, bits, from, Decrement);
    if o.Done? {
      o := ApplyAll(blocks, bits, to, Increment);
    }
  }

  // ----- instances -----

  const NO_COUNTS: seq<byte> := [0, 0, 0, 0, 0, 0, 0, 0]
  const FIRST_IN_USE: seq<byte> := [1, 0, 0, 0, 0, 0, 0, 0]

  /** One-bit counts: taking the first cluster into use, and giving it up. */
  lemma OneBitCounts()
    ensures Entry(NO_COUNTS, 1, 0) == 0 && WithEntry(NO_COUNTS, 1, 0, 1) == FIRST_IN_USE
    ensures Entry(FIRST_IN_USE, 1, 0) == 1 && WithEntry(FIRST_IN_USE, 1, 0, 0) == NO_COUNTS
  {
    assert WithField(0, 1, 0, 1) == 1 && Field(1, 1, 0) == 1 && Field(0, 1, 0) == 0 && WithField(1, 1, 0, 0) == 0;
  }

  lemma OneReference(blocks: seq<byte>, dir: Direction)
    requires Staged(blocks, 1, [0])
    ensures Applied(blocks, 1, [0], dir) ==
            if Room(Entry(blocks, 1, 0), 1, dir) then (Adjusted(blocks, 1, 0, dir), Done) else (blocks, Refusal(dir))
  {
    var once: seq<nat> := [0];
    assert once[..|once| - 1] == [];
  }

  /** A cluster at its maximum that both sides hold: the swap is refused although both passes would succeed. */
  lemma SharedMaximumRefused()
    ensures Staged(FIRST_IN_USE, 1, [0]) && Staged(NO_COUNTS, 1, [0])
    ensures Applied(FIRST_IN_USE, 1, [0], Decrement) == (NO_COUNTS, Done)
    ensures Applied(NO_COUNTS, 1, [0], Increment) == (FIRST_IN_USE, Done)
    ensures Swapped(FIRST_IN_USE, 1, [0], [0]) == (FIRST_IN_USE, Failed(Overflow))
  {
    hide Entry, WithEntry;
    OneBitCounts();
    OneReference(FIRST_IN_USE, Decrement);
    OneReference(NO_COUNTS, Increment);
    var once: seq<nat> := [0];
    assert !Room(Entry(FIRST_IN_USE, 1, once[0]), 1, Increment);
  }

  /** A free cluster that the incoming side holds twice: the swap fails and leaves its bit set. */
  lemma SwapLeavesABit()
    ensures Staged(NO_COUNTS, 1, []) && Staged(NO_COUNTS, 1, [0, 0])
    ensures Swapped(NO_COUNTS, 1, [], [0, 0]) == (FIRST_IN_USE, Failed(Overflow))
  {
    hide Entry, WithEntry;
    TwoReferencesOneBit();
    OneBitCounts();
  }
}
