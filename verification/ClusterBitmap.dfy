/** One bit per host cluster, packed into bytes from bit 0: the record of what a walk has seen. */
module ClusterBitmap {
  import opened Bytes
  import RefcountBlock
  import Repair

  const SCRATCH_BASE: nat := 0x0030_0000
  const SCRATCH_END: nat := 0x00FF_0000
  const SCRATCH_SIZE: nat := SCRATCH_END - SCRATCH_BASE

  datatype Outcome = NewBit | AlreadySet | BeyondCapacity

  predicate Test(bits: seq<byte>, idx: nat) {
    idx < 8 * |bits| && RefcountBlock.Entry(bits, 1, idx) == 1
  }

  ghost function Marks(bits: seq<byte>): set<nat> {
    set idx: nat | idx < 8 * |bits| && Test(bits, idx)
  }

  /** Bytes for a bit per item, as far as scratch memory goes. */
  function Size(items: nat): nat {
    var needed := (items + 7) / 8;
    if needed < SCRATCH_SIZE then needed else SCRATCH_SIZE
  }

  lemma {:induction false} NoField(k: nat)
    ensures RefcountBlock.Field(0, 1, k) == 0
  {
    if k > 0 {
      NoField(k - 1);
    }
  }

  lemma ZeroedIsEmpty(bits: seq<byte>)
    requires forall k :: 0 <= k < |bits| ==> bits[k] == 0
    ensures Marks(bits) == {}
  {
    hide RefcountBlock.Field;
    forall idx: nat | idx < 8 * |bits|
      ensures !Test(bits, idx)
    {
      NoField(RefcountBlock.Position(1, idx));
    }
  }

  /** Setting a bit adds its item and no other. */
  lemma BitSet(bits: seq<byte>, idx: nat)
    requires idx < 8 * |bits|
    ensures Marks(RefcountBlock.WithEntry(bits, 1, idx, 1)) == Marks(bits) + {idx}
  {
    hide RefcountBlock.Entry, RefcountBlock.WithEntry;
    var now := RefcountBlock.WithEntry(bits, 1, idx, 1);
    forall j: nat | j < 8 * |bits|
      ensures Test(now, j) <==> Test(bits, j) || j == idx
    {
      RefcountBlock.EntryOfWith(bits, 1, idx, 1, j);
    }
  }

  class Bitmap {
    const bytes: array<byte>
    const canTrack: bool

    constructor (items: nat)
      ensures fresh(bytes) && bytes.Length == Size(items) && Marks(bytes[..]) == {}
      ensures canTrack <==> items <= 8 * SCRATCH_SIZE
      ensures canTrack ==> items <= 8 * bytes.Length
    {
      var size := Size(items);
      bytes := new byte[size](_ => 0);
      canTrack := items <= size * 8;
      new;
      ZeroedIsEmpty(bytes[..]);
    }

    method Set(idx: nat) returns (r: Outcome)
      modifies bytes
      ensures Marks(bytes[..]) == old(Marks(bytes[..])) + if idx < 8 * bytes.Length then {idx} else {}
      ensures r == if idx >= 8 * bytes.Length then BeyondCapacity else if idx in old(Marks(bytes[..])) then AlreadySet
                else NewBit
    {
      hide RefcountBlock.Entry, RefcountBlock.WithEntry;
      if idx / 8 >= bytes.Length {
        return BeyondCapacity;
      }
      var already := Test(bytes[..], idx);
      BitSet(bytes[..], idx);
      var done := Repair.SetRefcount(bytes, 1, idx, 1);
      return if already then AlreadySet else NewBit;
    }
  }
}
