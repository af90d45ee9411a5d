/** Entries of a qcow2 refcount block at all seven widths: packed from bit 0 below a byte, big-endian above. */
module RefcountBlock {
  import opened Bytes

  predicate Supported(bits: nat) {
    SubWidth(bits) || bits == 8 || bits == 16 || bits == 32 || bits == 64
  }

  /** Widths of less than a byte. */
  predicate SubWidth(bits: nat) {
    bits == 1 || bits == 2 || bits == 4
  }

  /** The number of values an entry can hold. */
  function Values(bits: nat): (r: nat)
    requires Supported(bits)
    ensures r >= 2
  {
    match bits
    case 1 => 2
    case 2 => 4
    case 4 => 16
    case 8 => 256
    case 16 => U16
    case 32 => U32
    case _ => U64
  }

  /** How many entries a block of len bytes holds. */
  function Capacity(len: nat, bits: nat): nat
    requires Supported(bits)
  {
    match bits
    case 1 => len * 8
    case 2 => len * 4
    case 4 => len * 2
    case 8 => len
    case 16 => len / 2
    case 32 => len / 4
    case _ => len / 8
  }

  /** What a value becomes when stored: one bit records only "not zero", wider entries keep the low bits. */
  function Stored(bits: nat, value: nat): (r: nat)
    requires Supported(bits)
    ensures r < Values(bits)
    ensures value < Values(bits) ==> r == value
    ensures if bits == 1 then r == 0 <==> value == 0 else r == value % Values(bits)
  {
    if value < Values(bits) then value else
    match bits
    case 1 => 1
    case 2 => value % 4
    case 4 => value % 16
    case 8 => value % 256
    case 16 => value % U16
    case 32 => value % U32
    case _ => value % U64
  }

  // ----- fields inside one byte -----

  /** The lowest field, the others shifted down, and their recombination. */
  function Low(b: nat, bits: nat): (r: nat)
    requires SubWidth(bits)
    ensures r < Values(bits)
  {
    match bits case 1 => b % 2 case 2 => b % 4 case _ => b % 16
  }

  function High(b: nat, bits: nat): nat
    requires SubWidth(bits)
  {
    match bits case 1 => b / 2 case 2 => b / 4 case _ => b / 16
  }

  function Join(high: nat, low: nat, bits: nat): nat
    requires SubWidth(bits)
  {
    match bits case 1 => high * 2 + low case 2 => high * 4 + low case _ => high * 16 + low
  }

  lemma SplitJoin(high: nat, low: nat, bits: nat)
    requires SubWidth(bits) && low < Values(bits)
    ensures Low(Join(high, low, bits), bits) == low && High(Join(high, low, bits), bits) == high
  {
    if bits == 1 {
      assert (high * 2 + low) / 2 == high;
    } else if bits == 2 {
      assert (high * 4 + low) / 4 == high;
    } else {
      assert (high * 16 + low) / 16 == high;
    }
  }

  /** Field k of a byte: shift right k times by the width, then mask. */
  function Field(b: nat, bits: nat, k: nat): (r: nat)
    requires SubWidth(bits)
    ensures r < Values(bits)
    decreases k
  {
    if k == 0 then Low(b, bits) else Field(High(b, bits), bits, k - 1)
  }

  /** Clears field k and puts v in its place. */
  function WithField(b: nat, bits: nat, k: nat, v: nat): nat
    requires SubWidth(bits) && v < Values(bits)
    decreases k
  {
    if k == 0 then Join(High(b, bits), v, bits)
    else Join(WithField(High(b, bits), bits, k - 1, v), Low(b, bits), bits)
  }

  lemma {:induction false} FieldOfWith(b: nat, bits: nat, k: nat, v: nat, j: nat)
    requires SubWidth(bits) && v < Values(bits)
    ensures Field(WithField(b, bits, k, v), bits, j) == if j == k then v else Field(b, bits, j)
    decreases k
  {
    hide Values, Low, High, Join;
    if k == 0 {
      SplitJoin(High(b, bits), v, bits);
    } else {
      SplitJoin(WithField(High(b, bits), bits, k - 1, v), Low(b, bits), bits);
      if j > 0 {
        FieldOfWith(High(b, bits), bits, k - 1, v, j - 1);
      }
    }
  }

  /** Number of values of n fields together. */
  function Room(bits: nat, n: nat): nat
    requires SubWidth(bits)
  {
    if n == 0 then 1 else match bits case 1 => 2 * Room(bits, n - 1) case 2 => 4 * Room(bits, n - 1)
      case _ => 16 * Room(bits, n - 1)
  }

  lemma {:induction false} FieldBound(b: nat, bits: nat, k: nat, v: nat, n: nat)
    requires SubWidth(bits) && k < n && v < Values(bits) && b < Room(bits, n)
    ensures WithField(b, bits, k, v) < Room(bits, n)
    decreases n
  {
    hide Values, WithField, Low, High, Join, Room;
    HighBound(b, bits, n);
    if k > 0 {
      FieldBound(High(b, bits), bits, k - 1, v, n - 1);
      JoinBound(WithField(High(b, bits), bits, k - 1, v), Low(b, bits), bits, n);
    } else {
      JoinBound(High(b, bits), v, bits, n);
    }
    WithFieldStep(b, bits, k, v);
  }

  lemma HighBound(b: nat, bits: nat, n: nat)
    requires SubWidth(bits) && n > 0 && b < Room(bits, n)
    ensures High(b, bits) < Room(bits, n - 1)
  {
  }

  lemma JoinBound(high: nat, low: nat, bits: nat, n: nat)
    requires SubWidth(bits) && n > 0 && low < Values(bits) && high < Room(bits, n - 1)
    ensures Join(high, low, bits) < Room(bits, n)
  {
  }

  lemma WithFieldStep(b: nat, bits: nat, k: nat, v: nat)
    requires SubWidth(bits) && v < Values(bits)
    ensures WithField(b, bits, k, v) ==
            if k == 0 then Join(High(b, bits), v, bits)
              else Join(WithField(High(b, bits), bits, k - 1, v), Low(b, bits), bits)
  {
    hide Values, Low, High, Join;
  }

  /** Replacing a field of a byte leaves a byte. */
  lemma WithFieldIsByte(b: byte, bits: nat, k: nat, v: nat)
    requires SubWidth(bits) && k < Capacity(1, bits) && v < Values(bits)
    ensures WithField(b, bits, k, v) < 256
  {
    assert Room(1, 4) == 16 && Room(1, 6) == 64 && Room(2, 2) == 16;
    FieldBound(b, bits, k, v, Capacity(1, bits));
  }

  // ----- entries of a block -----

  /** Bytes per entry, and the byte an entry starts at. */
  function Span(bits: nat): (r: nat)
    requires Supported(bits)
    ensures r >= 1
  {
    match bits case 16 => 2 case 32 => 4 case 64 => 8 case _ => 1
  }

  function Offset(bits: nat, idx: nat): nat
    requires Supported(bits)
  {
    match bits
    case 1 => idx / 8
    case 2 => idx / 4
    case 4 => idx / 2
    case 8 => idx
    case 16 => idx * 2
    case 32 => idx * 4
    case _ => idx * 8
  }

  /** Which field of its byte an entry is. */
  function Position(bits: nat, idx: nat): (r: nat)
    requires SubWidth(bits)
    ensures r < Capacity(1, bits)
  {
    match bits case 1 => idx % 8 case 2 => idx % 4 case _ => idx % 2
  }

  lemma EntryInside(len: nat, bits: nat, idx: nat)
    requires Supported(bits)
    ensures idx < Capacity(len, bits) <==> Offset(bits, idx) + Span(bits) <= len
  {
  }

  /** Distinct entries are apart: in different bytes, or different fields of one byte. */
  lemma EntriesApart(bits: nat, i: nat, j: nat)
    requires Supported(bits) && i != j
    ensures || Offset(bits, i) + Span(bits) <= Offset(bits, j)
            || Offset(bits, j) + Span(bits) <= Offset(bits, i)
            || (SubWidth(bits) && Offset(bits, i) == Offset(bits, j) && Position(bits, i) != Position(bits, j))
  {
  }

  function Entry(block: seq<byte>, bits: nat, idx: nat): nat
    requires Supported(bits) && idx < Capacity(|block|, bits)
  {
    EntryInside(|block|, bits, idx);
    var at := Offset(bits, idx);
    if SubWidth(bits) then Field(block[at], bits, Position(bits, idx)) else GetBE(block, at, Span(bits))
  }

  function WithEntry(block: seq<byte>, bits: nat, idx: nat, value: nat): (r: seq<byte>)
    requires Supported(bits) && idx < Capacity(|block|, bits)
    ensures |r| == |block|
    ensures forall p :: 0 <= p < |block| && !(Offset(bits, idx) <= p < Offset(bits, idx) + Span(bits)) ==>
              r[p] == block[p]
  {
    EntryInside(|block|, bits, idx);
    var at := Offset(bits, idx);
    if SubWidth(bits) then
      WithFieldIsByte(block[at], bits, Position(bits, idx), Stored(bits, value));
      block[at := WithField(block[at], bits, Position(bits, idx), Stored(bits, value))]
    else
      Splice(block, at, BE(Span(bits), value))
  }

  lemma StoredLowBytes(bits: nat, value: nat)
    requires Supported(bits) && !SubWidth(bits)
    ensures FromBE(BE(Span(bits), value)) == Stored(bits, value)
  {
    BEKeepsLowBytes(Span(bits), value);
    WidthLimits();
  }

  /** Setting one entry changes that entry and no other, at every width. */
  lemma EntryOfWith(block: seq<byte>, bits: nat, i: nat, value: nat, j: nat)
    requires Supported(bits) && i < Capacity(|block|, bits) && j < Capacity(|block|, bits)
    ensures Entry(WithEntry(block, bits, i, value), bits, j) == if j == i then Stored(bits, value)
              else Entry(block, bits, j)
  {
    hide BE, FromBE, Splice, Offset, Field, WithField, Position, Capacity, Stored, Span;
    EntryInside(|block|, bits, i);
    EntryInside(|block|, bits, j);
    var r := WithEntry(block, bits, i, value);
    if i != j {
      EntriesApart(bits, i, j);
    }
    if SubWidth(bits) {
      FieldOfWith(block[Offset(bits, i)], bits, Position(bits, i), Stored(bits, value), Position(bits, j));
    } else if i == j {
      StoredLowBytes(bits, value);
    } else {
      SpliceElsewhere(block, Offset(bits, i), BE(Span(bits), value), Offset(bits, j), Span(bits));
    }
  }

  lemma EntryFits(block: seq<byte>, bits: nat, idx: nat)
    requires Supported(bits) && idx < Capacity(|block|, bits)
    ensures Entry(block, bits, idx) < Values(bits)
  {
    hide BE, FromBE;
    EntryInside(|block|, bits, idx);
    if !SubWidth(bits) {
      BEInverse(block[Offset(bits, idx)..Offset(bits, idx) + Span(bits)]);
      WidthLimits();
    }
  }

  lemma {:induction false} SameField(b: nat, bits: nat, k: nat)
    requires SubWidth(bits)
    ensures WithField(b, bits, k, Field(b, bits, k)) == b
    decreases k
  {
    if k > 0 {
      SameField(High(b, bits), bits, k - 1);
    }
  }

  /** Storing what an entry already holds changes no byte. */
  lemma SameEntry(block: seq<byte>, bits: nat, idx: nat, value: nat)
    requires Supported(bits) && idx < Capacity(|block|, bits) && Entry(block, bits, idx) == Stored(bits, value)
    ensures WithEntry(block, bits, idx, value) == block
  {
    hide BE, FromBE, Field, WithField, Stored;
    EntryInside(|block|, bits, idx);
    var at := Offset(bits, idx);
    if SubWidth(bits) {
      SameField(block[at], bits, Position(bits, idx));
    } else {
      StoredLowBytes(bits, value);
      BEInverse(block[at..at + Span(bits)]);
      BEInverse(BE(Span(bits), value));
    }
  }

  // ----- the bytes of a block -----

  /** The number with the given digits, the least significant one first. */
  function Digits(s: seq<nat>, base: nat): nat {
    if s == [] then 0 else s[0] + Times(base, Digits(s[1..], base))
  }

  /** The entries kept in byte p, in the order of their indices. */
  function EntriesOf(block: seq<byte>, bits: nat, p: nat): (r: seq<nat>)
    requires SubWidth(bits) && p < |block|
    ensures |r| == Capacity(1, bits)
  {
    var n := Capacity(1, bits);
    seq<nat>(n, k requires 0 <= k < n => Entry(block, bits, p * n + k))
  }

  function FieldsOf(b: nat, bits: nat, n: nat): (r: seq<nat>)
    requires SubWidth(bits)
    ensures |r| == n
  {
    seq<nat>(n, k requires 0 <= k => Field(b, bits, k))
  }

  lemma {:induction false} FieldsMake(b: nat, bits: nat, n: nat)
    requires SubWidth(bits) && b < Room(bits, n)
    ensures Digits(FieldsOf(b, bits, n), Values(bits)) == b
    decreases n
  {
    hide Low, High, Room, Times;
    if n > 0 {
      HighBound(b, bits, n);
      FieldsMake(High(b, bits), bits, n - 1);
      assert FieldsOf(b, bits, n)[1..] == FieldsOf(High(b, bits), bits, n - 1);
      LowAndHigh(b, bits);
    } else {
      NoRoom(b, bits);
    }
  }

  lemma NoRoom(b: nat, bits: nat)
    requires SubWidth(bits) && b < Room(bits, 0)
    ensures b == 0
  {
  }

  lemma LowAndHigh(b: nat, bits: nat)
    requires SubWidth(bits)
    ensures b == Low(b, bits) + Times(Values(bits), High(b, bits))
  {
  }

  /** Below a byte, entries are packed from the low end: byte p is the number whose digits are its entries. */
  lemma PackedFromLowEnd(block: seq<byte>, bits: nat, p: nat)
    requires SubWidth(bits) && p < |block|
    ensures block[p] == Digits(EntriesOf(block, bits, p), Values(bits))
  {
    hide Field, Digits, Room;
    var n := Capacity(1, bits);
    forall k | 0 <= k < n
      ensures Entry(block, bits, p * n + k) == Field(block[p], bits, k)
    {
      assert Offset(bits, p * n + k) == p && Position(bits, p * n + k) == k;
    }
    assert EntriesOf(block, bits, p) == FieldsOf(block[p], bits, n);
    ByteRoom(bits);
    FieldsMake(block[p], bits, n);
  }

  lemma ByteRoom(bits: nat)
    requires SubWidth(bits)
    ensures Room(bits, Capacity(1, bits)) == 256
  {
    assert Room(1, 4) == 16 && Room(1, 6) == 64 && Room(2, 2) == 16;
  }

  /** From a byte on, an entry has its high byte first. */
  lemma HighByteFirst(block: seq<byte>, bits: nat, idx: nat, j: nat)
    requires Supported(bits) && !SubWidth(bits) && idx < Capacity(|block|, bits) && j < bits / 8
    ensures idx * (bits / 8) + j < |block|
    ensures block[idx * (bits / 8) + j] == Entry(block, bits, idx) / Pow256(bits / 8 - 1 - j) % 256
  {
    hide FromBE, Pow256;
    var at, n := Offset(bits, idx), Span(bits);
    EntryInside(|block|, bits, idx);
    assert n == bits / 8 && at == idx * n;
    ByteOfNumber(block[at..at + n], j);
    assert block[at + j] == block[at..at + n][j];
  }
}
