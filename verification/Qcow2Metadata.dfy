/** A qcow2 file's tables as seen by the corruptor: L1, L2 and 16-bit refcounts. */
module Qcow2Metadata {
  import opened Bytes
  import opened Options
  import opened FreeClusters

  const COPIED: nat := 0x8000_0000_0000_0000

  predicate Copied(entry: nat) {
    entry >= COPIED
  }

  function Cleared(entry: nat): nat {
    entry % COPIED
  }

  function Flagged(entry: nat): nat {
    if Copied(entry) then entry else entry + COPIED
  }

  /** Changing the flag changes neither the offset nor the width. */
  lemma FlagNotInMask(entry: nat)
    requires entry < U64
    ensures MaskOffset(Cleared(entry)) == MaskOffset(entry) && !Copied(Cleared(entry))
    ensures MaskOffset(Flagged(entry)) == MaskOffset(entry) && Copied(Flagged(entry)) && Flagged(entry) < U64
  {
    LowBitsKept(entry % COPIED);
    assert entry % COPIED == if entry < COPIED then entry else entry - COPIED;
  }

  lemma LowBitsKept(x: nat)
    ensures (x + COPIED) % OFFSET_BITS == x % OFFSET_BITS
  {
    assert COPIED == 128 * OFFSET_BITS;
  }

  lemma CopiedBelow(entry: nat)
    ensures Cleared(entry) < COPIED
  {
  }

  datatype Header = Header(clusterBits: nat, l1Size: nat, l1Offset: nat, tableOffset: nat, tableClusters: nat)
  {
    function ClusterSize(): nat { Pow2(clusterBits) }

    function PerBlock(): nat { ClusterSize() / 2 }

    /** Entries of an L2 table. */
    function PerTable(): nat { ClusterSize() / 8 }
  }

  function ReadHeader(f: seq<byte>): Option<Header> {
    if |f| < 104 || f[..4] != MAGIC then None
    else Some(Header(GetBE(f, 20, 4), GetBE(f, 36, 4), GetBE(f, 40, 8), GetBE(f, 48, 8), GetBE(f, 56, 4)))
  }

  function Word(f: seq<byte>, off: nat): nat
    requires off + 8 <= |f|
  {
    GetBE(f, off, 8)
  }

  function Quotient(a: nat, b: nat): nat
    requires b > 0
  {
    a / b
  }

  /** Clusters in a file of the given size, a partial last one included. */
  function Clusters(size: nat, h: Header): nat {
    Quotient(size + h.ClusterSize() - 1, h.ClusterSize())
  }

  /** Slots of the refcount table: those its clusters hold, and at least those that clusters of the file fall into. */
  function SlotCount(size: nat, h: Header): nat
    requires h.PerBlock() > 0
  {
    var needed, held := Clusters(size, h) / h.PerBlock() + 1, Times(h.tableClusters, h.PerTable());
    if held < needed then needed else held
  }

  predicate TablesReadable(f: seq<byte>, h: Header) {
    && h.clusterBits >= 9
    && h.PerBlock() > 0
    && 104 <= |f| && h.l1Offset + 8 * h.l1Size <= |f| && h.tableOffset + 8 * SlotCount(|f|, h) <= |f|
  }

  /** The L2 table of L1 slot i; zero if there is none. */
  function TableAt(f: seq<byte>, h: Header, i: nat): nat
    requires TablesReadable(f, h) && i < h.l1Size
  {
    MaskOffset(Word(f, h.l1Offset + 8 * i))
  }

  /** The refcount block of a slot; zero if there is none. */
  function BlockAt(f: seq<byte>, h: Header, s: nat): nat
    requires TablesReadable(f, h) && s < SlotCount(|f|, h)
  {
    Word(f, h.tableOffset + 8 * s)
  }

  predicate Apart(a: nat, n: nat, b: nat, m: nat) {
    a + n <= b || b + m <= a
  }

  /** A metadata cluster inside the file, clear of the header and of the two top-level tables. */
  predicate OwnCluster(f: seq<byte>, h: Header, at: nat)
    requires TablesReadable(f, h)
  {
    && at + h.ClusterSize() <= |f| && Apart(at, h.ClusterSize(), 0, 104)
    && Apart(at, h.ClusterSize(), h.l1Offset, 8 * h.l1Size)
    && Apart(at, h.ClusterSize(), h.tableOffset, 8 * SlotCount(|f|, h))
  }

  /** L2 tables and refcount blocks each have a cluster of their own. */
  predicate WellFormed(f: seq<byte>, h: Header) {
    && TablesReadable(f, h) && ReadHeader(f) == Some(h)
    && (forall i :: 0 <= i < h.l1Size && TableAt(f, h, i) != 0 ==> OwnCluster(f, h, TableAt(f, h, i)))
    && (forall s :: 0 <= s < SlotCount(|f|, h) && BlockAt(f, h, s) != 0 ==> OwnCluster(f, h, BlockAt(f, h, s)))
    && (forall i, k :: 0 <= i < k < h.l1Size && TableAt(f, h, i) != 0 && TableAt(f, h, k) != 0 ==>
          Apart(TableAt(f, h, i), h.ClusterSize(), TableAt(f, h, k), h.ClusterSize()))
    && (forall s, t :: 0 <= s < t < SlotCount(|f|, h) && BlockAt(f, h, s) != 0 && BlockAt(f, h, t) != 0 ==>
          Apart(BlockAt(f, h, s), h.ClusterSize(), BlockAt(f, h, t), h.ClusterSize()))
    && (forall i, s ::
          0 <= i < h.l1Size && 0 <= s < SlotCount(|f|, h) && TableAt(f, h, i) != 0 && BlockAt(f, h, s) != 0 ==>
            Apart(TableAt(f, h, i), h.ClusterSize(), BlockAt(f, h, s), h.ClusterSize()))
  }

  /** L2 entry j of L1 slot i; zero where there is no table. */
  function L2Entry(f: seq<byte>, h: Header, i: nat, j: nat): nat
    requires WellFormed(f, h) && i < h.l1Size && j < h.PerTable()
  {
    if TableAt(f, h, i) == 0 then 0 else Word(f, TableAt(f, h, i) + 8 * j)
  }

  function DataOffset(f: seq<byte>, h: Header, i: nat, j: nat): nat
    requires WellFormed(f, h) && i < h.l1Size && j < h.PerTable()
  {
    MaskOffset(L2Entry(f, h, i, j))
  }

  /** The refcount-table slot of cluster c, and its place in that slot's block. */
  function Slot(size: nat, h: Header, c: nat): (s: nat)
    requires h.PerBlock() > 0 && c < Clusters(size, h)
    ensures s < SlotCount(size, h)
  {
    DivMono(c, Clusters(size, h), h.PerBlock());
    c / h.PerBlock()
  }

  function Place(h: Header, c: nat): (k: nat)
    requires h.PerBlock() > 0
    ensures 2 * k + 2 <= h.ClusterSize()
  {
    c % h.PerBlock()
  }

  predicate HasBlock(f: seq<byte>, h: Header, c: nat)
    requires WellFormed(f, h) && c < Clusters(|f|, h)
  {
    BlockAt(f, h, Slot(|f|, h, c)) != 0
  }

  /** Where the count of cluster c is kept. */
  function CountAt(f: seq<byte>, h: Header, c: nat): (at: nat)
    requires WellFormed(f, h) && c < Clusters(|f|, h)
    ensures HasBlock(f, h, c) ==> at + 2 <= |f|
  {
    BlockAt(f, h, Slot(|f|, h, c)) + 2 * Place(h, c)
  }

  function StoredCount(f: seq<byte>, h: Header, c: nat): nat
    requires WellFormed(f, h) && c < Clusters(|f|, h)
  {
    if HasBlock(f, h, c) then GetBE(f, CountAt(f, h, c), 2) else 0
  }

  lemma DifferentPlace(size: nat, h: Header, c: nat, d: nat)
    requires h.PerBlock() > 0 && c < Clusters(size, h) && d < Clusters(size, h) && c != d
    ensures Slot(size, h, c) != Slot(size, h, d) || Place(h, c) != Place(h, d)
  {
    hide Clusters, Pow2, SlotCount;
    var p := h.PerBlock();
    assert c == c / p * p + c % p && d == d / p * p + d % p;
  }

  lemma CountsApart(f: seq<byte>, h: Header, c: nat, d: nat)
    requires WellFormed(f, h) && c < Clusters(|f|, h) && d < Clusters(|f|, h) && c != d
    requires HasBlock(f, h, c) && HasBlock(f, h, d)
    ensures Apart(CountAt(f, h, c), 2, CountAt(f, h, d), 2)
  {
    hide BlockAt, Slot, Place, Clusters, SlotCount, TableAt, OwnCluster;
    DifferentPlace(|f|, h, c, d);
  }

  lemma CountOutsideTables(f: seq<byte>, h: Header, i: nat, j: nat, c: nat)
    requires WellFormed(f, h) && c < Clusters(|f|, h) && i < h.l1Size && j < h.PerTable()
    requires HasBlock(f, h, c) && TableAt(f, h, i) != 0
    ensures Apart(CountAt(f, h, c), 2, TableAt(f, h, i) + 8 * j, 8)
  {
    hide BlockAt, Slot, Place, Clusters, SlotCount, TableAt, OwnCluster;
  }

  lemma EntriesApart(f: seq<byte>, h: Header, i: nat, j: nat, i': nat, j': nat)
    requires WellFormed(f, h) && i < h.l1Size && j < h.PerTable() && i' < h.l1Size && j' < h.PerTable()
    requires TableAt(f, h, i) != 0 && TableAt(f, h, i') != 0 && (i, j) != (i', j')
    ensures Apart(TableAt(f, h, i) + 8 * j, 8, TableAt(f, h, i') + 8 * j', 8)
  {
    hide BlockAt, Clusters, SlotCount, TableAt, OwnCluster;
  }
}
