/** Where the bytes of an image belong: header word, L1 table, L2 tables, refcount blocks, or none of them. */
module ImageBytes {
  import opened Bytes
  import opened Options
  import opened FreeClusters
  import opened Qcow2Metadata
  import opened Corruptor

  /** Entry k of the refcount block of slot s, whether or not it stands for a cluster of the file. */
  function BlockCount(f: seq<byte>, h: Header, s: nat, k: nat): nat
    requires WellFormed(f, h) && s < SlotCount(|f|, h) && BlockAt(f, h, s) != 0 && k < h.PerBlock()
  {
    GetBE(f, BlockAt(f, h, s) + 2 * k, 2)
  }

  lemma CountOfBlock(f: seq<byte>, h: Header, c: nat)
    requires WellFormed(f, h) && c < Clusters(|f|, h) && HasBlock(f, h, c)
    ensures StoredCount(f, h, c) == BlockCount(f, h, Slot(|f|, h, c), Place(h, c))
  {
    hide GetBE, Clusters, SlotCount, BlockAt, TableAt, Slot, OwnCluster;
  }

  ghost predicate InBlocks(f: seq<byte>, h: Header, p: nat)
    requires TablesReadable(f, h)
  {
    exists s :: 0 <= s < SlotCount(|f|, h) && BlockAt(f, h, s) != 0 &&
      BlockAt(f, h, s) <= p < BlockAt(f, h, s) + h.ClusterSize()
  }

  ghost predicate InTables(f: seq<byte>, h: Header, p: nat)
    requires TablesReadable(f, h)
  {
    exists i :: 0 <= i < h.l1Size && TableAt(f, h, i) != 0 &&
      TableAt(f, h, i) <= p < TableAt(f, h, i) + h.ClusterSize()
  }

  predicate InL1(h: Header, p: nat) {
    h.l1Offset <= p < h.l1Offset + 8 * h.l1Size
  }

  /** The word with the incompatible features of a version 3 header. */
  predicate InFeatures(p: nat) {
    72 <= p < 80
  }

  ghost predicate KeptOutsideBlocks(f: seq<byte>, g: seq<byte>, h: Header)
    requires TablesReadable(f, h)
  {
    |g| == |f| && forall p :: 0 <= p < |f| && !InBlocks(f, h, p) ==> g[p] == f[p]
  }

  ghost predicate KeptOutsideTables(f: seq<byte>, g: seq<byte>, h: Header)
    requires TablesReadable(f, h)
  {
    |g| == |f| && forall p :: 0 <= p < |f| && !InL1(h, p) && !InTables(f, h, p) ==> g[p] == f[p]
  }

  /** What a repair may touch: the features word, both levels of tables and the refcount blocks. */
  ghost predicate Touchable(f: seq<byte>, h: Header, p: nat)
    requires TablesReadable(f, h)
  {
    InFeatures(p) || InL1(h, p) || InTables(f, h, p) || InBlocks(f, h, p)
  }

  ghost predicate KeptElsewhere(f: seq<byte>, g: seq<byte>, h: Header)
    requires TablesReadable(f, h)
  {
    |g| == |f| && forall p :: 0 <= p < |f| && !Touchable(f, h, p) ==> g[p] == f[p]
  }

  /** Tables at the same places take up the same bytes. */
  lemma SameRegions(f: seq<byte>, g: seq<byte>, h: Header, p: nat)
    requires SameTables(f, g, h) && TablesReadable(f, h) && TablesReadable(g, h)
    ensures InBlocks(g, h, p) <==> InBlocks(f, h, p)
    ensures InTables(g, h, p) <==> InTables(f, h, p)
    ensures Touchable(g, h, p) <==> Touchable(f, h, p)
  {
    hide WellFormed, Clusters, SlotCount, TableAt, BlockAt, Pow2;
  }

  // ----- every block entry -----

  ghost predicate SameBlocks(f: seq<byte>, g: seq<byte>, h: Header)
    requires SameTables(f, g, h) && TablesReadable(f, h)
  {
    forall s, k :: 0 <= s < SlotCount(|f|, h) && BlockAt(f, h, s) != 0 && 0 <= k < h.PerBlock() ==>
      BlockCount(g, h, s, k) == BlockCount(f, h, s, k)
  }

  /** A change that no refcount block meets leaves every entry of every block alone. */
  lemma BlocksOutside(f: seq<byte>, g: seq<byte>, h: Header, at: nat, n: nat)
    requires SameTables(f, g, h) && TablesReadable(f, h) && ChangedOnly(f, g, at, n)
    requires forall s :: 0 <= s < SlotCount(|f|, h) && BlockAt(f, h, s) != 0 ==>
               Apart(at, n, BlockAt(f, h, s), h.ClusterSize())
    ensures SameBlocks(f, g, h)
  {
    hide GetBE, Clusters, SlotCount, TableAt, BlockAt, Pow2;
    forall s, k | 0 <= s < SlotCount(|f|, h) && BlockAt(f, h, s) != 0 && 0 <= k < h.PerBlock()
      ensures BlockCount(g, h, s, k) == BlockCount(f, h, s, k)
    {
      assert OwnCluster(f, h, BlockAt(f, h, s));
      FieldKept(f, g, at, n, BlockAt(f, h, s) + 2 * k, 2);
    }
  }

  // ----- fields and bytes -----

  /** Equal numbers are equal bytes. */
  lemma SameField(f: seq<byte>, g: seq<byte>, off: nat, n: nat)
    requires off + n <= |f| == |g| && GetBE(f, off, n) == GetBE(g, off, n)
    ensures f[off..off + n] == g[off..off + n]
  {
    BEInverse(f[off..off + n]);
    BEInverse(g[off..off + n]);
  }

  /** The field of n bytes that holds byte p of an area made of such fields. */
  lemma FieldOf(f: seq<byte>, g: seq<byte>, at: nat, n: nat, p: nat)
    requires n > 0 && at <= p < |f| == |g| && at + Times((p - at) / n, n) + n <= |f|
    requires GetBE(f, at + Times((p - at) / n, n), n) == GetBE(g, at + Times((p - at) / n, n), n)
    ensures f[p] == g[p]
  {
    hide GetBE, Times;
    var off := at + Times((p - at) / n, n);
    WholeAndRest(p - at, n);
    SameField(f, g, off, n);
    assert f[p] == f[off..off + n][p - off] && g[p] == g[off..off + n][p - off];
  }

  lemma L1Byte(f: seq<byte>, g: seq<byte>, h: Header, p: nat)
    requires TablesReadable(f, h) && |g| == |f| && InL1(h, p)
    requires forall i :: 0 <= i < h.l1Size ==> Word(g, h.l1Offset + 8 * i) == Word(f, h.l1Offset + 8 * i)
    ensures g[p] == f[p]
  {
    hide GetBE, Pow2, Clusters, SlotCount;
    var i := (p - h.l1Offset) / 8;
    assert Word(g, h.l1Offset + 8 * i) == Word(f, h.l1Offset + 8 * i);
    FieldOf(f, g, h.l1Offset, 8, p);
  }

  lemma TableByte(f: seq<byte>, g: seq<byte>, h: Header, i: nat, p: nat)
    requires SameTables(f, g, h) && TablesReadable(f, h) && i < h.l1Size && TableAt(f, h, i) != 0
    requires TableAt(f, h, i) <= p < TableAt(f, h, i) + h.ClusterSize() && p < |f|
    requires forall k :: 0 <= k < h.PerTable() ==> L2Entry(g, h, i, k) == L2Entry(f, h, i, k)
    ensures g[p] == f[p]
  {
    hide GetBE, Pow2, Clusters, SlotCount, TableAt, BlockAt;
    var at := TableAt(f, h, i);
    assert OwnCluster(f, h, at);
    Pow2At9(h.clusterBits);
    var k := (p - at) / 8;
    assert L2Entry(g, h, i, k) == L2Entry(f, h, i, k);
    FieldOf(f, g, at, 8, p);
  }

  lemma BlockByte(f: seq<byte>, g: seq<byte>, h: Header, s: nat, p: nat)
    requires SameTables(f, g, h) && TablesReadable(f, h) && s < SlotCount(|f|, h) && BlockAt(f, h, s) != 0
    requires BlockAt(f, h, s) <= p < BlockAt(f, h, s) + h.ClusterSize() && p < |f|
    requires forall k :: 0 <= k < h.PerBlock() ==> BlockCount(g, h, s, k) == BlockCount(f, h, s, k)
    ensures g[p] == f[p]
  {
    hide GetBE, Pow2, Clusters, SlotCount, TableAt, BlockAt;
    var at := BlockAt(f, h, s);
    assert OwnCluster(f, h, at);
    Pow2At9(h.clusterBits);
    var k := (p - at) / 2;
    assert BlockCount(g, h, s, k) == BlockCount(f, h, s, k);
    FieldOf(f, g, at, 2, p);
  }

  ghost predicate SameL1(f: seq<byte>, g: seq<byte>, h: Header)
    requires TablesReadable(f, h) && |g| == |f|
  {
    forall i :: 0 <= i < h.l1Size ==> Word(g, h.l1Offset + 8 * i) == Word(f, h.l1Offset + 8 * i)
  }

  /** Every L2 entry reads the same. */
  ghost predicate SameEntries(f: seq<byte>, g: seq<byte>, h: Header)
    requires WellFormed(f, h) && WellFormed(g, h)
  {
    forall i, k :: 0 <= i < h.l1Size && 0 <= k < h.PerTable() ==> L2Entry(g, h, i, k) == L2Entry(f, h, i, k)
  }

  /** Two images with the same tables are the same bytes exactly if all fields and all other bytes agree. */
  lemma SameBytes(f: seq<byte>, g: seq<byte>, h: Header)
    requires SameTables(f, g, h) && TablesReadable(f, h) && KeptElsewhere(f, g, h)
    ensures g == f <==>
            SameL1(f, g, h) && SameEntries(f, g, h) && SameBlocks(f, g, h) && GetBE(g, 72, 8) == GetBE(f, 72, 8)
  {
    hide WellFormed, GetBE, Pow2, Clusters, SlotCount, TableAt, BlockAt, L2Entry, BlockCount, Word;
    if SameL1(f, g, h) && SameEntries(f, g, h) && SameBlocks(f, g, h) && GetBE(g, 72, 8) == GetBE(f, 72, 8) {
      forall p | 0 <= p < |f|
        ensures g[p] == f[p]
      {
        ByteAgrees(f, g, h, p);
      }
    }
  }

  lemma ByteAgrees(f: seq<byte>, g: seq<byte>, h: Header, p: nat)
    requires SameTables(f, g, h) && TablesReadable(f, h) && KeptElsewhere(f, g, h) && p < |f|
    requires SameL1(f, g, h) && SameEntries(f, g, h) && SameBlocks(f, g, h) && GetBE(g, 72, 8) == GetBE(f, 72, 8)
    ensures g[p] == f[p]
  {
    hide WellFormed, GetBE, Pow2, Clusters, SlotCount, TableAt, BlockAt, L2Entry, BlockCount, Word;
    if InFeatures(p) {
      SameField(g, f, 72, 8);
      assert f[p] == f[72..80][p - 72] && g[p] == g[72..80][p - 72];
    } else if InL1(h, p) {
      L1Byte(f, g, h, p);
    } else if InTables(f, h, p) {
      var i :| 0 <= i < h.l1Size && TableAt(f, h, i) != 0 &&
        TableAt(f, h, i) <= p < TableAt(f, h, i) + h.ClusterSize();
      TableByte(f, g, h, i, p);
    } else if InBlocks(f, h, p) {
      var s :| 0 <= s < SlotCount(|f|, h) && BlockAt(f, h, s) != 0 &&
        BlockAt(f, h, s) <= p < BlockAt(f, h, s) + h.ClusterSize();
      BlockByte(f, g, h, s, p);
    }
  }
}
