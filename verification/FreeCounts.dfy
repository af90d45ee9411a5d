/** The clusters that the comparator takes for free are those whose stored count is zero. */
module FreeCounts {
  import opened Bytes
  import opened Options
  import opened FreeClusters
  import opened Qcow2Metadata
  import opened Corruptor
  import opened ImageBytes
  import opened FlagPass
  import opened RepairTiers
  import opened SampleImage
  import opened CompareImages

  /** Version 2, or a later version with 16-bit counts. */
  predicate SixteenBit(f: seq<byte>)
    requires |f| >= 104
  {
    GetBE(f, 4, 4) >= 3 ==> GetBE(f, 96, 4) == 4
  }

  /** A refcount table that covers the file, with block offsets free of reserved bits. */
  predicate PlainTable(f: seq<byte>, h: Header)
    requires TablesReadable(f, h)
  {
    && 9 <= h.clusterBits <= 21 && h.tableOffset > 0 && SlotCount(|f|, h) == Times(h.tableClusters, h.PerTable())
    && forall s :: 0 <= s < SlotCount(|f|, h) ==> MaskOffset(BlockAt(f, h, s)) == BlockAt(f, h, s)
  }

  function GeometryOf(h: Header): Geometry {
    Geometry(h.clusterBits, h.tableOffset, h.tableClusters)
  }

  lemma SameSizes(f: seq<byte>, h: Header)
    requires TablesReadable(f, h) && PlainTable(f, h)
    ensures var g := GeometryOf(h);
            && g.ClusterSize() == h.ClusterSize() && g.PerBlock() == h.PerBlock() && Slots(g) == SlotCount(|f|, h)
            && TotalClusters(g, |f|) == Clusters(|f|, h) && g.tableOffset + g.TableSize() <= |f|
  {
    hide Pow2, MaskOffset, BlockAt, Clusters;
    Pow2At9(h.clusterBits);
    var cs := h.ClusterSize();
    MulAssoc(h.tableClusters, 8, h.PerTable());
    MulAssoc(8, h.tableClusters, h.PerTable());
    assert Times(h.tableClusters, h.PerTable()) * 8 == h.tableClusters * cs;
    SameTotal(|f|, h);
  }

  lemma SameTotal(size: nat, h: Header)
    ensures TotalClusters(GeometryOf(h), size) == Clusters(size, h)
  {
    hide Pow2;
  }

  /** Which well-formed headers the walk takes. */
  lemma HeaderTaken(f: seq<byte>, h: Header)
    requires TablesReadable(f, h) && PlainTable(f, h) && ReadHeader(f) == Some(h)
    ensures ParseHeader(f) == if SixteenBit(f) then Some(GeometryOf(h)) else None
  {
    hide Pow2, FromBE, MaskOffset, BlockAt, Clusters, SlotCount, Slots, TotalClusters;
    SameSizes(f, h);
    var header := f[..104];
    assert header[..4] == f[..4] && header[4..8] == f[4..8] && header[20..24] == f[20..24];
    assert header[48..56] == f[48..56] && header[56..60] == f[56..60] && header[96..100] == f[96..100];
  }

  lemma TwoZeros(f: seq<byte>, at: nat)
    requires at + 2 <= |f|
    ensures GetBE(f, at, 2) == 0 <==> f[at] == 0 && f[at + 1] == 0
  {
    var s := f[at..at + 2];
    assert FromBE(s[..1]) == s[0];
  }

  lemma ZeroIsFree(f: seq<byte>, h: Header, c: nat)
    requires WellFormed(f, h) && PlainTable(f, h) && c < Clusters(|f|, h)
    ensures var g := GeometryOf(h);
            g.tableOffset + g.TableSize() <= |f| && (IsFree(f, g, c) <==> StoredCount(f, h, c) == 0)
  {
    hide Pow2, FromBE, MaskOffset, Clusters, SlotCount, Slots, TotalClusters, TableAt, Geometry.TableSize,
      Geometry.PerBlock, Geometry.ClusterSize;
    SameSizes(f, h);
    var g, s := GeometryOf(h), Slot(|f|, h, c);
    assert BlockOffset(f, g, s) == BlockAt(f, h, s);
    if HasBlock(f, h, c) {
      TwoZeros(f, CountAt(f, h, c));
    }
  }

  lemma NoBadSlot(f: seq<byte>, h: Header, s: nat)
    requires WellFormed(f, h) && PlainTable(f, h)
    ensures var g := GeometryOf(h); g.tableOffset + g.TableSize() <= |f| && !BadSlot(f, g, s)
  {
    hide Pow2, FromBE, MaskOffset, Clusters, SlotCount, Slots, TotalClusters, TableAt, Geometry.TableSize,
      Geometry.PerBlock, Geometry.ClusterSize;
    SameSizes(f, h);
    if s < SlotCount(|f|, h) {
      assert BlockOffset(f, GeometryOf(h), s) == BlockAt(f, h, s);
    }
  }

  /** On a well-formed image the walk finds the clusters with count zero, exactly if the counts have 16 bits. */
  lemma FreeIsZeroCount(f: seq<byte>, h: Header)
    requires WellFormed(f, h) && PlainTable(f, h)
    ensures FreeOf(f) ==
            if SixteenBit(f)
            then Some((h.ClusterSize(), set c | 0 <= c < Clusters(|f|, h) && StoredCount(f, h, c) == 0))
            else None
  {
    hide Pow2, GetBE, MaskOffset, Clusters, SlotCount, Slots, TotalClusters, TableAt, BlockAt, Geometry.TableSize,
      Geometry.PerBlock, Geometry.ClusterSize, IsFree, StoredCount, BadSlot, OwnCluster, Apart, PlainTable;
    SizesFor(f, h);
    HeaderTaken(f, h);
    if SixteenBit(f) {
      var g := GeometryOf(h);
      forall s: nat
        ensures !BadSlot(f, g, s)
      {
        NoBadSlot(f, h, s);
      }
      forall c: nat | c < Clusters(|f|, h)
        ensures IsFree(f, g, c) <==> StoredCount(f, h, c) == 0
      {
        ZeroIsFree(f, h, c);
      }
      assert (set c | 0 <= c < TotalClusters(g, |f|) && IsFree(f, g, c)) ==
             (set c | 0 <= c < Clusters(|f|, h) && StoredCount(f, h, c) == 0);
    }
  }

  lemma SizesFor(f: seq<byte>, h: Header)
    requires WellFormed(f, h) && PlainTable(f, h)
    ensures var g := GeometryOf(h);
            && g.clusterBits >= 9 && g.tableOffset + g.TableSize() <= |f| && ReadHeader(f) == Some(h)
            && g.ClusterSize() == h.ClusterSize() && TotalClusters(g, |f|) == Clusters(|f|, h)
  {
    hide TableAt, BlockAt, OwnCluster, Apart, Clusters, SlotCount, MaskOffset, Slots, TotalClusters;
    SameSizes(f, h);
  }

  /** What the comparator forgives: differences in clusters whose count is zero on both sides. */
  lemma DeadIsZeroCount(a: seq<byte>, h: Header, b: seq<byte>, k: Header)
    requires WellFormed(a, h) && PlainTable(a, h) && SixteenBit(a)
    requires WellFormed(b, k) && PlainTable(b, k) && SixteenBit(b) && h.ClusterSize() == k.ClusterSize()
    ensures DeadOf(a, b).Some? && DeadOf(a, b).value.0 == h.ClusterSize()
    ensures forall c: nat :: c in DeadOf(a, b).value.1 <==>
              && c < Clusters(|a|, h) && StoredCount(a, h, c) == 0
              && c < Clusters(|b|, k) && StoredCount(b, k, c) == 0
  {
    hide WellFormed, PlainTable, Clusters, StoredCount, FreeOf, GetBE;
    FreeIsZeroCount(a, h);
    FreeIsZeroCount(b, k);
  }

  // ----- a version 3 image with a free cluster -----

  /** The small image without a count for its last cluster, with a version 3 header. */
  function ThirdVersion(): (f: seq<byte>)
    ensures |f| == SAMPLE_SIZE
  {
    var f := Sample(NO_EXTENSION, true);
    Splice(Splice(Splice(f, 1036, BE(2, 0)), 4, BE(4, 3)), 96, BE(4, 4))
  }

  lemma CountGone()
    ensures WellFormed(Sample(NO_EXTENSION, true), H) && Clusters(SAMPLE_SIZE, H) == 7
    ensures HasBlock(Sample(NO_EXTENSION, true), H, 6) && CountAt(Sample(NO_EXTENSION, true), H, 6) == 1036
  {
    hide Sample, WellFormed, SlotCount, Clusters, BlockAt, GetBE;
    StoredIs(NO_EXTENSION, 6);
    Tables(NO_EXTENSION, true);
    Sizes();
    assert Slot(SAMPLE_SIZE, H, 6) == 0 && Place(H, 6) == 6;
  }

  lemma TopIsApart()
    ensures TablesReadable(Sample(NO_EXTENSION, true), H) && TopApart(Sample(NO_EXTENSION, true), H)
  {
    hide Sample, SlotCount;
    Sizes();
    Tables(NO_EXTENSION, true);
  }

  /** Its tables are those of the small image, and only cluster 6 has no count. */
  lemma ThirdCounts()
    ensures WellFormed(ThirdVersion(), H) && TablesReadable(ThirdVersion(), H) && Clusters(SAMPLE_SIZE, H) == 7
    ensures SameTables(Sample(NO_EXTENSION, true), ThirdVersion(), H)
    ensures forall c :: 0 <= c < 7 ==> StoredCount(ThirdVersion(), H, c) == if c == 6 then 0 else 1
  {
    hide Sample, WellFormed, SlotCount, Clusters, BlockAt, TableAt, GetBE, Splice, BE, StoredCount, TopApart, Pow2,
      L2Entry, Slot;
    var f := Sample(NO_EXTENSION, true);
    CountGone();
    TopIsApart();
    var g := Splice(f, 1036, BE(2, 0));
    assert g == WithCount(f, H, 6, 0);
    CountWritten(f, H, 6, 0);
    Sizes();
    SameTopApartness(f, g);
    HeaderPatched(g, H, 4, BE(4, 3));
    HeaderPatched(Splice(g, 4, BE(4, 3)), H, 96, BE(4, 4));
    forall c | 0 <= c < 7
      ensures StoredCount(f, H, c) == 1
    {
      StoredIs(NO_EXTENSION, c);
    }
  }

  lemma SameTopApartness(f: seq<byte>, g: seq<byte>)
    requires SameTables(f, g, H) && TablesReadable(f, H) && TopApart(f, H)
    ensures TablesReadable(g, H) && TopApart(g, H)
  {
    hide TableAt, BlockAt, OwnCluster, SlotCount;
  }

  lemma ThirdHeader()
    ensures GetBE(ThirdVersion(), 4, 4) == 3 && GetBE(ThirdVersion(), 96, 4) == 4
  {
    hide Sample, GetBE, BE;
    var f := Splice(Sample(NO_EXTENSION, true), 1036, BE(2, 0));
    WidthLimits();
    GetBEPut(f, 4, 4, 3);
    var g := Splice(f, 4, BE(4, 3));
    GetBEPut(g, 96, 4, 4);
    assert ChangedOnly(g, Splice(g, 96, BE(4, 4)), 96, 4);
    FieldKept(g, Splice(g, 96, BE(4, 4)), 96, 4, 4, 4);
  }

  lemma ThirdTable(f: seq<byte>)
    requires |f| == SAMPLE_SIZE && SameTables(Sample(NO_EXTENSION, true), f, H)
    ensures WellFormed(f, H) && PlainTable(f, H)
  {
    hide Sample, WellFormed, SlotCount, Clusters, BlockAt, TableAt, GetBE, Pow2;
    Sizes();
    Tables(NO_EXTENSION, true);
    Readable(NO_EXTENSION, true);
    assert MaskOffset(1024) == 1024 && MaskOffset(0) == 0;
    SameTopReadable(f);
  }

  lemma SameTopReadable(f: seq<byte>)
    requires SameTables(Sample(NO_EXTENSION, true), f, H)
    ensures TablesReadable(f, H)
  {
    hide TableAt, BlockAt, OwnCluster, SlotCount, Sample;
  }

  /** Two version 3 images that differ in one byte of a cluster that is free in both. */
  lemma FreeByteDiffers(b: seq<byte>)
    requires b == Splice(ThirdVersion(), 3072, [1])
    ensures DeadOf(ThirdVersion(), b) == Some((512, {6}))
    ensures forall p: nat :: !Differs(ThirdVersion(), b, DeadOf(ThirdVersion(), b), p)
  {
    hide ThirdVersion, WellFormed, SlotCount, Clusters, BlockAt, TableAt, GetBE, Splice, StoredCount, PlainTable, Pow2,
      FreeOf, DeadOf;
    var a := ThirdVersion();
    ThirdCounts();
    ThirdHeader();
    ThirdTable(a);
    Sizes();
    DataPatched(a, b);
    ThirdTable(b);
    DeadIsZeroCount(a, H, b, H);
    assert DeadOf(a, b).value.1 == {6};
  }

  lemma DataPatched(a: seq<byte>, b: seq<byte>)
    requires a == ThirdVersion() && b == Splice(a, 3072, [1])
    ensures |b| == SAMPLE_SIZE && SameTables(Sample(NO_EXTENSION, true), b, H)
    ensures GetBE(b, 4, 4) == 3 && GetBE(b, 96, 4) == 4 && Clusters(SAMPLE_SIZE, H) == 7
    ensures forall c :: 0 <= c < 7 ==> StoredCount(b, H, c) == if c == 6 then 0 else 1
  {
    hide ThirdVersion, WellFormed, SlotCount, Clusters, BlockAt, TableAt, GetBE, Splice, StoredCount, Pow2, Sample;
    ThirdCounts();
    ThirdHeader();
    Sizes();
    assert ChangedOnly(a, b, 3072, 1);
    FieldKept(a, b, 3072, 1, 4, 4);
    FieldKept(a, b, 3072, 1, 96, 4);
    TablesFarAway(a, b);
  }

  /** A change in the last cluster meets neither table nor block. */
  lemma TablesFarAway(a: seq<byte>, b: seq<byte>)
    requires |a| == SAMPLE_SIZE && SameTables(Sample(NO_EXTENSION, true), a, H) && ChangedOnly(a, b, 3072, 1)
    ensures SameTables(Sample(NO_EXTENSION, true), b, H) && Clusters(SAMPLE_SIZE, H) == 7
    ensures forall c :: 0 <= c < 7 ==> StoredCount(b, H, c) == StoredCount(a, H, c)
  {
    hide SlotCount, Clusters, BlockAt, TableAt, GetBE, Pow2, Sample;
    Sizes();
    Tables(NO_EXTENSION, true);
    SameTopReadable(a);
    assert OwnCluster(a, H, 3072);
    TablesKept(a, b, H, 3072, 3072, 1);
    forall c | 0 <= c < 7
      ensures StoredCount(b, H, c) == StoredCount(a, H, c)
    {
      if HasBlock(a, H, c) {
        FieldKept(a, b, 3072, 1, CountAt(a, H, c), 2);
      }
    }
  }

  /** The comparator accepts them. */
  method FreeByteForgiven() returns (v: CompareImages.Verdict)
    ensures v == Identical
  {
    hide ThirdVersion, DeadOf, Splice;
    var a := ThirdVersion();
    var b := Splice(a, 3072, [1]);
    FreeByteDiffers(b);
    v := Compare(a, b);
  }
}
