/** A refcount block on a cluster that an entry maps, which the walk does not count as a corruption. */
module MappedBlock {
  import opened Bytes
  import opened Options
  import opened FreeClusters
  import opened Qcow2Metadata
  import opened Corruptor
  import opened CorruptionClasses
  import opened ImageBytes
  import opened ClusterBitmap
  import opened CheckWalk
  import opened WalkMarks
  import opened FlagPass
  import opened RepairTiers
  import opened RepairOutcome
  import opened RepairBytes
  import opened CheckSafety
  import opened SampleImage
  import CopiedFlags

  /** The small image with a second refcount block, on the cluster of the second entry. */
  function Shared(): (g: seq<byte>)
    ensures ChangedOnly(Sample(NO_EXTENSION, true), g, 520, 8)
  {
    Splice(Sample(NO_EXTENSION, true), 520, BE(8, 3072))
  }

  /** The header is that of the small image. */
  lemma SharedHeader()
    ensures ReadHeader(Shared()) == Some(H) && Version(Shared()) == 2 && Snapshots(Shared()) == 0
    ensures GetBE(Shared(), 24, 8) == 1024
  {
    hide Sample, Shared, GetBE;
    var f, g := Sample(NO_EXTENSION, true), Shared();
    HeaderFields(NO_EXTENSION, true);
    VersionIs(NO_EXTENSION, true);
    NoSnapshots(NO_EXTENSION, true);
    assert g[..4] == f[..4];
    FieldKept(f, g, 520, 8, 4, 4);
    FieldKept(f, g, 520, 8, 20, 4);
    FieldKept(f, g, 520, 8, 24, 8);
    FieldKept(f, g, 520, 8, 36, 4);
    FieldKept(f, g, 520, 8, 40, 8);
    FieldKept(f, g, 520, 8, 48, 8);
    FieldKept(f, g, 520, 8, 56, 4);
    FieldKept(f, g, 520, 8, 60, 4);
  }

  /** So are its L1 table and all of its refcount table but slot 1. */
  lemma SharedTables()
    ensures TablesReadable(Shared(), H) && Word(Shared(), 1536) == COPIED + 2048 && TableAt(Shared(), H, 0) == 2048
    ensures forall s :: 0 <= s < SlotCount(SAMPLE_SIZE, H) ==>
              BlockAt(Shared(), H, s) == if s == 0 then 1024 else if s == 1 then 3072 else 0
  {
    hide Sample, GetBE, SlotCount, MaskOffset, BE;
    var f, g := Sample(NO_EXTENSION, true), Shared();
    Sizes();
    Tables(NO_EXTENSION, true);
    FieldKept(f, g, 520, 8, 1536, 8);
    forall s | 0 <= s < SlotCount(SAMPLE_SIZE, H)
      ensures BlockAt(g, H, s) == if s == 0 then 1024 else if s == 1 then 3072 else 0
    {
      if s == 1 {
        WidthLimits();
        GetBEPut(f, 520, 8, 3072);
      } else {
        FieldKept(f, g, 520, 8, 512 + 8 * s, 8);
        assert BlockAt(f, H, s) == if s == 0 then 1024 else 0;
      }
    }
  }

  lemma SharedFormed()
    ensures WellFormed(Shared(), H) && TopApart(Shared(), H) && BlocksAligned(Shared(), H)
  {
    hide Shared, GetBE, SlotCount, TableAt, BlockAt, ReadHeader, Word;
    Sizes();
    SharedHeader();
    SharedTables();
  }

  lemma SharedEntries(k: nat)
    requires k < H.PerTable()
    ensures WellFormed(Shared(), H) && WellFormed(Sample(NO_EXTENSION, true), H)
    ensures L2Entry(Shared(), H, 0, k) == L2Entry(Sample(NO_EXTENSION, true), H, 0, k)
  {
    hide Sample, Shared, GetBE, SlotCount, WellFormed, TableAt;
    Sizes();
    SharedFormed();
    SharedTables();
    Formed(NO_EXTENSION, true);
    Tables(NO_EXTENSION, true);
    FieldKept(Sample(NO_EXTENSION, true), Shared(), 520, 8, 2048 + 8 * k, 8);
  }

  // ----- the walk -----

  lemma {:induction false} SameEntriesSeen(s: Scan, cap: nat, f: seq<byte>, g: seq<byte>, h: Header, i: nat, n: nat)
    requires WellFormed(f, h) && WellFormed(g, h) && |f| == |g| && h.clusterBits <= 21 && i < h.l1Size
    requires n <= h.PerTable()
    requires forall k :: 0 <= k < n ==> L2Entry(g, h, i, k) == L2Entry(f, h, i, k)
    ensures VisitEntries(s, cap, g, h, i, n) == VisitEntries(s, cap, f, h, i, n)
  {
    hide WellFormed, L2Entry, VisitEntry;
    AtLeastNine(f, h);
    if n > 0 {
      SameEntriesSeen(s, cap, f, g, h, i, n - 1);
    }
  }

  /** The second block covers no L2 table, so that the walk over the tables does not come across it. */
  lemma SameTreeSeen(s: Scan, cap: nat)
    ensures WellFormed(Shared(), H) && WellFormed(Sample(NO_EXTENSION, true), H)
    ensures VisitSlots(s, cap, Shared(), H, 1) == VisitSlots(s, cap, Sample(NO_EXTENSION, true), H, 1)
  {
    hide Sample, Shared, WellFormed, TableAt, BlockAt, L2Entry, Clusters, SlotCount, VisitEntries, GetBE;
    var f, g := Sample(NO_EXTENSION, true), Shared();
    SharedFormed();
    SharedTables();
    Formed(NO_EXTENSION, true);
    Tables(NO_EXTENSION, true);
    Sizes();
    ClusterIs(2048);
    forall k | 0 <= k < H.PerTable()
      ensures L2Entry(g, H, 0, k) == L2Entry(f, H, 0, k)
    {
      SharedEntries(k);
    }
    assert CoveringBlock(f, H, 0) == CoveringBlock(g, H, 0) == 1024;
    var t := PutBlock(s.Claim(cap, ClusterOf(H, 2048)), cap, H, 1024);
    SameEntriesSeen(t, cap, f, g, H, 0, H.PerTable());
    assert VisitSlots(s, cap, g, H, 0) == s == VisitSlots(s, cap, f, H, 0);
  }

  lemma SharedFound()
    ensures WellFormed(Shared(), H)
    ensures Found(Shared(), H).corruptions == 0 && !Found(Shared(), H).compressed
  {
    hide Sample, Shared, WellFormed, Clusters, SlotCount, VisitSlots, VisitBlocks, Start, Size, GetBE, Rows, Sound,
      Single;
    var f, g := Sample(NO_EXTENSION, true), Shared();
    var cap := 8 * Size(Clusters(|g|, H));
    SharedHeader();
    SharedFormed();
    SampleSound(NO_EXTENSION);
    SampleClean(NO_EXTENSION);
    CleanIsSingle(f, H);
    StartExact(cap, f, H, false);
    SlotsFine(Start(cap, H, false), cap, f, H, 1);
    SameTreeSeen(Start(cap, H, false), cap);
    RowsInTable(g, H);
    BlockMarks(VisitSlots(Start(cap, H, false), cap, g, H, 1), cap, g, H, Rows(|g|, H));
  }

  /** The gate of the all tier lets the image through. */
  lemma GateMissesBlock()
    ensures WellFormed(Shared(), H) && AllTierRuns(Shared(), H, Everything) && !BlocksUnmapped(Shared(), H)
  {
    hide Shared, WellFormed, Clusters, Found, GetBE, Rows, BlocksUnmapped;
    Sizes();
    SharedHeader();
    SharedFound();
    SharedMapped();
  }

  /** After the repair, two things refer to the cluster and its count is one: the image is not clean. */
  lemma NotCleanAfterRepair(r: seq<byte>, bits: seq<byte>)
    requires WellFormed(Shared(), H) && BitmapOf(Shared(), H, bits) && Whole(Shared(), r, H, bits)
    ensures !Clean(r, H)
  {
    hide Sample, Shared, WellFormed, Clusters, SlotCount, AllTierRuns, GetBE, Rows, BitmapOf, Whole, Clean, Placed,
      BlockAt, TopApart, BlocksAligned, L2Entry, Pow2;
    Sizes();
    SharedHeader();
    SharedFormed();
    SharedTables();
    GateMissesBlock();
    assert MAX_L1_ENTRIES <= Times(MAX_L1_ENTRIES, Times(64, 512));
    AllTierSafe(Shared(), r, H, bits, Everything);
  }

  lemma SharedMapped()
    ensures WellFormed(Shared(), H) && !BlocksUnmapped(Shared(), H)
  {
    hide Sample, Shared, WellFormed, Clusters, SlotCount, BlockAt, L2Entry, MaskOffset, Quotient;
    var f, g := Sample(NO_EXTENSION, true), Shared();
    Sizes();
    SharedFormed();
    SharedTables();
    SharedEntries(1);
    EntriesAre(NO_EXTENSION, true, 1);
    Mask(3072);
    ClusterIs(3072);
    assert 1 in BlockRefs(g, H, 6);
    assert (0, 1) in DataRefs(g, H, 6);
  }
}
