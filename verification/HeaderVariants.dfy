/** Which headers the check accepts and which tier it runs, on a small image with one field or another changed. */
module HeaderVariants {
  import opened Bytes
  import opened Options
  import opened FreeClusters
  import opened Qcow2Metadata
  import opened Corruptor
  import opened CorruptionClasses
  import opened ImageBytes
  import opened ClusterBitmap
  import opened CheckWalk
  import opened WalkMarks
  import opened FlagPass
  import opened RepairTiers
  import opened RepairOutcome
  import opened SampleImage
  import CopiedFlags

  /** The small image with the given version, number of snapshots, features word and refcount order. */
  function Variant(version: nat, snapshots: nat, features: nat, order: nat): (f: seq<byte>)
    ensures |f| == SAMPLE_SIZE
  {
    var f := Sample(NO_EXTENSION, true);
    Splice(Splice(Splice(Splice(f, 4, BE(4, version)), 60, BE(4, snapshots)), 72, BE(8, features)), 96, BE(4, order))
  }

  lemma SampleTop()
    ensures WellFormed(Sample(NO_EXTENSION, true), H) && TablesReadable(Sample(NO_EXTENSION, true), H)
    ensures TopApart(Sample(NO_EXTENSION, true), H)
  {
    hide Sample, SlotCount, WellFormed;
    Sizes();
    Tables(NO_EXTENSION, true);
    Formed(NO_EXTENSION, true);
  }

  /** Tables, entries and counts are those of the small image. */
  lemma VariantKeeps(version: nat, snapshots: nat, features: nat, order: nat)
    ensures var f, g := Sample(NO_EXTENSION, true), Variant(version, snapshots, features, order);
            && SameTables(f, g, H) && TablesReadable(f, H) && TablesReadable(g, H) && TopApart(g, H)
            && SameEntries(f, g, H) && SameL1(f, g, H)
  {
    hide Sample, BE, Splice, WellFormed, TopApart, Clusters, SlotCount, StoredCount, L2Entry, TableAt, BlockAt, Word,
      Pow2;
    SampleTop();
    var f := Sample(NO_EXTENSION, true);
    HeaderPatched(f, H, 4, BE(4, version));
    var a := Splice(f, 4, BE(4, version));
    HeaderPatched(a, H, 60, BE(4, snapshots));
    var b := Splice(a, 60, BE(4, snapshots));
    HeaderPatched(b, H, 72, BE(8, features));
    HeaderPatched(Splice(b, 72, BE(8, features)), H, 96, BE(4, order));
  }

  lemma VariantFields(version: nat, snapshots: nat, features: nat, order: nat)
    requires version < U32 && snapshots < U32 && features < U64 && order < U32
    ensures var f := Variant(version, snapshots, features, order);
            && Version(f) == version && Snapshots(f) == snapshots && GetBE(f, 72, 8) == features
            && GetBE(f, 96, 4) == order && GetBE(f, 24, 8) == 1024
  {
    hide Sample, BE, GetBE;
    WidthLimits();
    var f := Sample(NO_EXTENSION, true);
    VersionIs(NO_EXTENSION, true);
    var a := Splice(f, 4, BE(4, version));
    var b := Splice(a, 60, BE(4, snapshots));
    var c := Splice(b, 72, BE(8, features));
    var d := Splice(c, 96, BE(4, order));
    GetBEPut(f, 4, 4, version);
    GetBEPut(a, 60, 4, snapshots);
    GetBEPut(b, 72, 8, features);
    GetBEPut(c, 96, 4, order);
    assert ChangedOnly(f, a, 4, 4) && ChangedOnly(a, b, 60, 4) && ChangedOnly(b, c, 72, 8) && ChangedOnly(c, d, 96, 4);
    FieldKept(f, a, 4, 4, 24, 8);
    FieldKept(a, b, 60, 4, 24, 8);
    FieldKept(b, c, 72, 8, 24, 8);
    FieldKept(c, d, 96, 4, 24, 8);
    FieldKept(a, b, 60, 4, 4, 4);
    FieldKept(b, c, 72, 8, 4, 4);
    FieldKept(c, d, 96, 4, 4, 4);
    FieldKept(b, c, 72, 8, 60, 4);
    FieldKept(c, d, 96, 4, 60, 4);
    FieldKept(c, d, 96, 4, 72, 8);
  }

  /** Versions 2 and 3 are accepted, the latter with features 0 to 4 and counts of up to 64 bits only. */
  lemma WhichAccepted(version: nat, snapshots: nat, features: nat, order: nat)
    requires version < U32 && snapshots < U32 && features < U64 && order < U32
    ensures Accepted(Variant(version, snapshots, features, order), H) <==>
            version == 2 || (version == 3 && features < 32 && order <= 6)
  {
    hide Variant, GetBE, Pow2;
    VariantFields(version, snapshots, features, order);
    Sizes();
    assert MAX_L1_ENTRIES <= Times(MAX_L1_ENTRIES, Times(64, 512));
  }

  lemma VariantSound(version: nat, snapshots: nat, features: nat, order: nat)
    ensures Sound(Variant(version, snapshots, features, order), H)
    ensures Single(Variant(version, snapshots, features, order), H)
  {
    hide Sample, Variant, WellFormed, TableAt, BlockAt, L2Entry, DataOffset, Word, Clusters, SlotCount, Rows, Sound,
      References, Pow2;
    var f, g := Sample(NO_EXTENSION, true), Variant(version, snapshots, features, order);
    VariantKeeps(version, snapshots, features, order);
    SampleSound(NO_EXTENSION);
    SampleClean(NO_EXTENSION);
    CleanIsSingle(f, H);
    SameOffsets(f, g, H);
    SoundThrough(f, g, H);
    forall c | 0 <= c < Clusters(|g|, H)
      ensures References(g, H, c) <= 1
    {
      SameReferences(f, g, H, c);
    }
  }

  lemma SoundThrough(f: seq<byte>, g: seq<byte>, h: Header)
    requires Sound(f, h) && SameTables(f, g, h) && TablesReadable(f, h) && TablesReadable(g, h)
    requires SameEntries(f, g, h) && SameL1(f, g, h)
    requires forall i, k :: 0 <= i < h.l1Size && 0 <= k < h.PerTable() ==>
               DataOffset(g, h, i, k) == DataOffset(f, h, i, k)
    ensures Sound(g, h)
  {
    hide WellFormed, TableAt, BlockAt, L2Entry, DataOffset, GetBE, Clusters, SlotCount, Rows, Pow2, Quotient,
      CopiedFlags.Compressed;
    forall i | 0 <= i < h.l1Size && Word(g, h.l1Offset + 8 * i) != 0
      ensures TableAt(g, h, i) != 0 && TableAt(g, h, i) % h.ClusterSize() == 0
    {
      assert Word(g, h.l1Offset + 8 * i) == Word(f, h.l1Offset + 8 * i);
    }
    forall i, k | 0 <= i < h.l1Size && 0 <= k < h.PerTable()
      ensures !CopiedFlags.Compressed(L2Entry(g, h, i, k)) && DataOffset(g, h, i, k) % h.ClusterSize() == 0
      ensures DataOffset(g, h, i, k) != 0 ==> ClusterOf(h, DataOffset(g, h, i, k)) < Clusters(|g|, h)
    {
      assert DataOffset(f, h, i, k) % h.ClusterSize() == 0;
      assert L2Entry(g, h, i, k) == L2Entry(f, h, i, k);
    }
  }

  /**
   Of the accepted version 3 variants, the all tier runs on those without snapshots, corrupt bit and compression type;
   the leaks tier runs on the others without snapshots.
   */
  lemma WhichTier(snapshots: nat, features: nat, order: nat)
    requires snapshots < U32 && features < 32 && order <= 6
    ensures var f := Variant(3, snapshots, features, order);
            && WellFormed(f, H)
            && (AllTierRuns(f, H, Everything) <==> snapshots == 0 && features / 2 % 2 == 0 && features / 8 % 2 == 0)
            && (LeaksTierRuns(f, H, LeaksOnly) <==> snapshots == 0)
            && (LeaksTierRuns(f, H, Everything) <==>
                snapshots == 0 && !(features / 2 % 2 == 0 && features / 8 % 2 == 0))
            && !AllTierRuns(f, H, LeaksOnly) && !AllTierRuns(f, H, ReadOnly) && !LeaksTierRuns(f, H, ReadOnly)
  {
    hide Variant, GetBE, Walk, Sound, WellFormed, Clusters, Rows, Size, Pow2;
    var f := Variant(3, snapshots, features, order);
    VariantFields(3, snapshots, features, order);
    VariantSound(3, snapshots, features, order);
    Parts(f, H);
    NothingOverlaps(8 * Size(Clusters(|f|, H)), f, H, RepairTiers.Flagged(features));
    Sizes();
    EightIsThreeBits();
  }

  lemma EightIsThreeBits()
    ensures Pow2(3) == 8
  {
  }
}
