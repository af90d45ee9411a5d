/** A small clean image, and what corruptor and check make of it: seven clusters of 512 bytes, two of them mapped. */
module SampleImage {
  import opened Bytes
  import opened Options
  import opened FreeClusters
  import opened Qcow2Metadata
  import opened Corruptor
  import opened CorruptionClasses
  import opened ImageBytes
  import opened ClusterBitmap
  import opened CheckWalk
  import opened WalkMarks
  import opened FlagPass
  import opened RepairTiers
  import opened RepairOutcome
  import opened RepairBytes
  import CopiedFlags

  const H: Header := Header(9, 1, 1536, 512, 1)
  const SAMPLE_SIZE: nat := 3584

  /** The start of a backing-format extension of three bytes, as it stands behind a version 2 header. */
  const BACKING_FORMAT: seq<byte> := [0xE2, 0x79, 0x2A, 0xCA, 0, 0, 0, 3]
  const NO_EXTENSION: seq<byte> := [0, 0, 0, 0, 0, 0, 0, 0]

  /** A version 2 header: version, cluster bits, size, L1 table, refcount table. */
  function HeadByte(p: nat): byte {
    if p < 4 then MAGIC[p]
    else if p == 7 || p == 54 then 2
    else if p == 23 then 9
    else if p == 30 then 4
    else if p == 39 || p == 59 then 1
    else if p == 46 then 6
    else 0
  }

  /** Header, refcount table, refcount block, L1 table, L2 table and two clusters of data. */
  function SampleByte(ext: seq<byte>, counted: bool, p: nat): byte
    requires |ext| == 8
  {
    if p < 72 then HeadByte(p)
    else if p < 80 then ext[p - 72]
    else if p == 518 then (if counted then 4 else 0)
    else if 1024 <= p < 1038 then p % 2
    else if p == 1536 || p == 2048 || p == 2056 then 0x80
    else if p == 1542 then 8
    else if p == 2054 then 10
    else if p == 2062 then 12
    else 0
  }

  function Sample(ext: seq<byte>, counted: bool): (f: seq<byte>)
    requires |ext| == 8
    ensures |f| == SAMPLE_SIZE && forall p :: 0 <= p < SAMPLE_SIZE ==> f[p] == SampleByte(ext, counted, p)
  {
    seq(SAMPLE_SIZE, p requires 0 <= p => SampleByte(ext, counted, p))
  }

  // ----- fields -----

  function Quad(a: nat, b: nat, c: nat, d: nat): nat {
    0x100_0000 * a + 0x1_0000 * b + 256 * c + d
  }

  lemma Number2(s: seq<byte>)
    requires |s| == 2
    ensures FromBE(s) == Quad(0, 0, s[0], s[1])
  {
    assert FromBE(s[..1]) == s[0];
  }

  lemma Number4(s: seq<byte>)
    requires |s| == 4
    ensures FromBE(s) == Quad(s[0], s[1], s[2], s[3])
  {
    Number2(s[..2]);
    assert s[..3][..2] == s[..2];
    assert FromBE(s[..3]) == 256 * FromBE(s[..2]) + s[2];
  }

  lemma Number8(s: seq<byte>)
    requires |s| == 8
    ensures FromBE(s) == 0x1_0000_0000 * FromBE(s[..4]) + Quad(s[4], s[5], s[6], s[7])
    ensures FromBE(s[..4]) == Quad(s[0], s[1], s[2], s[3])
  {
    Number4(s[..4]);
    assert s[..5][..4] == s[..4] && s[..6][..5] == s[..5] && s[..7][..6] == s[..6];
    assert FromBE(s[..5]) == 256 * FromBE(s[..4]) + s[4];
    assert FromBE(s[..6]) == 256 * FromBE(s[..5]) + s[5];
    assert FromBE(s[..7]) == 256 * FromBE(s[..6]) + s[6];
  }

  lemma Field4(f: seq<byte>, at: nat)
    requires at + 4 <= |f|
    ensures GetBE(f, at, 4) == Quad(f[at], f[at + 1], f[at + 2], f[at + 3])
  {
    hide FromBE;
    Number4(f[at..at + 4]);
  }

  lemma Field8(f: seq<byte>, at: nat)
    requires at + 8 <= |f|
    ensures GetBE(f, at, 8) == 0x1_0000_0000 * GetBE(f, at, 4) + GetBE(f, at + 4, 4)
    ensures GetBE(f, at, 4) == Quad(f[at], f[at + 1], f[at + 2], f[at + 3])
    ensures GetBE(f, at + 4, 4) == Quad(f[at + 4], f[at + 5], f[at + 6], f[at + 7])
  {
    hide FromBE;
    var s := f[at..at + 8];
    Number8(s);
    assert s[..4] == f[at..at + 4];
    Field4(f, at);
    Field4(f, at + 4);
  }

  /** A field whose value takes its two low bytes only. */
  lemma Small4(f: seq<byte>, at: nat, high: byte, low: byte)
    requires at + 4 <= |f| && f[at] == 0 && f[at + 1] == 0 && f[at + 2] == high && f[at + 3] == low
    ensures GetBE(f, at, 4) == Quad(0, 0, high, low)
  {
    hide GetBE, Quad;
    Field4(f, at);
  }

  lemma Small8(f: seq<byte>, at: nat, high: byte, low: byte)
    requires at + 8 <= |f| && f[at] == 0 && f[at + 1] == 0 && f[at + 2] == 0 && f[at + 3] == 0
    requires f[at + 4] == 0 && f[at + 5] == 0 && f[at + 6] == high && f[at + 7] == low
    ensures GetBE(f, at, 8) == Quad(0, 0, high, low)
  {
    hide GetBE, Quad;
    Field8(f, at);
    assert Quad(0, 0, 0, 0) == 0 by { Nothing(); }
  }

  /** A flagged table entry. */
  lemma FlaggedField(f: seq<byte>, at: nat, high: byte)
    requires at + 8 <= |f| && f[at] == 0x80 && f[at + 1] == 0 && f[at + 2] == 0 && f[at + 3] == 0
    requires f[at + 4] == 0 && f[at + 5] == 0 && f[at + 6] == high && f[at + 7] == 0
    ensures GetBE(f, at, 8) == COPIED + 256 * (high as nat)
  {
    hide GetBE;
    Field8(f, at);
  }

  lemma Nothing()
    ensures Quad(0, 0, 0, 0) == 0
  {
  }

  lemma HeaderFields(ext: seq<byte>, counted: bool)
    requires |ext| == 8
    ensures var f := Sample(ext, counted);
            && f[..4] == MAGIC && GetBE(f, 20, 4) == 9 && GetBE(f, 36, 4) == 1 && GetBE(f, 40, 8) == 1536
            && GetBE(f, 48, 8) == 512 && GetBE(f, 56, 4) == 1
  {
    hide GetBE;
    var f := Sample(ext, counted);
    Small4(f, 20, 0, 9);
    Small4(f, 36, 0, 1);
    Small8(f, 40, 6, 0);
    Small8(f, 48, 2, 0);
    Small4(f, 56, 0, 1);
  }

  lemma VersionIs(ext: seq<byte>, counted: bool)
    requires |ext| == 8
    ensures Version(Sample(ext, counted)) == 2 && GetBE(Sample(ext, counted), 24, 8) == 1024
  {
    hide GetBE;
    Small4(Sample(ext, counted), 4, 0, 2);
    Small8(Sample(ext, counted), 24, 4, 0);
  }

  lemma NoSnapshots(ext: seq<byte>, counted: bool)
    requires |ext| == 8
    ensures Snapshots(Sample(ext, counted)) == 0
  {
    hide GetBE, Quad;
    Small4(Sample(ext, counted), 60, 0, 0);
    Nothing();
  }

  lemma HeaderRead(ext: seq<byte>, counted: bool)
    requires |ext| == 8
    ensures ReadHeader(Sample(ext, counted)) == Some(H)
  {
    hide GetBE, SampleByte;
    HeaderFields(ext, counted);
  }

  lemma Sizes()
    ensures H.ClusterSize() == 512 && H.PerBlock() == 256 && H.PerTable() == 64
    ensures Clusters(SAMPLE_SIZE, H) == 7 && SlotCount(SAMPLE_SIZE, H) == 64 && Rows(SAMPLE_SIZE, H) == 64
    ensures Clusters(8, H) == 1
  {
    assert Pow2(3) == 8 && Pow2(6) == 64;
  }

  lemma Readable(ext: seq<byte>, counted: bool)
    requires |ext| == 8
    ensures TablesReadable(Sample(ext, counted), H)
  {
    hide Clusters, SlotCount, Sample;
    Sizes();
  }

  lemma L1Is(ext: seq<byte>, counted: bool)
    requires |ext| == 8
    ensures GetBE(Sample(ext, counted), 1536, 8) == COPIED + 2048
  {
    hide GetBE, HeadByte;
    FlaggedField(Sample(ext, counted), 1536, 8);
  }

  lemma SlotIs(ext: seq<byte>, counted: bool, s: nat)
    requires |ext| == 8 && s < 64
    ensures GetBE(Sample(ext, counted), 512 + 8 * s, 8) == if s == 0 && counted then 1024 else 0
  {
    hide GetBE, HeadByte;
    Small8(Sample(ext, counted), 512 + 8 * s, if s == 0 && counted then 4 else 0, 0);
  }

  lemma MaskOfL1()
    ensures MaskOffset(COPIED + 2048) == 2048
  {
  }

  /** Where the tables are. */
  lemma Tables(ext: seq<byte>, counted: bool)
    requires |ext| == 8
    ensures TablesReadable(Sample(ext, counted), H)
    ensures var f := Sample(ext, counted);
            && Word(f, 1536) == COPIED + 2048 && TableAt(f, H, 0) == 2048
            && (forall s :: 0 <= s < SlotCount(|f|, H) ==> BlockAt(f, H, s) == if s == 0 && counted then 1024 else 0)
  {
    hide GetBE, Clusters, SlotCount, SampleByte, MaskOffset;
    Readable(ext, counted);
    Sizes();
    var f := Sample(ext, counted);
    L1Is(ext, counted);
    MaskOfL1();
    forall s | 0 <= s < SlotCount(|f|, H)
      ensures BlockAt(f, H, s) == if s == 0 && counted then 1024 else 0
    {
      SlotIs(ext, counted, s);
    }
  }

  lemma Formed(ext: seq<byte>, counted: bool)
    requires |ext| == 8
    ensures WellFormed(Sample(ext, counted), H)
  {
    hide GetBE, Clusters, SlotCount, Sample, TableAt, BlockAt, ReadHeader;
    Sizes();
    Tables(ext, counted);
    HeaderRead(ext, counted);
  }

  lemma Mask(x: nat)
    requires x in {0, 2560, 3072}
    ensures MaskOffset(COPIED + x) == x && MaskOffset(0) == 0
    ensures !CopiedFlags.Compressed(COPIED + x) && !CopiedFlags.Compressed(0)
  {
  }

  lemma EntryFields(ext: seq<byte>, counted: bool, k: nat)
    requires |ext| == 8 && k < 64
    ensures GetBE(Sample(ext, counted), 2048 + 8 * k, 8) ==
            if k == 0 then COPIED + 2560 else if k == 1 then COPIED + 3072 else 0
  {
    hide GetBE, HeadByte, Quad;
    var f := Sample(ext, counted);
    if k < 2 {
      FlaggedField(f, 2048 + 8 * k, if k == 0 then 10 else 12);
    } else {
      Small8(f, 2048 + 8 * k, 0, 0);
      Nothing();
    }
  }

  /** Two entries are mapped. */
  lemma EntriesAre(ext: seq<byte>, counted: bool, k: nat)
    requires |ext| == 8 && k < H.PerTable()
    ensures WellFormed(Sample(ext, counted), H)
    ensures var f := Sample(ext, counted);
            && L2Entry(f, H, 0, k) == (if k == 0 then COPIED + 2560 else if k == 1 then COPIED + 3072 else 0)
            && DataOffset(f, H, 0, k) == if k == 0 then 2560 else if k == 1 then 3072 else 0
  {
    hide GetBE, Clusters, SlotCount, SampleByte, WellFormed, TableAt, MaskOffset;
    Sizes();
    Formed(ext, counted);
    Tables(ext, counted);
    EntryFields(ext, counted, k);
    Mask(2560);
    Mask(3072);
  }

  lemma CountField(ext: seq<byte>, k: nat)
    requires |ext| == 8 && k < 256
    ensures GetBE(Sample(ext, true), 1024 + 2 * k, 2) == if k < 7 then 1 else 0
  {
    hide FromBE, HeadByte;
    var s := Sample(ext, true)[1024 + 2 * k..1024 + 2 * k + 2];
    assert s[0] == 0 && s[1] == if k < 7 then 1 else 0;
    Number2(s);
  }

  /** Every entry of the block that stands for a cluster is one, the others are zero. */
  lemma CountsAre(ext: seq<byte>, k: nat)
    requires |ext| == 8 && k < H.PerBlock()
    ensures WellFormed(Sample(ext, true), H) && SlotCount(SAMPLE_SIZE, H) == 64
    ensures BlockAt(Sample(ext, true), H, 0) == 1024
    ensures BlockCount(Sample(ext, true), H, 0, k) == if k < 7 then 1 else 0
  {
    hide Clusters, SlotCount, SampleByte, WellFormed, BlockAt, GetBE;
    Sizes();
    Formed(ext, true);
    Tables(ext, true);
    CountField(ext, k);
  }

  lemma StoredIs(ext: seq<byte>, c: nat)
    requires |ext| == 8 && c < 7
    ensures WellFormed(Sample(ext, true), H) && Clusters(SAMPLE_SIZE, H) == 7
    ensures HasBlock(Sample(ext, true), H, c) && StoredCount(Sample(ext, true), H, c) == 1
  {
    hide Clusters, SlotCount, Sample, WellFormed, BlockAt, GetBE, BlockCount;
    Sizes();
    CountsAre(ext, c);
    assert Slot(SAMPLE_SIZE, H, c) == 0 && Place(H, c) == c;
    CountOfBlock(Sample(ext, true), H, c);
  }

  lemma ClusterIs(x: nat)
    ensures ClusterOf(H, x) == x / 512
  {
    Sizes();
  }

  /** Every cluster has one reference. */
  lemma ReferencesAre(ext: seq<byte>, c: nat)
    requires |ext| == 8 && c < 7
    ensures WellFormed(Sample(ext, true), H)
    ensures References(Sample(ext, true), H, c) == 1
  {
    hide Clusters, SlotCount, Sample, WellFormed, BlockAt, TableAt, L2Entry, MaskOffset, Quotient;
    var f := Sample(ext, true);
    Formed(ext, true);
    Tables(ext, true);
    Sizes();
    DataRefsAre(ext, c);
    ClusterIs(0);
    ClusterIs(512);
    ClusterIs(1024);
    ClusterIs(1536);
    ClusterIs(2048);
    assert TableRefs(f, H, c) == if c == 4 then {0} else {};
    assert BlockRefs(f, H, c) == if c == 2 then {0} else {};
  }

  lemma DataRefsAre(ext: seq<byte>, c: nat)
    requires |ext| == 8
    ensures WellFormed(Sample(ext, true), H)
    ensures DataRefs(Sample(ext, true), H, c) == if c == 5 then {(0, 0)} else if c == 6 then {(0, 1)} else {}
  {
    hide Clusters, SlotCount, Sample, WellFormed, L2Entry, MaskOffset, Quotient;
    var f := Sample(ext, true);
    Formed(ext, true);
    Sizes();
    ClusterIs(2560);
    ClusterIs(3072);
    Mask(2560);
    Mask(3072);
    forall k | 0 <= k < H.PerTable()
      ensures PointsAt(H, L2Entry(f, H, 0, k), c) <==> (k == 0 && c == 5) || (k == 1 && c == 6)
    {
      EntriesAre(ext, true, k);
    }
    assert L2Entry(f, H, 0, 0) == L2Entry(f, H, 0, 0) && L2Entry(f, H, 0, 1) == L2Entry(f, H, 0, 1);
  }

  lemma SampleInFile(ext: seq<byte>, counted: bool)
    requires |ext| == 8
    ensures WellFormed(Sample(ext, counted), H) && InFile(Sample(ext, counted), H)
    ensures Corruptible(Sample(ext, counted), H)
  {
    hide Clusters, SlotCount, Sample, WellFormed, L2Entry, DataOffset, Quotient, TableAt;
    var f := Sample(ext, counted);
    Formed(ext, counted);
    Tables(ext, counted);
    Sizes();
    ClusterIs(2560);
    ClusterIs(3072);
    forall k | 0 <= k < H.PerTable()
      ensures DataOffset(f, H, 0, k) != 0 ==> ClusterOf(H, DataOffset(f, H, 0, k)) < Clusters(|f|, H)
    {
      EntriesAre(ext, counted, k);
    }
    EntriesAre(ext, counted, 0);
  }

  lemma SampleClean(ext: seq<byte>)
    requires |ext| == 8
    ensures Clean(Sample(ext, true), H)
  {
    hide Clusters, SlotCount, Sample, WellFormed, L2Entry, DataOffset, Quotient, TableAt, StoredCount, References;
    var f := Sample(ext, true);
    SampleInFile(ext, true);
    Sizes();
    ClusterIs(2560);
    ClusterIs(3072);
    forall c | 0 <= c < Clusters(|f|, H)
      ensures StoredCount(f, H, c) == References(f, H, c) <= 1
    {
      StoredIs(ext, c);
      ReferencesAre(ext, c);
    }
    forall k | 0 <= k < H.PerTable()
      ensures !FlagWrong(f, H, 0, k)
    {
      EntriesAre(ext, true, k);
      if k < 2 {
        StoredIs(ext, 5 + k);
      }
    }
  }

  lemma SampleSound(ext: seq<byte>)
    requires |ext| == 8
    ensures Sound(Sample(ext, true), H)
  {
    hide Clusters, SlotCount, Sample, WellFormed, L2Entry, DataOffset, Quotient, TableAt, Rows, Word, Pow2,
      CopiedFlags.Compressed, InFile;
    var f := Sample(ext, true);
    SampleInFile(ext, true);
    Tables(ext, true);
    Sizes();
    Mask(2560);
    Mask(3072);
    forall k | 0 <= k < H.PerTable()
      ensures !CopiedFlags.Compressed(L2Entry(f, H, 0, k)) && DataOffset(f, H, 0, k) % 512 == 0
    {
      EntriesAre(ext, true, k);
    }
  }

  lemma SamplePlain(ext: seq<byte>)
    requires |ext| == 8
    ensures Plain(Sample(ext, true), H) && TablesReadable(Sample(ext, true), H) && BlocksAligned(Sample(ext, true), H)
  {
    hide Clusters, SlotCount, Sample, Sound, Rows, GetBE, BlockAt;
    SampleSound(ext);
    VersionIs(ext, true);
    NoSnapshots(ext, true);
    Sizes();
    Tables(ext, true);
    assert MAX_L1_ENTRIES <= Times(MAX_L1_ENTRIES, Times(64, 512));
  }

  /** The limits of the all tier are met. */
  lemma SampleFits(ext: seq<byte>)
    requires |ext| == 8
    ensures TablesReadable(Sample(ext, true), H) && Preflight(Sample(ext, true), H, Size(Clusters(SAMPLE_SIZE, H)))
    ensures Room(H, TableCount(Sample(ext, true), H, H.l1Size))
  {
    hide Clusters, SlotCount, Sample, Rows, GetBE, BlockAt, TableAt;
    Sizes();
    Tables(ext, true);
    assert TableCount(Sample(ext, true), H, 1) == TableCount(Sample(ext, true), H, 0) + 1;
  }

  // ----- instances -----

  /** Without the extension there is nothing to tidy up. */
  lemma SampleTidy()
    ensures WellFormed(Sample(NO_EXTENSION, true), H) && TablesReadable(Sample(NO_EXTENSION, true), H)
    ensures Tidy(Sample(NO_EXTENSION, true), H)
  {
    hide Clusters, SlotCount, Sample, WellFormed, L2Entry, DataOffset, TableAt, BlockAt, BlockCount, GetBE;
    var f := Sample(NO_EXTENSION, true);
    Sizes();
    Tables(NO_EXTENSION, true);
    Formed(NO_EXTENSION, true);
    ExtensionField(NO_EXTENSION, true);
    forall k | 0 <= k < H.PerTable() && DataOffset(f, H, 0, k) == 0
      ensures !Copied(L2Entry(f, H, 0, k))
    {
      EntriesAre(NO_EXTENSION, true, k);
    }
    forall k | 0 <= k < H.PerBlock()
      ensures Times(0, H.PerBlock()) + k < Clusters(|f|, H) || BlockCount(f, H, 0, k) == 0
    {
      CountsAre(NO_EXTENSION, k);
    }
  }

  /** The word at 72, and the length in its low half. */
  lemma ExtensionField(ext: seq<byte>, counted: bool)
    requires |ext| == 8
    ensures GetBE(Sample(ext, counted), 72, 8) ==
            0x1_0000_0000 * FromBE(ext[..4]) + Quad(ext[4], ext[5], ext[6], ext[7])
    ensures ext == NO_EXTENSION ==> GetBE(Sample(ext, counted), 72, 8) == 0
  {
    hide HeadByte, Quad;
    var f := Sample(ext, counted);
    assert f[72..80] == ext;
    Number8(ext);
    Nothing();
  }

  /** stale_copied takes the second entry, but reports the cluster of the first, whose count and flag are right. */
  lemma OtherClusterReported(ext: seq<byte>)
    requires |ext| == 8
    ensures Clean(Sample(ext, true), H) && Corruptible(Sample(ext, true), H)
    ensures var f, g := Sample(ext, true), Corrupt(Sample(ext, true), H, StaleCopied).0;
            && WellFormed(g, H) && |g| == |f| && Clusters(|f|, H) == 7 && ClusterOf(H, DataOffset(f, H, 0, 0)) == 5
            && Discrepancy(g, H, 5) == 0 && Discrepancy(g, H, 6) == 1
  {
    hide Clusters, SlotCount, Sample, WellFormed, L2Entry, DataOffset, Quotient, StoredCount, References, Corrupt,
      InFile, TableAt;
    var f := Sample(ext, true);
    SampleClean(ext);
    SampleInFile(ext, true);
    Sizes();
    EntriesAre(ext, true, 0);
    EntriesAre(ext, true, 1);
    ClusterIs(2560);
    ClusterIs(3072);
    InjectsDiscrepancy(f, H, StaleCopied, 5);
    InjectsDiscrepancy(f, H, StaleCopied, 6);
  }

  /** Without a refcount block, refcount_too_high says "nothing done" and has cleared a flag. */
  lemma ChangedYetGivenUp(ext: seq<byte>)
    requires |ext| == 8
    ensures Corruptible(Sample(ext, false), H)
    ensures var f := Sample(ext, false);
            !Corrupt(f, H, RefcountTooHigh).1 && Corrupt(f, H, RefcountTooHigh).0 != f
  {
    hide Clusters, Sample, WellFormed, L2Entry, DataOffset, Quotient, StoredCount, Corrupt, InFile, TableAt, BlockAt,
      SlotCount;
    var f := Sample(ext, false);
    SampleInFile(ext, false);
    Sizes();
    Tables(ext, false);
    EntriesAre(ext, false, 0);
    CorruptEffect(f, H, RefcountTooHigh);
    assert BlockAt(f, H, Slot(|f|, H, TargetCluster(f, H, RefcountTooHigh))) == 0;
    GivesUpAfterWriting(f, H, RefcountTooHigh);
  }

  method NewSample(ext: seq<byte>) returns (file: array<byte>)
    requires |ext| == 8
    ensures fresh(file) && file[..] == Sample(ext, true)
  {
    hide SampleByte;
    file := new byte[SAMPLE_SIZE](p requires 0 <= p => SampleByte(ext, true, p));
  }

  lemma BackingWord()
    ensures GetBE(Sample(BACKING_FORMAT, true), 76, 4) == 3
    ensures RepairTiers.Flagged(GetBE(Sample(BACKING_FORMAT, true), 72, 8))
  {
    hide Sample, FromBE, GetBE;
    var f := Sample(BACKING_FORMAT, true);
    ExtensionBytes(BACKING_FORMAT);
    Field8(f, 72);
  }

  lemma ExtensionBytes(ext: seq<byte>)
    requires |ext| == 8
    ensures forall k :: 0 <= k < 8 ==> Sample(ext, true)[72 + k] == ext[k]
  {
    hide HeadByte;
    forall k | 0 <= k < 8
      ensures Sample(ext, true)[72 + k] == ext[k]
    {
      assert Sample(ext, true)[72 + k] == SampleByte(ext, true, 72 + k);
    }
  }

  lemma Halves(f: seq<byte>, at: nat)
    requires at + 8 <= |f|
    ensures GetBE(f, at, 8) == U32 * GetBE(f, at, 4) + GetBE(f, at + 4, 4) && GetBE(f, at + 4, 4) < U32
  {
    hide FromBE, Quad;
    Field8(f, at);
    BEInverse(f[at + 4..at + 8]);
    WidthLimits();
  }

  lemma LowHalf(f: seq<byte>, g: seq<byte>)
    requires |f| >= 80 && |g| >= 80 && GetBE(g, 72, 8) == GetBE(f, 72, 8) - 2 && GetBE(f, 76, 4) == 3
    ensures GetBE(g, 76, 4) == 1
  {
    hide GetBE;
    Halves(f, 72);
    Halves(g, 72);
    assert (GetBE(f, 72, 8) - 2) % U32 == 1;
  }

  /**
   A full repair of a version 2 image with a backing-format extension: the check repairs a refcount, and leaves the
   extension with a length of one.
   */
  method BackingFormatLost() returns (file: array<byte>)
    ensures fresh(file) && file.Length == SAMPLE_SIZE && GetBE(file[..], 76, 4) == 1
    ensures GetBE(Sample(BACKING_FORMAT, true), 76, 4) == 3
    ensures Clean(file[..], H) && Restored(Sample(BACKING_FORMAT, true), file[..], H)
    ensures file[..] != Sample(BACKING_FORMAT, true)
  {
    hide Sample, GetBE, Clean, Corruptible, Plain, Restored, Clusters, Preflight, Room, TableCount, Tidy, KeptElsewhere,
      ContentKept;
    file := NewSample(BACKING_FORMAT);
    SampleClean(BACKING_FORMAT);
    SampleInFile(BACKING_FORMAT, true);
    SamplePlain(BACKING_FORMAT);
    SampleFits(BACKING_FORMAT);
    BackingWord();
    ghost var f := file[..];
    var r := CorruptThenRepair(file, H, RefcountZero, Everything);
    LowHalf(f, file[..]);
  }

  /** The same image without the extension comes back byte for byte. */
  method GivenBack(cls: Class) returns (file: array<byte>)
    requires Undone(cls)
    ensures fresh(file) && file[..] == Sample(NO_EXTENSION, true)
  {
    hide Sample, GetBE, Clean, Corruptible, Plain, Restored, Clusters, Preflight, Room, TableCount, Tidy, KeptElsewhere,
      ContentKept;
    file := NewSample(NO_EXTENSION);
    SampleClean(NO_EXTENSION);
    SampleInFile(NO_EXTENSION, true);
    SamplePlain(NO_EXTENSION);
    SampleFits(NO_EXTENSION);
    SampleTidy();
    var r := CorruptThenRepair(file, H, cls, Everything);
  }
}
