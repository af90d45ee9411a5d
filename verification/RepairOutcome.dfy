/** What the check's repair makes of each corruption class, from the corruptor's first write to the report. */
module RepairOutcome {
  import opened Bytes
  import opened Options
  import opened FreeClusters
  import opened Qcow2Metadata
  import opened Corruptor
  import opened ImageBytes
  import opened CorruptionClasses
  import opened ClusterBitmap
  import opened CheckWalk
  import opened WalkMarks
  import opened CountPasses
  import opened FlagPass
  import opened RepairTiers
  import CopiedFlags

  /** An image the check accepts, tracks and supports: version 2 or 3, 16-bit counts, whole clusters everywhere. */
  ghost predicate Plain(f: seq<byte>, h: Header) {
    && |f| >= 105 && Accepted(f, h) && Standard(f) && Snapshots(f) == 0 && !RepairTiers.Flagged(Features(f))
    && !HasBit(Features(f), 3)
    && Sound(f, h) && Tracked(f, h)
    && h.l1Offset % h.ClusterSize() == 0 && h.tableOffset % h.ClusterSize() == 0
  }

  // ----- the corrupted image -----

  lemma SpliceInCluster(f: seq<byte>, h: Header, base: nat, at: nat, t: seq<byte>)
    requires WellFormed(f, h) && OwnCluster(f, h, base) && base <= at && at + |t| <= base + h.ClusterSize()
    ensures at + |t| <= |f| && SameTop(f, Splice(f, at, t), h)
  {
    hide Clusters, SlotCount, TableAt, BlockAt, Pow2, GetBE, Splice;
    assert Apart(at, |t|, 0, 104) && Apart(at, |t|, h.l1Offset, 8 * h.l1Size);
  }

  lemma TopThrough(f: seq<byte>, m: seq<byte>, g: seq<byte>, h: Header)
    requires SameTop(f, m, h) && SameTop(m, g, h)
    ensures SameTop(f, g, h)
  {
  }

  /** The corruptor never touches the header or the L1 table. */
  lemma CorruptKeepsTop(f: seq<byte>, h: Header, cls: Class)
    requires Corruptible(f, h)
    ensures SameTop(f, Corrupt(f, h, cls).0, h)
  {
    hide GetBE, Pow2, BE, Splice, Clusters, SlotCount, TableAt, BlockAt, NewEntry, StoredCount, L2Entry, Slot, Place,
      SameTop, Apart, ReadHeader, TargetCluster, InFile, DataOffset, MaskOffset;
    RemapEffect(f, h, cls);
    NewEntryWidth(f, h, cls);
    var g, c := Remapped(f, h, cls), TargetCluster(f, h, cls);
    TopOfSelf(f, h);
    match NewEntry(f, h, cls) {
      case None =>
      case Some((j, v)) => SpliceInCluster(f, h, TableAt(f, h, 0), TableAt(f, h, 0) + 8 * j, BE(8, v));
    }
    if NewCount(cls).Some? && HasBlock(g, h, c) {
      var n := NewCount(cls).value;
      SpliceInCluster(g, h, BlockAt(g, h, Slot(|g|, h, c)), CountAt(g, h, c), BE(2, n));
      TopThrough(f, g, WithCount(g, h, c, n), h);
    }
  }

  lemma TopOfSelf(f: seq<byte>, h: Header)
    requires WellFormed(f, h)
    ensures SameTop(f, f, h)
  {
    AtLeastNine(f, h);
  }

  /** Header fields live in the part that is kept. */
  lemma SameFields(f: seq<byte>, g: seq<byte>, h: Header, at: nat, n: nat)
    requires SameTop(f, g, h) && at + n <= 104
    ensures GetBE(g, at, n) == GetBE(f, at, n)
  {
    hide FromBE;
    SubSlice(f, 0, f[..104], at, n);
    SubSlice(g, 0, g[..104], at, n);
  }

  lemma SameWord(f: seq<byte>, g: seq<byte>, h: Header, i: nat)
    requires SameTop(f, g, h) && i < h.l1Size
    ensures h.l1Offset + 8 * i + 8 <= |f| && Word(g, h.l1Offset + 8 * i) == Word(f, h.l1Offset + 8 * i)
  {
    hide FromBE;
    var a, b := h.l1Offset, h.l1Offset + 8 * h.l1Size;
    SubSlice(f, a, f[a..b], 8 * i, 8);
    SubSlice(g, a, g[a..b], 8 * i, 8);
  }

  lemma SameAcceptance(f: seq<byte>, g: seq<byte>, h: Header)
    requires SameTop(f, g, h) && Accepted(f, h)
    ensures Accepted(g, h) && Features(g) == Features(f) && Snapshots(g) == Snapshots(f)
    ensures Standard(f) ==> Standard(g)
  {
    hide GetBE, Times, Pow2, HasBit;
    SameFields(f, g, h, 4, 4);
    SameFields(f, g, h, 24, 8);
    SameFields(f, g, h, 60, 4);
    SameFields(f, g, h, 72, 8);
    SameFields(f, g, h, 96, 4);
  }

  /** The entry a class writes has an offset the image already had, or none, and is not compressed. */
  lemma EntryAfterPlain(f: seq<byte>, h: Header, cls: Class, i: nat, k: nat)
    requires Corruptible(f, h) && NoneCompressed(f, h) && i < h.l1Size && k < h.PerTable()
    ensures !CopiedFlags.Compressed(EntryAfter(f, h, cls, i, k))
    ensures MaskOffset(EntryAfter(f, h, cls, i, k)) in {0, DataOffset(f, h, i, k),
              DataOffset(f, h, 0, Target(f, h, cls))}
  {
    hide GetBE, Pow2, MaskOffset, TableAt, BlockAt, L2Entry, Quotient, SlotCount, WellFormed, Clusters, Cleared,
      Qcow2Metadata.Flagged, CopiedFlags.Compressed, InFile;
    var j := Target(f, h, cls);
    var e := L2Entry(f, h, 0, j);
    EntryWidth(f, h, 0, j);
    FlagNotInMask(e);
    MaskOfZero();
    CopiedFlags.CompressedKept(e, true);
    CopiedFlags.CompressedKept(e, false);
    assert CopiedFlags.Marked(e, true) == Qcow2Metadata.Flagged(e) && CopiedFlags.Marked(e, false) == Cleared(e);
    ZeroUncompressed();
    OffsetOf(f, h, i, k);
    OffsetOf(f, h, 0, j);
  }

  lemma ZeroUncompressed()
    ensures !CopiedFlags.Compressed(0)
  {
  }

  lemma StaysSound(f: seq<byte>, h: Header, cls: Class)
    requires Sound(f, h) && Corruptible(f, h)
    ensures Sound(Corrupt(f, h, cls).0, h) && |Corrupt(f, h, cls).0| == |f|
  {
    hide GetBE, Pow2, MaskOffset, Corrupt, TableAt, BlockAt, L2Entry, Quotient, SlotCount, WellFormed, Clusters, Rows,
      EntryAfter, SameTop, StoredCount, InFile, DataOffset, NoneCompressed, Aligned;
    CorruptEffect(f, h, cls);
    StaysInFile(f, h, cls);
    EntriesStayPlain(f, h, cls);
    StaysAligned(f, h, cls);
  }

  lemma EntriesStayPlain(f: seq<byte>, h: Header, cls: Class)
    requires Sound(f, h) && Corruptible(f, h)
    ensures WellFormed(Corrupt(f, h, cls).0, h) && NoneCompressed(Corrupt(f, h, cls).0, h)
    ensures forall i, k :: 0 <= i < h.l1Size && 0 <= k < h.PerTable() ==>
              DataOffset(Corrupt(f, h, cls).0, h, i, k) % h.ClusterSize() == 0
  {
    hide GetBE, Pow2, MaskOffset, Corrupt, TableAt, BlockAt, L2Entry, Quotient, SlotCount, WellFormed, Clusters, Rows,
      EntryAfter, StoredCount, InFile, DataOffset, CopiedFlags.Compressed;
    var g := Corrupt(f, h, cls).0;
    CorruptEffect(f, h, cls);
    ZeroAligned(h);
    forall i, k | 0 <= i < h.l1Size && 0 <= k < h.PerTable()
      ensures !CopiedFlags.Compressed(L2Entry(g, h, i, k)) && DataOffset(g, h, i, k) % h.ClusterSize() == 0
    {
      EntryAfterPlain(f, h, cls, i, k);
      OffsetOf(g, h, i, k);
      var j := Target(f, h, cls);
      assert DataOffset(f, h, i, k) % h.ClusterSize() == 0;
      assert DataOffset(f, h, 0, j) % h.ClusterSize() == 0;
    }
  }

  lemma StaysAligned(f: seq<byte>, h: Header, cls: Class)
    requires Sound(f, h) && Corruptible(f, h) && WellFormed(Corrupt(f, h, cls).0, h)
    requires forall i, k :: 0 <= i < h.l1Size && 0 <= k < h.PerTable() ==>
               DataOffset(Corrupt(f, h, cls).0, h, i, k) % h.ClusterSize() == 0
    ensures Aligned(Corrupt(f, h, cls).0, h)
  {
    hide GetBE, Pow2, MaskOffset, Corrupt, TableAt, BlockAt, L2Entry, SlotCount, WellFormed, Clusters, Rows, EntryAfter,
      SameTop, StoredCount, InFile, DataOffset, NoneCompressed;
    var g := Corrupt(f, h, cls).0;
    CorruptEffect(f, h, cls);
    CorruptKeepsTop(f, h, cls);
    AtLeastNine(f, h);
    AtLeastNine(g, h);
    forall i | 0 <= i < h.l1Size && Word(g, h.l1Offset + 8 * i) != 0
      ensures TableAt(g, h, i) != 0 && TableAt(g, h, i) % h.ClusterSize() == 0
    {
      SameWord(f, g, h, i);
    }
  }

  /** A corrupted image is as fit for the check as the image it came from. */
  lemma StaysPlain(f: seq<byte>, h: Header, cls: Class)
    requires Plain(f, h) && Corruptible(f, h)
    ensures Plain(Corrupt(f, h, cls).0, h) && |Corrupt(f, h, cls).0| == |f|
  {
    hide Pow2, GetBE, Corrupt, Sound, Corruptible, Accepted, Standard, Features, Snapshots, HasBit, SameTop, Clusters,
      Rows;
    StaysSound(f, h, cls);
    CorruptKeepsTop(f, h, cls);
    SameAcceptance(f, Corrupt(f, h, cls).0, h);
  }

  lemma ZeroAligned(h: Header)
    ensures h.ClusterSize() > 0 && 0 % h.ClusterSize() == 0
  {
  }

  // ----- top-level tables of a clean image -----

  /** Where a byte of a table that starts on a cluster boundary lies. */
  lemma ByteCovered(h: Header, at: nat, n: nat, x: nat)
    requires at % h.ClusterSize() == 0 && at <= x < at + Times(n, h.ClusterSize())
    ensures Covers(h, at, n, ClusterOf(h, x)) == 1
  {
    hide Times, Pow2;
    var cs := h.ClusterSize();
    WholeAndRest(at, cs);
    DivMono(at, x, cs);
    TimesAdd(at / cs, n, cs);
    WholeAndRest(x, cs);
    if x / cs >= at / cs + n {
      TimesMono(at / cs + n, x / cs, cs);
    }
  }

  lemma ByteInFile(f: seq<byte>, h: Header, x: nat)
    requires x < |f|
    ensures ClusterOf(h, x) < Clusters(|f|, h)
  {
    hide Pow2;
    var cs := h.ClusterSize();
    QuotientOfNext(x, cs);
    DivMono(x + cs, |f| + cs - 1, cs);
  }

  /** Rounded up, a length in bytes is covered by its clusters. */
  lemma RoundedUp(h: Header, n: nat)
    ensures n <= Times(Clusters(n, h), h.ClusterSize())
  {
    hide Times, Pow2;
    var cs := h.ClusterSize();
    WholeAndRest(n + cs - 1, cs);
  }

  /** Two tables with a byte in common give its cluster two references. */
  lemma NoSharedByte(f: seq<byte>, h: Header, x: nat)
    requires WellFormed(f, h) && Single(f, h) && x < |f|
    ensures Covers(h, 0, 1, ClusterOf(h, x)) + Covers(h, h.l1Offset, Clusters(8 * h.l1Size, h), ClusterOf(h, x))
            + Covers(h, h.tableOffset, h.tableClusters, ClusterOf(h, x)) <= 1
  {
    hide WellFormed, Clusters, Quotient, DataRefs, TableRefs, BlockRefs, Covers;
    ByteInFile(f, h, x);
    assert References(f, h, ClusterOf(h, x)) <= 1;
  }

  lemma HeldRows(f: seq<byte>, h: Header)
    requires TablesReadable(f, h) && Rows(|f|, h) == SlotCount(|f|, h)
    ensures SlotCount(|f|, h) == Times(h.tableClusters, h.PerTable()) > 0
    ensures 8 * SlotCount(|f|, h) <= Times(h.tableClusters, h.ClusterSize())
  {
    hide Pow2, Clusters;
    EightTimes(h.tableClusters, h.PerTable(), h.ClusterSize());
  }

  lemma EightTimes(n: nat, a: nat, b: nat)
    requires 8 * a <= b
    ensures 8 * Times(n, a) <= Times(n, b)
  {
    MulMono(8 * a, b, n);
    MulAssoc(8, a, n);
  }

  /** In a clean image whose tables start on cluster boundaries, header and top-level tables do not overlap. */
  lemma CleanTopApart(f: seq<byte>, h: Header)
    requires WellFormed(f, h) && Single(f, h) && Aligned(f, h) && h.l1Size > 0
    requires h.l1Offset % h.ClusterSize() == 0 && h.tableOffset % h.ClusterSize() == 0
    ensures TablesReadable(f, h) && TopApart(f, h)
  {
    hide WellFormed, Clusters, Quotient, SlotCount, Rows, Pow2, Times, Covers, Single, Word, TableAt, DataOffset;
    AtLeastNine(f, h);
    HeldRows(f, h);
    RoundedUp(h, 8 * h.l1Size);
    Pow2At9(h.clusterBits);
    var a, b := h.l1Offset, h.tableOffset;
    FirstCluster(h);
    NoSharedByte(f, h, a);
    ByteCovered(h, a, Clusters(8 * h.l1Size, h), a);
    PastFirst(h, a);
    NoSharedByte(f, h, b);
    ByteCovered(h, b, h.tableClusters, b);
    PastFirst(h, b);
    var x := if a < b then b else a;
    if !Apart(a, 8 * h.l1Size, b, 8 * SlotCount(|f|, h)) {
      NoSharedByte(f, h, x);
      ByteCovered(h, a, Clusters(8 * h.l1Size, h), x);
      ByteCovered(h, b, h.tableClusters, x);
    }
  }

  lemma FirstCluster(h: Header)
    ensures Covers(h, 0, 1, 0) == 1
  {
    HeaderCluster(h);
  }

  lemma PastFirst(h: Header, at: nat)
    requires 9 <= h.clusterBits
    ensures Covers(h, 0, 1, ClusterOf(h, at)) == 0 ==> at >= 512
  {
    hide Pow2;
    Pow2At9(h.clusterBits);
    HeaderCluster(h);
    if at < h.ClusterSize() {
      QuotientIs(at, 0, h.ClusterSize(), at);
    }
  }

  // ----- references -----

  /** References depend on the offsets only. */
  lemma SameReferences(f: seq<byte>, g: seq<byte>, h: Header, c: nat)
    requires SameTables(f, g, h)
    requires forall i, k :: 0 <= i < h.l1Size && 0 <= k < h.PerTable() ==>
              DataOffset(g, h, i, k) == DataOffset(f, h, i, k)
    ensures References(g, h, c) == References(f, h, c)
  {
    hide GetBE, Pow2, MaskOffset, TableAt, BlockAt, L2Entry, Quotient, SlotCount, WellFormed, DataOffset;
    forall i, k | 0 <= i < h.l1Size && 0 <= k < h.PerTable()
      ensures PointsAt(h, L2Entry(g, h, i, k), c) == PointsAt(h, L2Entry(f, h, i, k), c)
    {
      OffsetOf(f, h, i, k);
      OffsetOf(g, h, i, k);
      assert DataOffset(g, h, i, k) == DataOffset(f, h, i, k);
    }
    hide PointsAt;
    assert DataRefs(g, h, c) == DataRefs(f, h, c);
    assert TableRefs(g, h, c) == TableRefs(f, h, c);
    assert BlockRefs(g, h, c) == BlockRefs(f, h, c);
  }

  /** How often a cluster is referenced after a corruption of a clean image. */
  lemma ReferencesNow(f: seq<byte>, h: Header, cls: Class, c: nat)
    requires Clean(f, h) && Corruptible(f, h) && c < Clusters(|f|, h)
    ensures SameTables(f, Corrupt(f, h, cls).0, h)
    ensures var t, n := TargetCluster(f, h, cls), References(Corrupt(f, h, cls).0, h, c);
            && n <= 2 && (n > 0 ==> HasBlock(f, h, c))
            && n == if c == t then (if cls.LeakedCluster? then 0 else if cls.Overlapping? then 2 else 1)
                    else StoredCount(f, h, c) - if cls.Overlapping? && PointsAt(h, L2Entry(f, h, 0, 1), c) then 1 else 0
  {
    hide GetBE, Pow2, MaskOffset, Corrupt, TableAt, BlockAt, L2Entry, Quotient, SlotCount, WellFormed, DataRefs,
      MetaRefs, PointsAt, NewEntry;
    InjectsDiscrepancy(f, h, cls, c);
    CorruptEffect(f, h, cls);
    Exclusive(f, h, 0, Target(f, h, cls));
    assert StoredCount(f, h, c) == References(f, h, c) <= 1;
  }

  /** Only overlapping leaves a cluster with two references. */
  lemma SingleAfter(f: seq<byte>, h: Header, cls: Class)
    requires Clean(f, h) && Corruptible(f, h) && !cls.Overlapping?
    ensures WellFormed(Corrupt(f, h, cls).0, h) && Single(Corrupt(f, h, cls).0, h)
  {
    hide GetBE, Pow2, Corrupt, WellFormed, References, StoredCount, Clusters, PointsAt, L2Entry, DataOffset,
      TargetCluster;
    CorruptEffect(f, h, cls);
    var g := Corrupt(f, h, cls).0;
    forall c | 0 <= c < Clusters(|g|, h)
      ensures References(g, h, c) <= 1
    {
      ReferencesNow(f, h, cls, c);
      assert StoredCount(f, h, c) == References(f, h, c) <= 1;
    }
  }

  lemma CleanIsSingle(f: seq<byte>, h: Header)
    requires Clean(f, h)
    ensures WellFormed(f, h) && Single(f, h)
  {
    hide WellFormed, References, StoredCount, Clusters, FlagWrong;
    forall c | 0 <= c < Clusters(|f|, h)
      ensures References(f, h, c) <= 1
    {
      assert StoredCount(f, h, c) == References(f, h, c) <= 1;
    }
  }

  lemma BitsEnough(items: nat)
    requires items <= 8 * SCRATCH_SIZE
    ensures items <= 8 * Size(items)
  {
  }

  /** The bitmap holds exactly the referenced clusters. */
  lemma BitmapTells(g: seq<byte>, h: Header, bits: seq<byte>, c: nat)
    requires Plain(g, h) && BitmapOf(g, h, bits) && c < Clusters(|g|, h)
    ensures Test(bits, c) <==> References(g, h, c) > 0
  {
    hide Walk, Sound, Accepted, Standard, References, Clusters, Test, Size, Rows;
    BitsEnough(Clusters(|g|, h));
    MarksAreReferences(8 * Size(Clusters(|g|, h)), g, h, RepairTiers.Flagged(Features(g)), c);
    assert c in Marks(bits) <==> Test(bits, c);
  }

  lemma PlainParts(g: seq<byte>, h: Header)
    requires Plain(g, h)
    ensures |g| >= 105 && 9 <= h.clusterBits <= 21 && WellFormed(g, h) && Sound(g, h) && Tracked(g, h)
    ensures Supported(g, 0, false) && !RepairTiers.Flagged(Features(g)) && Snapshots(g) == 0
    ensures Clusters(|g|, h) <= 8 * Size(Clusters(|g|, h))
  {
    hide GetBE, Pow2, WellFormed, Clusters, Rows, Size, HasBit, Features, Snapshots, Standard, InFile, NoneCompressed,
      Aligned;
    BitsEnough(Clusters(|g|, h));
  }

  lemma WalkRefuses(f: seq<byte>, h: Header)
    requires Corruptible(f, h) && Plain(Corrupt(f, h, Overlapping).0, h)
    ensures Found(Corrupt(f, h, Overlapping).0, h).corruptions > 0
  {
    hide GetBE, Pow2, Corrupt, Walk, Plain, Sound, Clusters, Rows, Size, Features, Corruptible, Supported, Tracked,
      DataRefs, TargetCluster;
    var g, t := Corrupt(f, h, Overlapping).0, TargetCluster(f, h, Overlapping);
    PlainParts(g, h);
    MappedTwice(f, h);
    TwiceMapped(8 * Size(Clusters(|g|, h)), g, h, RepairTiers.Flagged(Features(g)), t, (0, 0), (0, 1));
  }

  lemma WalkPasses(f: seq<byte>, h: Header, cls: Class)
    requires Clean(f, h) && Corruptible(f, h) && Plain(Corrupt(f, h, cls).0, h) && !cls.Overlapping?
    ensures Found(Corrupt(f, h, cls).0, h).corruptions == 0 && !Found(Corrupt(f, h, cls).0, h).compressed
  {
    hide GetBE, Pow2, Corrupt, Walk, Plain, Sound, Clusters, Rows, Size, Features, Corruptible, Supported, Tracked,
      Clean, Single;
    var g := Corrupt(f, h, cls).0;
    PlainParts(g, h);
    SingleAfter(f, h, cls);
    NothingOverlaps(8 * Size(Clusters(|g|, h)), g, h, RepairTiers.Flagged(Features(g)));
  }

  /** The gate: the all tier runs for every class but overlapping. */
  lemma GateDecides(f: seq<byte>, h: Header, cls: Class)
    requires Clean(f, h) && Corruptible(f, h) && Plain(f, h)
    ensures var g := Corrupt(f, h, cls).0;
            && Plain(g, h)
            && (AllTierRuns(g, h, Everything) <==> !cls.Overlapping?)
            && (LeaksTierRuns(g, h, Everything) <==> cls.Overlapping?)
            && (Found(g, h).corruptions == 0 <==> !cls.Overlapping?)
  {
    hide GetBE, Pow2, Corrupt, Found, Plain, Sound, Clusters, Rows, Features, Corruptible, Clean, Tracked, HasBit,
      Snapshots;
    var g := Corrupt(f, h, cls).0;
    StaysPlain(f, h, cls);
    PlainParts(g, h);
    if cls.Overlapping? {
      WalkRefuses(f, h);
    } else {
      WalkPasses(f, h, cls);
    }
  }

  /** Overlapping maps the target by the first two entries. */
  lemma MappedTwice(f: seq<byte>, h: Header)
    requires Corruptible(f, h)
    ensures var g, t := Corrupt(f, h, Overlapping).0, TargetCluster(f, h, Overlapping);
            && WellFormed(g, h) && |g| == |f| && t < Clusters(|f|, h)
            && (0, 0) in DataRefs(g, h, t) && (0, 1) in DataRefs(g, h, t)
  {
    hide GetBE, Pow2, Corrupt, WellFormed, Clusters, L2Entry, TableAt, MaskOffset, Quotient, StoredCount;
    CorruptEffect(f, h, Overlapping);
    var g, t := Corrupt(f, h, Overlapping).0, TargetCluster(f, h, Overlapping);
    OffsetOf(f, h, 0, 0);
    Membership(g, h, t, 0);
    Membership(g, h, t, 1);
  }

  // ----- after the all tier -----

  /** A referenced cluster of a corrupted image has a place for its count. */
  ghost predicate Placed(g: seq<byte>, h: Header)
    requires WellFormed(g, h)
  {
    forall c :: 0 <= c < Clusters(|g|, h) && References(g, h, c) > 0 ==> HasBlock(g, h, c)
  }

  lemma PlacedAfter(f: seq<byte>, h: Header, cls: Class)
    requires Clean(f, h) && Corruptible(f, h)
    ensures WellFormed(Corrupt(f, h, cls).0, h) && Placed(Corrupt(f, h, cls).0, h)
  {
    hide GetBE, Pow2, Corrupt, WellFormed, References, StoredCount, Clusters, PointsAt, L2Entry, DataOffset,
      TargetCluster, BlockAt;
    CorruptEffect(f, h, cls);
    var g := Corrupt(f, h, cls).0;
    AtLeastNine(f, h);
    AtLeastNine(g, h);
    forall c | 0 <= c < Clusters(|g|, h) && References(g, h, c) > 0
      ensures HasBlock(g, h, c)
    {
      ReferencesNow(f, h, cls, c);
      assert Slot(|f|, h, c) < SlotCount(|f|, h);
    }
  }

  /** Every count of the repaired image is one if the cluster is referenced, and zero otherwise. */
  lemma CountsFromBitmap(g: seq<byte>, r: seq<byte>, h: Header, bits: seq<byte>, c: nat)
    requires Plain(g, h) && Placed(g, h) && BitmapOf(g, h, bits) && Whole(g, r, h, bits) && c < Clusters(|g|, h)
    ensures StoredCount(r, h, c) == if References(g, h, c) > 0 then 1 else 0
  {
    hide GetBE, Pow2, WellFormed, References, Clusters, BlockAt, TableAt, L2Entry, BitmapOf, Test, Rows, SlotCount,
      Accepted, Standard, InFile, NoneCompressed, CopiedFlags.Marked, Sole, SoleTable;
    AtLeastNine(g, h);
    BitmapTells(g, h, bits, c);
    assert Slot(|g|, h, c) < SlotCount(|g|, h) == Rows(|g|, h);
  }

  /** A mapped entry of the repaired image has its old offset and is flagged; an unmapped one is not. */
  lemma EntryFromBitmap(g: seq<byte>, r: seq<byte>, h: Header, bits: seq<byte>, i: nat, k: nat)
    requires Plain(g, h) && BitmapOf(g, h, bits) && Whole(g, r, h, bits) && i < h.l1Size && k < h.PerTable()
    ensures L2Entry(r, h, i, k) == CopiedFlags.Marked(L2Entry(g, h, i, k), DataOffset(g, h, i, k) != 0)
    ensures DataOffset(r, h, i, k) == DataOffset(g, h, i, k)
    ensures Copied(L2Entry(r, h, i, k)) <==> DataOffset(g, h, i, k) != 0
  {
    hide GetBE, Pow2, WellFormed, References, Clusters, BlockAt, TableAt, L2Entry, BitmapOf, Test, Rows, SlotCount,
      Accepted, Standard, MaskOffset, Quotient, Cleared, Qcow2Metadata.Flagged, CopiedFlags.Compressed, Copied,
      StoredCount, Slot;
    var e := L2Entry(g, h, i, k);
    OffsetOf(g, h, i, k);
    OffsetOf(r, h, i, k);
    EntryWidth(g, h, i, k);
    CopiedFlags.MarkedKeepsRest(e, Sole(h, bits, e), h.clusterBits);
    assert CopiedFlags.HostOffset(e, h.clusterBits) == if MaskOffset(e) == 0 then None else Some(MaskOffset(e));
    if MaskOffset(e) != 0 {
      var c := ClusterOf(h, MaskOffset(e));
      assert c < Clusters(|g|, h);
      Referenced(g, h, i, k);
      BitmapTells(g, h, bits, c);
    }
  }

  lemma Referenced(g: seq<byte>, h: Header, i: nat, k: nat)
    requires WellFormed(g, h) && i < h.l1Size && k < h.PerTable() && DataOffset(g, h, i, k) != 0
    ensures References(g, h, ClusterOf(h, DataOffset(g, h, i, k))) > 0
  {
    hide WellFormed, L2Entry, MaskOffset, Quotient, TableRefs, BlockRefs, Clusters;
    OffsetOf(g, h, i, k);
    OnlyOne(DataRefs(g, h, ClusterOf(h, DataOffset(g, h, i, k))), (i, k));
  }

  /** Without a doubly referenced cluster, the all tier leaves a clean image. */
  lemma AllTierCleans(g: seq<byte>, r: seq<byte>, h: Header, bits: seq<byte>)
    requires Plain(g, h) && Placed(g, h) && Single(g, h) && BitmapOf(g, h, bits) && Whole(g, r, h, bits)
    ensures Clean(r, h)
  {
    hide GetBE, Pow2, WellFormed, References, Clusters, BlockAt, TableAt, L2Entry, BitmapOf, Test, Rows, SlotCount,
      Accepted, Standard, MaskOffset, Quotient, Copied, StoredCount, Slot, DataOffset, CopiedFlags.Marked, Sole,
      SoleTable, NoneCompressed, Aligned, CountNow, HasBit;
    forall i, k | 0 <= i < h.l1Size && 0 <= k < h.PerTable()
      ensures DataOffset(r, h, i, k) == DataOffset(g, h, i, k)
      ensures Copied(L2Entry(r, h, i, k)) <==> DataOffset(g, h, i, k) != 0
    {
      EntryFromBitmap(g, r, h, bits, i, k);
    }
    forall c | 0 <= c < Clusters(|r|, h)
      ensures StoredCount(r, h, c) == References(r, h, c) <= 1
    {
      CountsFromBitmap(g, r, h, bits, c);
      SameReferences(g, r, h, c);
      assert References(g, h, c) <= 1;
    }
    forall i, k | 0 <= i < h.l1Size && 0 <= k < h.PerTable() && DataOffset(r, h, i, k) != 0
      ensures ClusterOf(h, DataOffset(r, h, i, k)) < Clusters(|r|, h)
      ensures StoredCount(r, h, ClusterOf(h, DataOffset(r, h, i, k))) == 1
    {
      var c := ClusterOf(h, DataOffset(g, h, i, k));
      assert c < Clusters(|g|, h);
      Referenced(g, h, i, k);
      CountsFromBitmap(g, r, h, bits, c);
    }
  }

  /** Counts and mapped entries are those of the image it started from; unmapped entries lose their flag. */
  ghost predicate Restored(f: seq<byte>, r: seq<byte>, h: Header) {
    && SameTables(f, r, h) && SameCounts(f, r, h)
    && forall i, k :: 0 <= i < h.l1Size && 0 <= k < h.PerTable() ==>
         L2Entry(r, h, i, k) == if DataOffset(f, h, i, k) != 0 then L2Entry(f, h, i, k)
           else Cleared(L2Entry(f, h, i, k))
  }

  /** The classes that neither drop nor move a reference. */
  predicate Undone(cls: Class) {
    cls.RefcountZero? || cls.RefcountTooHigh? || cls.StaleCopied?
  }

  lemma SameButFlag(f: seq<byte>, h: Header, cls: Class, i: nat, k: nat)
    requires Corruptible(f, h) && Undone(cls) && i < h.l1Size && k < h.PerTable()
    ensures EntryAfter(f, h, cls, i, k) == CopiedFlags.Marked(L2Entry(f, h, i, k), Copied(EntryAfter(f, h, cls, i, k)))
  {
    hide GetBE, Pow2, MaskOffset, TableAt, BlockAt, L2Entry, Quotient, SlotCount, WellFormed, Clusters;
    EntryWidth(f, h, i, k);
  }

  /** An entry that only its flag distinguishes from the original comes back. */
  lemma EntryBack(f: seq<byte>, h: Header, cls: Class, r: seq<byte>, bits: seq<byte>, i: nat, k: nat)
    requires Clean(f, h) && Corruptible(f, h) && Undone(cls) && i < h.l1Size && k < h.PerTable()
    requires Plain(Corrupt(f, h, cls).0, h) && BitmapOf(Corrupt(f, h, cls).0, h, bits)
    requires Whole(Corrupt(f, h, cls).0, r, h, bits)
    ensures L2Entry(r, h, i, k) == if DataOffset(f, h, i, k) != 0 then L2Entry(f, h, i, k)
              else Cleared(L2Entry(f, h, i, k))
  {
    hide GetBE, Pow2, MaskOffset, Corrupt, TableAt, BlockAt, L2Entry, Quotient, SlotCount, WellFormed, StoredCount,
      Clusters, Copied, Cleared, Qcow2Metadata.Flagged, CopiedFlags.HostOffset, Plain, BitmapOf, EntryAfter, Rows, Sole,
      SoleTable, Slot, DataRefs, MetaRefs;
    var g, e := Corrupt(f, h, cls).0, L2Entry(f, h, i, k);
    CorruptEffect(f, h, cls);
    EntryFromBitmap(g, r, h, bits, i, k);
    EntryWidth(f, h, i, k);
    SameButFlag(f, h, cls, i, k);
    CopiedFlags.MarkedKeepsRest(e, Copied(EntryAfter(f, h, cls, i, k)), h.clusterBits);
    OffsetOf(f, h, i, k);
    OffsetOf(g, h, i, k);
    CopiedFlags.OwnFlag(e);
    if MaskOffset(e) != 0 {
      Exclusive(f, h, i, k);
      assert !FlagWrong(f, h, i, k);
    }
  }

  /**
   The all tier on a corrupted clean image: it is clean again, and counts and mapped entries are the original ones
   exactly for the classes that neither drop nor move a reference.
   */
  lemma AllTierOutcome(f: seq<byte>, h: Header, cls: Class, r: seq<byte>, bits: seq<byte>)
    requires Clean(f, h) && Corruptible(f, h) && Plain(Corrupt(f, h, cls).0, h) && !cls.Overlapping?
    requires BitmapOf(Corrupt(f, h, cls).0, h, bits) && Whole(Corrupt(f, h, cls).0, r, h, bits)
    ensures Clean(r, h) && (Restored(f, r, h) <==> Undone(cls))
  {
    hide GetBE, Pow2, MaskOffset, Corrupt, TableAt, BlockAt, L2Entry, Quotient, SlotCount, WellFormed, StoredCount,
      Clusters, Cleared, Plain, BitmapOf, Rows, DataOffset, References, Clean, Corruptible, PointsAt, TargetCluster,
      Single, Placed, Whole;
    var g := Corrupt(f, h, cls).0;
    CorruptEffect(f, h, cls);
    SingleAfter(f, h, cls);
    PlacedAfter(f, h, cls);
    AllTierCleans(g, r, h, bits);
    WholeKeeps(g, r, h, bits);
    var t := TargetCluster(f, h, cls);
    TargetInFile(f, h, cls);
    forall c | 0 <= c < Clusters(|f|, h)
      ensures StoredCount(r, h, c) == if c == t then (if cls.LeakedCluster? then 0 else 1) else StoredCount(f, h, c)
    {
      CountsFromBitmap(g, r, h, bits, c);
      ReferencesNow(f, h, cls, c);
      CountOfClean(f, h, c);
    }
    TargetCounted(f, h, cls);
    if Undone(cls) {
      forall i, k | 0 <= i < h.l1Size && 0 <= k < h.PerTable()
        ensures L2Entry(r, h, i, k) == if DataOffset(f, h, i, k) != 0 then L2Entry(f, h, i, k)
                  else Cleared(L2Entry(f, h, i, k))
      {
        EntryBack(f, h, cls, r, bits, i, k);
      }
    } else {
      assert StoredCount(r, h, t) != StoredCount(f, h, t);
    }
  }

  lemma WholeKeeps(g: seq<byte>, r: seq<byte>, h: Header, bits: seq<byte>)
    requires Whole(g, r, h, bits)
    ensures SameTables(g, r, h)
  {
    hide WellFormed, StoredCount, L2Entry, TableAt, BlockAt;
  }

  lemma TargetInFile(f: seq<byte>, h: Header, cls: Class)
    requires Corruptible(f, h)
    ensures TargetCluster(f, h, cls) < Clusters(|f|, h)
  {
    hide Clusters, WellFormed;
  }

  lemma CountOfClean(f: seq<byte>, h: Header, c: nat)
    requires Clean(f, h) && c < Clusters(|f|, h)
    ensures StoredCount(f, h, c) <= 1
  {
    hide WellFormed, StoredCount, References, Clusters, FlagWrong;
    assert StoredCount(f, h, c) == References(f, h, c) <= 1;
  }

  lemma TargetCounted(f: seq<byte>, h: Header, cls: Class)
    requires Clean(f, h) && Corruptible(f, h)
    ensures StoredCount(f, h, TargetCluster(f, h, cls)) == 1
  {
    hide GetBE, Pow2, MaskOffset, TableAt, BlockAt, L2Entry, Quotient, SlotCount, WellFormed, DataRefs, MetaRefs,
      StoredCount, References;
    Exclusive(f, h, 0, Target(f, h, cls));
  }

  // ----- after the leaks tier -----

  /** What the leaks tier leaves of the injected discrepancy: all of it at the target, unless the target is a leak. */
  function Remaining(f: seq<byte>, h: Header, cls: Class, c: nat): int
    requires Corruptible(f, h)
  {
    if c != TargetCluster(f, h, cls) then 0
    else match cls
      case RefcountZero => -1
      case RefcountTooHigh => 1
      case LeakedCluster => 0
      case StaleCopied => 1
      case Overlapping => -1
  }

  /** Referenced clusters keep their counts, all others lose theirs. */
  lemma CountsLeft(g: seq<byte>, r: seq<byte>, h: Header, bits: seq<byte>, c: nat)
    requires Plain(g, h) && BitmapOf(g, h, bits) && Ruled(g, r, h, Free(bits)) && c < Clusters(|g|, h)
    ensures StoredCount(r, h, c) == if References(g, h, c) > 0 then StoredCount(g, h, c) else 0
    ensures References(r, h, c) == References(g, h, c)
  {
    hide GetBE, Pow2, WellFormed, References, Clusters, BlockAt, TableAt, L2Entry, BitmapOf, Test, Rows, SlotCount,
      Accepted, Standard, InFile, NoneCompressed, SameTop;
    AtLeastNine(g, h);
    BitmapTells(g, h, bits, c);
    assert Slot(|g|, h, c) < SlotCount(|g|, h) == Rows(|g|, h);
    SameOffsets(g, r, h);
    SameReferences(g, r, h, c);
  }

  lemma SameOffsets(g: seq<byte>, r: seq<byte>, h: Header)
    requires WellFormed(g, h) && WellFormed(r, h) && SameEntries(g, r, h)
    ensures forall i, k :: 0 <= i < h.l1Size && 0 <= k < h.PerTable() ==>
              DataOffset(r, h, i, k) == DataOffset(g, h, i, k)
  {
    hide WellFormed, L2Entry, MaskOffset, DataOffset;
    forall i, k | 0 <= i < h.l1Size && 0 <= k < h.PerTable()
      ensures DataOffset(r, h, i, k) == DataOffset(g, h, i, k)
    {
      OffsetOf(g, h, i, k);
      OffsetOf(r, h, i, k);
    }
  }

  lemma RuledParts(g: seq<byte>, r: seq<byte>, h: Header, rule: CountRule)
    requires Ruled(g, r, h, rule)
    ensures SameTables(g, r, h) && SameEntries(g, r, h) && WellFormed(g, h) && WellFormed(r, h) && |r| == |g|
    ensures TablesReadable(g, h) && KeptOutsideBlocks(g, r, h)
  {
    hide WellFormed, StoredCount, L2Entry, TableAt, BlockAt, BlocksRuled, KeptOutsideBlocks;
    AtLeastNine(g, h);
  }

  lemma DiscrepancyLeft(f: seq<byte>, h: Header, cls: Class, r: seq<byte>, bits: seq<byte>, c: nat)
    requires Clean(f, h) && Corruptible(f, h) && Plain(Corrupt(f, h, cls).0, h) && c < Clusters(|f|, h)
    requires BitmapOf(Corrupt(f, h, cls).0, h, bits) && Ruled(Corrupt(f, h, cls).0, r, h, Free(bits))
    ensures |r| == |f| && WellFormed(r, h) && Discrepancy(r, h, c) == Remaining(f, h, cls, c)
    ensures References(r, h, c) <= if cls.Overlapping? && c == TargetCluster(f, h, cls) then 2 else 1
  {
    hide GetBE, Pow2, MaskOffset, Corrupt, TableAt, BlockAt, L2Entry, Quotient, SlotCount, WellFormed, StoredCount,
      Clusters, Plain, BitmapOf, DataOffset, References, Clean, PointsAt, TargetCluster, Ruled, InFile;
    var g := Corrupt(f, h, cls).0;
    RuledParts(g, r, h, Free(bits));
    CorruptEffect(f, h, cls);
    InjectsDiscrepancy(f, h, cls, c);
    ReferencesNow(f, h, cls, c);
    CountOfClean(f, h, c);
    CountsLeft(g, r, h, bits, c);
    if cls.Overlapping? && c != TargetCluster(f, h, cls) && PointsAt(h, L2Entry(f, h, 0, 1), c) {
      DisplacedCounted(f, h, c);
    }
  }

  /** The cluster that overlapping displaces had one reference. */
  lemma DisplacedCounted(f: seq<byte>, h: Header, c: nat)
    requires Clean(f, h) && Corruptible(f, h) && PointsAt(h, L2Entry(f, h, 0, 1), c) && c < Clusters(|f|, h)
    ensures StoredCount(f, h, c) == 1
  {
    hide GetBE, Pow2, MaskOffset, TableAt, BlockAt, L2Entry, Quotient, SlotCount, WellFormed, DataRefs, MetaRefs,
      StoredCount, References;
    OffsetOf(f, h, 0, 1);
    Exclusive(f, h, 0, 1);
  }

  lemma FlagsLeft(f: seq<byte>, h: Header, cls: Class, r: seq<byte>, bits: seq<byte>, i: nat, k: nat)
    requires Clean(f, h) && Corruptible(f, h) && Plain(Corrupt(f, h, cls).0, h) && i < h.l1Size && k < h.PerTable()
    requires BitmapOf(Corrupt(f, h, cls).0, h, bits) && Ruled(Corrupt(f, h, cls).0, r, h, Free(bits))
    requires |r| == |f| && WellFormed(r, h) && InFile(r, h)
    ensures FlagWrong(r, h, i, k) <==> FlagBroken(f, h, cls, i, k)
  {
    hide GetBE, Pow2, MaskOffset, Corrupt, TableAt, BlockAt, L2Entry, Quotient, SlotCount, WellFormed, StoredCount,
      Clusters, Plain, BitmapOf, DataOffset, References, Clean, Corruptible, InFile, Ruled, FlagBroken, Copied;
    var g := Corrupt(f, h, cls).0;
    RuledParts(g, r, h, Free(bits));
    InjectsFlag(f, h, cls, i, k);
    SameOffsets(g, r, h);
    assert L2Entry(r, h, i, k) == L2Entry(g, h, i, k);
    if DataOffset(g, h, i, k) != 0 {
      MappedInFile(g, h, i, k);
      Referenced(g, h, i, k);
      CountsLeft(g, r, h, bits, ClusterOf(h, DataOffset(g, h, i, k)));
    }
  }

  lemma MappedInFile(g: seq<byte>, h: Header, i: nat, k: nat)
    requires WellFormed(g, h) && InFile(g, h) && i < h.l1Size && k < h.PerTable() && DataOffset(g, h, i, k) != 0
    ensures ClusterOf(h, DataOffset(g, h, i, k)) < Clusters(|g|, h)
  {
    hide WellFormed, DataOffset, Clusters, Quotient;
  }

  /** Counts, flags and verdict of the image that the leaks tier leaves; bytes outside the blocks are as before. */
  ghost predicate AfterLeaks(f: seq<byte>, h: Header, cls: Class, r: seq<byte>)
    requires Corruptible(f, h)
  {
    && |r| == |f| && WellFormed(r, h) && InFile(r, h)
    && TablesReadable(Corrupt(f, h, cls).0, h) && KeptOutsideBlocks(Corrupt(f, h, cls).0, r, h)
    && (forall c :: 0 <= c < Clusters(|f|, h) ==> Discrepancy(r, h, c) == Remaining(f, h, cls, c))
    && (forall i, k :: 0 <= i < h.l1Size && 0 <= k < h.PerTable() ==>
        (FlagWrong(r, h, i, k) <==> FlagBroken(f, h, cls, i, k)))
    && (Clean(r, h) <==> cls.LeakedCluster?) && (cls.Overlapping? ==> SharedYetFlagged(f, r, h))
  }

  /**
   The leaks tier on a corrupted clean image, for every class: leaked clusters are freed, the displaced one among them;
   a wrong count at the target stays wrong by one, and so do the flags; no byte outside the refcount blocks changes. The
   image is clean again exactly for leaked_cluster.
   */
  lemma LeaksTierOutcome(f: seq<byte>, h: Header, cls: Class, r: seq<byte>, bits: seq<byte>)
    requires Clean(f, h) && Corruptible(f, h) && Plain(Corrupt(f, h, cls).0, h)
    requires BitmapOf(Corrupt(f, h, cls).0, h, bits) && Ruled(Corrupt(f, h, cls).0, r, h, Free(bits))
    ensures AfterLeaks(f, h, cls, r)
  {
    hide GetBE, Pow2, MaskOffset, Corrupt, TableAt, BlockAt, L2Entry, Quotient, SlotCount, WellFormed, StoredCount,
      Clusters, Plain, BitmapOf, DataOffset, References, Corruptible, Ruled, FlagBroken, TargetCluster, FlagWrong,
      SharedYetFlagged, KeptOutsideBlocks;
    var g, t := Corrupt(f, h, cls).0, TargetCluster(f, h, cls);
    RuledParts(g, r, h, Free(bits));
    StaysInFile(f, h, cls);
    SameOffsets(g, r, h);
    TargetInFile(f, h, cls);
    forall i, k | 0 <= i < h.l1Size && 0 <= k < h.PerTable() && DataOffset(r, h, i, k) != 0
      ensures ClusterOf(h, DataOffset(r, h, i, k)) < Clusters(|r|, h)
    {
      MappedInFile(g, h, i, k);
    }
    forall c | 0 <= c < Clusters(|f|, h)
      ensures Discrepancy(r, h, c) == Remaining(f, h, cls, c)
      ensures References(r, h, c) <= if cls.Overlapping? && c == t then 2 else 1
    {
      DiscrepancyLeft(f, h, cls, r, bits, c);
    }
    forall i, k | 0 <= i < h.l1Size && 0 <= k < h.PerTable()
      ensures FlagWrong(r, h, i, k) <==> FlagBroken(f, h, cls, i, k)
    {
      FlagsLeft(f, h, cls, r, bits, i, k);
    }
    LeakBreaksNoFlag(f, h, cls);
    assert Discrepancy(r, h, t) == Remaining(f, h, cls, t);
    if cls.Overlapping? {
      OverlapStays(f, r, h, bits);
    }
  }

  lemma LeakBreaksNoFlag(f: seq<byte>, h: Header, cls: Class)
    requires Corruptible(f, h)
    ensures cls.LeakedCluster? ==> forall i, k :: !FlagBroken(f, h, cls, i, k)
  {
  }

  /** The first two entries map one cluster and both are flagged as its only owner; its count is one. */
  ghost predicate SharedYetFlagged(f: seq<byte>, r: seq<byte>, h: Header)
    requires Corruptible(f, h) && |r| == |f| && WellFormed(r, h)
  {
    var t := TargetCluster(f, h, Overlapping);
    && References(r, h, t) == 2 && StoredCount(r, h, t) == 1
    && Copied(L2Entry(r, h, 0, 0)) && L2Entry(r, h, 0, 1) == L2Entry(r, h, 0, 0) == L2Entry(f, h, 0, 0)
  }

  lemma OverlapStays(f: seq<byte>, r: seq<byte>, h: Header, bits: seq<byte>)
    requires Clean(f, h) && Corruptible(f, h) && Plain(Corrupt(f, h, Overlapping).0, h)
    requires BitmapOf(Corrupt(f, h, Overlapping).0, h, bits) && Ruled(Corrupt(f, h, Overlapping).0, r, h, Free(bits))
    requires |r| == |f| && WellFormed(r, h)
    ensures SharedYetFlagged(f, r, h)
  {
    hide GetBE, Pow2, MaskOffset, Corrupt, TableAt, BlockAt, L2Entry, Quotient, SlotCount, WellFormed, StoredCount,
      Clusters, Plain, BitmapOf, References, Ruled, PointsAt, Copied, DataRefs, MetaRefs;
    var g, t := Corrupt(f, h, Overlapping).0, TargetCluster(f, h, Overlapping);
    RuledParts(g, r, h, Free(bits));
    CorruptEffect(f, h, Overlapping);
    TargetInFile(f, h, Overlapping);
    CountsLeft(g, r, h, bits, t);
    ReferencesNow(f, h, Overlapping, t);
    Exclusive(f, h, 0, 0);
    assert !FlagWrong(f, h, 0, 0);
  }
}
