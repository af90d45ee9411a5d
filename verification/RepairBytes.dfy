/** Byte for byte: what a repair leaves alone, when it gives the original file back, and the whole run. */
module RepairBytes {
  import opened Bytes
  import opened Options
  import opened FreeClusters
  import opened Qcow2Metadata
  import opened Corruptor
  import opened CorruptionClasses
  import opened ImageBytes
  import opened ClusterBitmap
  import opened CheckWalk
  import opened WalkMarks
  import opened CountPasses
  import opened FlagPass
  import opened RepairTiers
  import opened RepairOutcome
  import CopiedFlags

  // ----- the corruptor -----

  /** A patch inside one L2 table or refcount block. */
  lemma PatchInside(f: seq<byte>, g: seq<byte>, h: Header, at: nat, n: nat)
    requires TablesReadable(f, h) && ChangedOnly(f, g, at, n)
    requires forall p :: at <= p < at + n ==> InTables(f, h, p) || InBlocks(f, h, p)
    ensures KeptElsewhere(f, g, h)
  {
    hide InTables, InBlocks;
  }

  lemma KeptThrough(f: seq<byte>, m: seq<byte>, g: seq<byte>, h: Header)
    requires SameTables(f, m, h) && TablesReadable(f, h) && TablesReadable(m, h)
    requires KeptElsewhere(f, m, h) && KeptElsewhere(m, g, h)
    ensures KeptElsewhere(f, g, h)
  {
    hide WellFormed, TableAt, BlockAt, SlotCount, Touchable;
    forall p | 0 <= p < |f| && !Touchable(f, h, p)
      ensures g[p] == f[p]
    {
      SameRegions(f, m, h, p);
    }
  }

  lemma EntryPatch(f: seq<byte>, h: Header, j: nat, v: nat)
    requires WellFormed(f, h) && h.l1Size > 0 && TableAt(f, h, 0) != 0 && j < h.PerTable()
    ensures TablesReadable(f, h) && KeptElsewhere(f, WithL2(f, h, j, v), h)
  {
    hide GetBE, Pow2, BE, Splice, Clusters, SlotCount, TableAt, BlockAt, MaskOffset;
    var at := TableAt(f, h, 0) + 8 * j;
    PatchInside(f, WithL2(f, h, j, v), h, at, 8);
  }

  lemma CountPatch(f: seq<byte>, h: Header, c: nat, v: nat)
    requires WellFormed(f, h) && c < Clusters(|f|, h) && HasBlock(f, h, c)
    ensures TablesReadable(f, h) && KeptElsewhere(f, WithCount(f, h, c, v), h)
  {
    hide GetBE, Pow2, BE, Splice, Clusters, SlotCount, TableAt, BlockAt, Slot, Place;
    PatchInside(f, WithCount(f, h, c, v), h, CountAt(f, h, c), 2);
  }

  /** The corruptor touches tables and refcount blocks only. */
  lemma CorruptKeepsRest(f: seq<byte>, h: Header, cls: Class)
    requires Corruptible(f, h)
    ensures TablesReadable(f, h) && KeptElsewhere(f, Corrupt(f, h, cls).0, h)
  {
    hide GetBE, Pow2, WithL2, WithCount, Clusters, SlotCount, TableAt, BlockAt, NewEntry, StoredCount, L2Entry, Slot,
      KeptElsewhere, WellFormed, TargetCluster, InFile;
    AtLeastNine(f, h);
    RemapEffect(f, h, cls);
    NewEntryWidth(f, h, cls);
    var m, c := Remapped(f, h, cls), TargetCluster(f, h, cls);
    AtLeastNine(m, h);
    NothingMoved(f, h);
    if NewEntry(f, h, cls).Some? {
      EntryPatch(f, h, NewEntry(f, h, cls).value.0, NewEntry(f, h, cls).value.1);
    }
    if NewCount(cls).Some? && HasBlock(m, h, c) {
      CountPatch(m, h, c, NewCount(cls).value);
      KeptThrough(f, m, WithCount(m, h, c, NewCount(cls).value), h);
    }
  }

  lemma NothingMoved(f: seq<byte>, h: Header)
    requires TablesReadable(f, h)
    ensures KeptElsewhere(f, f, h)
  {
    hide Touchable;
  }

  /** It leaves the entries of refcount blocks that stand for no cluster of the file alone. */
  lemma CorruptKeepsSpare(f: seq<byte>, h: Header, cls: Class, s: nat, k: nat)
    requires Corruptible(f, h) && s < SlotCount(|f|, h) && BlockAt(f, h, s) != 0 && k < h.PerBlock()
    requires Times(s, h.PerBlock()) + k >= Clusters(|f|, h)
    ensures SameTables(f, Corrupt(f, h, cls).0, h)
    ensures BlockCount(Corrupt(f, h, cls).0, h, s, k) == BlockCount(f, h, s, k)
  {
    hide GetBE, Pow2, WithL2, WithCount, Clusters, SlotCount, TableAt, BlockAt, NewEntry, StoredCount, L2Entry, Slot,
      WellFormed, TargetCluster, InFile, BlockCount;
    RemapEffect(f, h, cls);
    NewEntryWidth(f, h, cls);
    CorruptEffect(f, h, cls);
    var m, c := Remapped(f, h, cls), TargetCluster(f, h, cls);
    AtLeastNine(m, h);
    if NewEntry(f, h, cls).Some? {
      SpareBesideEntry(f, h, NewEntry(f, h, cls).value.0, NewEntry(f, h, cls).value.1, s, k);
    }
    if NewCount(cls).Some? && HasBlock(m, h, c) {
      SpareBesideCount(m, h, c, NewCount(cls).value, s, k);
    }
  }

  lemma SpareBesideEntry(f: seq<byte>, h: Header, j: nat, v: nat, s: nat, k: nat)
    requires WellFormed(f, h) && h.l1Size > 0 && TableAt(f, h, 0) != 0 && j < h.PerTable() && v < U64
    requires s < SlotCount(|f|, h) && BlockAt(f, h, s) != 0 && k < h.PerBlock()
    ensures SameTables(f, WithL2(f, h, j, v), h)
    ensures BlockCount(WithL2(f, h, j, v), h, s, k) == BlockCount(f, h, s, k)
  {
    hide GetBE, Pow2, BE, Splice, Clusters, SlotCount, TableAt, BlockAt, StoredCount, L2Entry;
    L2Written(f, h, j, v);
    TableOutsideBlock(f, h, 0, j, s);
    FieldKept(f, WithL2(f, h, j, v), TableAt(f, h, 0) + 8 * j, 8, BlockAt(f, h, s) + 2 * k, 2);
  }

  lemma SpareBesideCount(f: seq<byte>, h: Header, c: nat, v: nat, s: nat, k: nat)
    requires WellFormed(f, h) && c < Clusters(|f|, h) && HasBlock(f, h, c) && v < U16
    requires s < SlotCount(|f|, h) && BlockAt(f, h, s) != 0 && k < h.PerBlock()
    requires Times(s, h.PerBlock()) + k >= Clusters(|f|, h)
    ensures SameTables(f, WithCount(f, h, c, v), h)
    ensures BlockCount(WithCount(f, h, c, v), h, s, k) == BlockCount(f, h, s, k)
  {
    hide GetBE, Pow2, BE, Splice, Clusters, SlotCount, TableAt, BlockAt, StoredCount, L2Entry, Slot, Times, Place;
    CountWritten(f, h, c, v);
    if Slot(|f|, h, c) == s {
      SlotOf(|f|, h, c, s);
    } else {
      CountOutsideBlock(f, h, c, s);
    }
    FieldKept(f, WithCount(f, h, c, v), CountAt(f, h, c), 2, BlockAt(f, h, s) + 2 * k, 2);
  }

  // ----- marks stay in the file -----

  /** A table that starts on a cluster boundary and ends in the file covers clusters of the file only. */
  lemma CoverInFile(f: seq<byte>, h: Header, at: nat, n: nat, c: nat)
    requires at % h.ClusterSize() == 0 && at + Times(n, h.ClusterSize()) < |f| + h.ClusterSize()
    requires Covers(h, at, n, c) == 1
    ensures c < Clusters(|f|, h)
  {
    hide Times, Pow2;
    var cs := h.ClusterSize();
    WholeAndRest(at, cs);
    TimesAdd(at / cs, n, cs);
    TimesMono(c + 1, at / cs + n, cs);
    TimesStep(c, cs);
    QuotientIs(Times(c, cs), c, cs, 0);
    ByteInFile(f, h, Times(c, cs));
  }

  lemma FilledTop(f: seq<byte>, h: Header)
    requires TablesReadable(f, h) && 9 <= h.clusterBits
    ensures h.l1Offset + Times(Clusters(8 * h.l1Size, h), h.ClusterSize()) < |f| + h.ClusterSize()
    ensures h.tableOffset + Times(h.tableClusters, h.ClusterSize()) < |f| + h.ClusterSize()
  {
    hide Pow2, Times;
    var cs := h.ClusterSize();
    Pow2At9(h.clusterBits);
    WholeAndRest(8 * h.l1Size + cs - 1, cs);
    EightFold(h.tableClusters, h.PerTable());
  }

  lemma EightFold(n: nat, a: nat)
    ensures Times(n, 8 * a) == 8 * Times(n, a)
  {
    MulAssoc(n, 8, a);
    MulAssoc(8, n, a);
  }

  /** No cluster past the end of the file is referenced. */
  lemma NoReferencePast(f: seq<byte>, h: Header, c: nat)
    requires Plain(f, h) && c >= Clusters(|f|, h)
    ensures WellFormed(f, h) && References(f, h, c) == 0
  {
    hide Pow2, Times, GetBE, SlotCount, Rows, TableAt, BlockAt, L2Entry, MaskOffset, Clusters, Quotient, Accepted,
      Standard, Tracked, Features, Snapshots, NoneCompressed, Aligned, Covers;
    PlainParts(f, h);
    AtLeastNine(f, h);
    FilledTop(f, h);
    Pow2At9(h.clusterBits);
    HeaderCluster(h);
    ByteInFile(f, h, 0);
    HeaderCovers(h, c);
    if Covers(h, h.l1Offset, Clusters(8 * h.l1Size, h), c) == 1 {
      CoverInFile(f, h, h.l1Offset, Clusters(8 * h.l1Size, h), c);
    }
    if Covers(h, h.tableOffset, h.tableClusters, c) == 1 {
      CoverInFile(f, h, h.tableOffset, h.tableClusters, c);
    }
    forall i, j | 0 <= i < h.l1Size && 0 <= j < h.PerTable()
      ensures !PointsAt(h, L2Entry(f, h, i, j), c)
    {
      OffsetOf(f, h, i, j);
    }
    assert DataRefs(f, h, c) == {};
    NoMetadataPast(f, h, c);
    CoversIsOne(h, h.l1Offset, Clusters(8 * h.l1Size, h), c);
    CoversIsOne(h, h.tableOffset, h.tableClusters, c);
  }

  lemma HeaderCovers(h: Header, c: nat)
    ensures Covers(h, 0, 1, c) == if c == 0 then 1 else 0
  {
    HeaderCluster(h);
  }

  lemma CoversIsOne(h: Header, at: nat, n: nat, c: nat)
    ensures Covers(h, at, n, c) <= 1
  {
  }

  lemma NoMetadataPast(f: seq<byte>, h: Header, c: nat)
    requires WellFormed(f, h) && c >= Clusters(|f|, h)
    ensures TableRefs(f, h, c) == {} && BlockRefs(f, h, c) == {}
  {
    hide Pow2, GetBE, SlotCount, TableAt, BlockAt, Clusters, Quotient, Apart;
    ClusterPositive(h);
    forall i | 0 <= i < h.l1Size && TableAt(f, h, i) != 0
      ensures ClusterOf(h, TableAt(f, h, i)) != c
    {
      ByteInFile(f, h, TableAt(f, h, i));
    }
    forall s | 0 <= s < SlotCount(|f|, h) && BlockAt(f, h, s) != 0
      ensures ClusterOf(h, BlockAt(f, h, s)) != c
    {
      ByteInFile(f, h, BlockAt(f, h, s));
    }
  }

  lemma NoMarkPast(g: seq<byte>, h: Header, bits: seq<byte>, c: nat)
    requires Plain(g, h) && BitmapOf(g, h, bits) && c >= Clusters(|g|, h)
    ensures !Test(bits, c)
  {
    hide Walk, Sound, Accepted, Standard, References, Clusters, Size, Rows;
    if c < 8 * |bits| {
      NoReferencePast(g, h, c);
      MarksAreReferences(8 * |bits|, g, h, RepairTiers.Flagged(Features(g)), c);
      assert c in Marks(bits) <==> Test(bits, c);
    }
  }

  // ----- the all tier gives the file back -----

  /** Entries of refcount blocks that stand for no cluster of the file are zero. */
  ghost predicate SpareZero(f: seq<byte>, h: Header)
    requires WellFormed(f, h) && TablesReadable(f, h)
  {
    forall s, k :: 0 <= s < SlotCount(|f|, h) && BlockAt(f, h, s) != 0 && 0 <= k < h.PerBlock() ==>
      Times(s, h.PerBlock()) + k < Clusters(|f|, h) || BlockCount(f, h, s, k) == 0
  }

  /**
   Nothing for the all tier to tidy up: L1 entries are flagged, unmapped L2 entries are not, counts past the last
   cluster are zero, and bit 1 of the word at 72 is clear.
   */
  ghost predicate Tidy(f: seq<byte>, h: Header)
    requires WellFormed(f, h) && TablesReadable(f, h)
  {
    && (forall i :: 0 <= i < h.l1Size && TableAt(f, h, i) != 0 ==> Copied(Word(f, h.l1Offset + 8 * i)))
    && (forall i, k :: 0 <= i < h.l1Size && 0 <= k < h.PerTable() && DataOffset(f, h, i, k) == 0 ==>
          !Copied(L2Entry(f, h, i, k)))
    && SpareZero(f, h) && !RepairTiers.Flagged(GetBE(f, FEATURES_AT, 8))
  }

  lemma L1Width(f: seq<byte>, h: Header, i: nat)
    requires TablesReadable(f, h) && i < h.l1Size
    ensures Word(f, h.l1Offset + 8 * i) < U64
  {
    hide Pow2, SlotCount;
    var at := h.l1Offset + 8 * i;
    BEInverse(f[at..at + 8]);
    WidthLimits();
  }

  /** An L2 table of an image lies in a marked cluster. */
  lemma TableMarked(g: seq<byte>, h: Header, bits: seq<byte>, i: nat)
    requires Plain(g, h) && BitmapOf(g, h, bits) && TablesReadable(g, h) && i < h.l1Size && TableAt(g, h, i) != 0
    ensures Test(bits, ClusterOf(h, TableAt(g, h, i)))
  {
    hide Pow2, GetBE, SlotCount, TableAt, BlockAt, Clusters, Quotient, BitmapOf, Test, Accepted, Standard, Tracked,
      Features, Snapshots, NoneCompressed, Aligned, InFile, DataRefs, BlockRefs, Covers;
    PlainParts(g, h);
    ClusterPositive(h);
    var c := ClusterOf(h, TableAt(g, h, i));
    TableInFile(g, h, i);
    ByteInFile(g, h, TableAt(g, h, i));
    OnlyOne(TableRefs(g, h, c), i);
    BitmapTells(g, h, bits, c);
  }

  /** The L1 table comes back exactly if every entry with a table was flagged. */
  lemma L1Back(f: seq<byte>, g: seq<byte>, r: seq<byte>, h: Header, bits: seq<byte>)
    requires Plain(g, h) && BitmapOf(g, h, bits) && Whole(g, r, h, bits) && |f| == |g|
    requires TablesReadable(f, h) && TablesReadable(g, h) && TablesReadable(r, h) && SameL1(f, g, h)
    ensures SameL1(f, r, h) <==>
            forall i :: 0 <= i < h.l1Size && TableAt(f, h, i) != 0 ==> Copied(Word(f, h.l1Offset + 8 * i))
  {
    hide Pow2, GetBE, SlotCount, BlockAt, Clusters, Quotient, BitmapOf, Test, Plain, WellFormed, L2Entry, StoredCount,
      MaskOffset, Word, KeptElsewhere, BlocksRuled, Rows, Sole, CountNow;
    forall i | 0 <= i < h.l1Size
      ensures Word(r, h.l1Offset + 8 * i) == Word(f, h.l1Offset + 8 * i) <==>
              TableAt(f, h, i) == 0 || Copied(Word(f, h.l1Offset + 8 * i))
    {
      L1Width(f, h, i);
      assert Word(g, h.l1Offset + 8 * i) == Word(f, h.l1Offset + 8 * i);
      if TableAt(f, h, i) != 0 {
        TableMarked(g, h, bits, i);
      }
    }
    if SameL1(f, r, h) {
      forall i | 0 <= i < h.l1Size && TableAt(f, h, i) != 0
        ensures Copied(Word(f, h.l1Offset + 8 * i))
      {
        assert Word(r, h.l1Offset + 8 * i) == Word(f, h.l1Offset + 8 * i);
      }
    } else {
      var i :| 0 <= i < h.l1Size && Word(r, h.l1Offset + 8 * i) != Word(f, h.l1Offset + 8 * i);
      assert TableAt(f, h, i) != 0;
    }
  }

  lemma OwnFlagOnly(e: nat)
    requires e < U64
    ensures Cleared(e) == e <==> !Copied(e)
  {
  }

  /** The L2 tables come back exactly if no unmapped entry was flagged. */
  lemma L2Back(f: seq<byte>, h: Header, cls: Class, r: seq<byte>, bits: seq<byte>)
    requires Clean(f, h) && Corruptible(f, h) && Undone(cls)
    requires Plain(Corrupt(f, h, cls).0, h) && BitmapOf(Corrupt(f, h, cls).0, h, bits)
    requires Whole(Corrupt(f, h, cls).0, r, h, bits) && WellFormed(r, h)
    ensures SameEntries(f, r, h) <==>
            forall i, k :: 0 <= i < h.l1Size && 0 <= k < h.PerTable() && DataOffset(f, h, i, k) == 0 ==>
              !Copied(L2Entry(f, h, i, k))
  {
    hide Pow2, GetBE, SlotCount, TableAt, BlockAt, Clusters, BitmapOf, Plain, WellFormed, L2Entry, DataOffset, Copied,
      Cleared, Corrupt, Corruptible, Whole, StoredCount;
    forall i, k | 0 <= i < h.l1Size && 0 <= k < h.PerTable()
      ensures L2Entry(r, h, i, k) == L2Entry(f, h, i, k) <==>
              DataOffset(f, h, i, k) != 0 || !Copied(L2Entry(f, h, i, k))
    {
      EntryBack(f, h, cls, r, bits, i, k);
      EntryWidth(f, h, i, k);
      OwnFlagOnly(L2Entry(f, h, i, k));
    }
  }

  /** A place in a block that stands for a cluster of the file. */
  lemma PlaceOf(f: seq<byte>, h: Header, s: nat, k: nat)
    requires WellFormed(f, h) && s < SlotCount(|f|, h) && BlockAt(f, h, s) != 0 && k < h.PerBlock()
    requires Times(s, h.PerBlock()) + k < Clusters(|f|, h)
    ensures StoredCount(f, h, Times(s, h.PerBlock()) + k) == BlockCount(f, h, s, k)
  {
    hide Pow2, GetBE, Clusters, SlotCount, TableAt, BlockAt, Times;
    var c := Times(s, h.PerBlock()) + k;
    QuotientIs(c, s, h.PerBlock(), k);
    assert Slot(|f|, h, c) == s && Place(h, c) == k;
    CountOfBlock(f, h, c);
  }

  /** The refcount blocks come back exactly if the counts past the last cluster were zero. */
  lemma BlocksBack(f: seq<byte>, h: Header, cls: Class, r: seq<byte>, bits: seq<byte>)
    requires Corruptible(f, h) && TablesReadable(f, h) && SameTables(f, r, h) && SameCounts(f, r, h)
    requires Plain(Corrupt(f, h, cls).0, h) && BitmapOf(Corrupt(f, h, cls).0, h, bits)
    requires Whole(Corrupt(f, h, cls).0, r, h, bits)
    ensures SameBlocks(f, r, h) <==> SpareZero(f, h)
  {
    hide Pow2, GetBE, SlotCount, TableAt, BlockAt, Clusters, BitmapOf, Plain, WellFormed, L2Entry, DataOffset, Corrupt,
      Corruptible, Whole, StoredCount, BlockCount, Times;
    forall s, k | 0 <= s < SlotCount(|f|, h) && BlockAt(f, h, s) != 0 && 0 <= k < h.PerBlock()
      ensures BlockCount(r, h, s, k) == BlockCount(f, h, s, k) <==>
              Times(s, h.PerBlock()) + k < Clusters(|f|, h) || BlockCount(f, h, s, k) == 0
    {
      if Times(s, h.PerBlock()) + k < Clusters(|f|, h) {
        PlaceOf(f, h, s, k);
        PlaceOf(r, h, s, k);
      } else {
        SpareNow(f, h, cls, r, bits, s, k);
      }
    }
  }

  /** A count past the last cluster is zero after the all tier. */
  lemma SpareNow(f: seq<byte>, h: Header, cls: Class, r: seq<byte>, bits: seq<byte>, s: nat, k: nat)
    requires Corruptible(f, h) && SameTables(f, r, h)
    requires Plain(Corrupt(f, h, cls).0, h) && BitmapOf(Corrupt(f, h, cls).0, h, bits)
    requires Whole(Corrupt(f, h, cls).0, r, h, bits)
    requires s < SlotCount(|f|, h) && BlockAt(f, h, s) != 0 && k < h.PerBlock()
    requires Times(s, h.PerBlock()) + k >= Clusters(|f|, h)
    ensures BlockCount(r, h, s, k) == 0
  {
    hide Pow2, GetBE, SlotCount, TableAt, BlockAt, Clusters, BitmapOf, WellFormed, L2Entry, DataOffset, Corrupt, Rows,
      Corruptible, StoredCount, BlockCount, Times, Test, Accepted, Standard, Tracked, KeptElsewhere, CountNow, L1Now;
    var g := Corrupt(f, h, cls).0;
    CorruptEffect(f, h, cls);
    Parts(g, h);
    NoMarkPast(g, h, bits, Times(s, h.PerBlock()) + k);
    assert BlockCount(r, h, s, k) == Recount(bits)(Times(s, h.PerBlock()) + k, BlockCount(g, h, s, k));
  }

  /** After the all tier the file is the original one, byte for byte, exactly if the class is undone and it was tidy. */
  lemma AllTierBytes(f: seq<byte>, h: Header, cls: Class, r: seq<byte>, bits: seq<byte>)
    requires Clean(f, h) && Corruptible(f, h) && Plain(Corrupt(f, h, cls).0, h) && !cls.Overlapping?
    requires BitmapOf(Corrupt(f, h, cls).0, h, bits) && Whole(Corrupt(f, h, cls).0, r, h, bits)
    ensures TablesReadable(f, h) && KeptElsewhere(f, r, h)
    ensures r == f <==> Undone(cls) && Tidy(f, h)
  {
    hide Pow2, GetBE, SlotCount, TableAt, BlockAt, Clusters, BitmapOf, Plain, WellFormed, L2Entry, DataOffset, Corrupt,
      Corruptible, Whole, StoredCount, BlockCount, Times, KeptElsewhere, Clean, Copied, Word, SpareZero;
    var g := Corrupt(f, h, cls).0;
    CorruptEffect(f, h, cls);
    CorruptKeepsRest(f, h, cls);
    WholeKeeps(g, r, h, bits);
    AtLeastNine(f, h);
    AtLeastNine(g, h);
    AtLeastNine(r, h);
    WholeFrame(g, r, h, bits);
    KeptThrough(f, g, r, h);
    if Undone(cls) {
      AllTierOutcome(f, h, cls, r, bits);
      SameBytes(f, r, h);
      CorruptKeepsL1(f, h, cls);
      L1Back(f, g, r, h, bits);
      L2Back(f, h, cls, r, bits);
      BlocksBack(f, h, cls, r, bits);
    } else {
      LeakStays(f, h, cls, r, bits);
    }
  }

  lemma WholeFrame(g: seq<byte>, r: seq<byte>, h: Header, bits: seq<byte>)
    requires Whole(g, r, h, bits)
    ensures TablesReadable(g, h) && KeptElsewhere(g, r, h)
    ensures |g| == |r| >= 104 && GetBE(r, FEATURES_AT, 8) == WithoutBit(GetBE(g, FEATURES_AT, 8))
  {
    hide WellFormed, GetBE, TableAt, BlockAt, StoredCount, L2Entry, KeptElsewhere, BlocksRuled;
    AtLeastNine(g, h);
  }

  lemma CorruptKeepsL1(f: seq<byte>, h: Header, cls: Class)
    requires Corruptible(f, h)
    ensures TablesReadable(f, h) && |Corrupt(f, h, cls).0| == |f| && SameL1(f, Corrupt(f, h, cls).0, h)
    ensures GetBE(Corrupt(f, h, cls).0, FEATURES_AT, 8) == GetBE(f, FEATURES_AT, 8)
  {
    hide Pow2, GetBE, SlotCount, TableAt, BlockAt, Clusters, WellFormed, Corrupt, SameTop, InFile, StoredCount, L2Entry;
    AtLeastNine(f, h);
    var g := Corrupt(f, h, cls).0;
    CorruptEffect(f, h, cls);
    CorruptKeepsTop(f, h, cls);
    AtLeastNine(g, h);
    SameFields(f, g, h, FEATURES_AT, 8);
    forall i | 0 <= i < h.l1Size
      ensures Word(g, h.l1Offset + 8 * i) == Word(f, h.l1Offset + 8 * i)
    {
      SameWord(f, g, h, i);
    }
  }

  lemma LeakStays(f: seq<byte>, h: Header, cls: Class, r: seq<byte>, bits: seq<byte>)
    requires Clean(f, h) && Corruptible(f, h) && Plain(Corrupt(f, h, cls).0, h) && cls.LeakedCluster?
    requires BitmapOf(Corrupt(f, h, cls).0, h, bits) && Whole(Corrupt(f, h, cls).0, r, h, bits)
    ensures r != f
  {
    hide Pow2, GetBE, SlotCount, TableAt, BlockAt, Clusters, BitmapOf, Plain, WellFormed, L2Entry, DataOffset, Corrupt,
      Corruptible, Whole, StoredCount, Clean, References, TargetCluster, PointsAt, Placed;
    var g, t := Corrupt(f, h, cls).0, TargetCluster(f, h, cls);
    CorruptEffect(f, h, cls);
    PlacedAfter(f, h, cls);
    WholeKeeps(g, r, h, bits);
    TargetInFile(f, h, cls);
    CountsFromBitmap(g, r, h, bits, t);
    ReferencesNow(f, h, cls, t);
    TargetCounted(f, h, cls);
  }

  // ----- the leaks tier -----

  ghost predicate NothingLeaked(g: seq<byte>, h: Header)
    requires WellFormed(g, h)
  {
    forall c :: 0 <= c < Clusters(|g|, h) && References(g, h, c) == 0 ==> StoredCount(g, h, c) == 0
  }

  /** The leaks tier leaves every byte alone exactly if there is no leak and no count past the last cluster. */
  lemma LeaksTierBytes(g: seq<byte>, r: seq<byte>, h: Header, bits: seq<byte>)
    requires Plain(g, h) && BitmapOf(g, h, bits) && Ruled(g, r, h, Free(bits))
    ensures WellFormed(g, h) && TablesReadable(g, h) && (r == g <==> NothingLeaked(g, h) && SpareZero(g, h))
  {
    hide Pow2, GetBE, SlotCount, TableAt, BlockAt, Clusters, BitmapOf, Plain, WellFormed, L2Entry, StoredCount,
      BlockCount, Times, References, KeptElsewhere, Ruled, KeptOutsideBlocks, Word;
    RuledParts(g, r, h, Free(bits));
    AtLeastNine(g, h);
    AtLeastNine(r, h);
    RuledTop(g, r, h, Free(bits));
    SameBytes(g, r, h);
    forall s, k | 0 <= s < SlotCount(|g|, h) && BlockAt(g, h, s) != 0 && 0 <= k < h.PerBlock()
      ensures var c := Times(s, h.PerBlock()) + k;
              BlockCount(r, h, s, k) == BlockCount(g, h, s, k) <==>
              BlockCount(g, h, s, k) == 0 || (c < Clusters(|g|, h) && References(g, h, c) > 0)
    {
      EntryLeft(g, r, h, bits, s, k);
    }
    if SameBlocks(g, r, h) {
      forall c | 0 <= c < Clusters(|g|, h) && References(g, h, c) == 0
        ensures StoredCount(g, h, c) == 0
      {
        LeakVisible(g, r, h, bits, c);
      }
    } else {
      var s, k :| 0 <= s < SlotCount(|g|, h) && BlockAt(g, h, s) != 0 && 0 <= k < h.PerBlock() &&
        BlockCount(r, h, s, k) != BlockCount(g, h, s, k);
      if Times(s, h.PerBlock()) + k < Clusters(|g|, h) {
        PlaceOf(g, h, s, k);
      }
    }
  }

  lemma RuledTop(g: seq<byte>, r: seq<byte>, h: Header, rule: CountRule)
    requires Ruled(g, r, h, rule) && TablesReadable(g, h) && TablesReadable(r, h)
    ensures |r| == |g| && SameL1(g, r, h) && GetBE(r, 72, 8) == GetBE(g, 72, 8) && KeptElsewhere(g, r, h)
  {
    hide WellFormed, GetBE, TableAt, BlockAt, StoredCount, L2Entry, BlocksRuled, InBlocks, InTables;
    SameFeatures(g, r);
    L1KeptBy(g, r, h);
  }

  /** An entry of a block after the leaks tier. */
  lemma EntryLeft(g: seq<byte>, r: seq<byte>, h: Header, bits: seq<byte>, s: nat, k: nat)
    requires Plain(g, h) && BitmapOf(g, h, bits) && Ruled(g, r, h, Free(bits)) && SameTables(g, r, h)
    requires s < SlotCount(|g|, h) && BlockAt(g, h, s) != 0 && k < h.PerBlock()
    ensures var c := Times(s, h.PerBlock()) + k;
            BlockCount(r, h, s, k) ==
            if c < Clusters(|g|, h) && References(g, h, c) > 0 then BlockCount(g, h, s, k) else 0
  {
    hide Pow2, GetBE, SlotCount, TableAt, BlockAt, Clusters, BitmapOf, WellFormed, L2Entry, DataOffset, Rows,
      StoredCount, BlockCount, Times, Test, Accepted, Standard, Tracked, KeptOutsideBlocks, References, SameTop;
    var c := Times(s, h.PerBlock()) + k;
    Parts(g, h);
    if c < Clusters(|g|, h) {
      BitmapTells(g, h, bits, c);
    } else {
      NoMarkPast(g, h, bits, c);
    }
    assert BlockCount(r, h, s, k) == Free(bits)(c, BlockCount(g, h, s, k));
  }

  lemma LeakVisible(g: seq<byte>, r: seq<byte>, h: Header, bits: seq<byte>, c: nat)
    requires Plain(g, h) && BitmapOf(g, h, bits) && Ruled(g, r, h, Free(bits)) && SameTables(g, r, h)
    requires TablesReadable(g, h) && SameBlocks(g, r, h) && c < Clusters(|g|, h) && References(g, h, c) == 0
    ensures StoredCount(g, h, c) == 0
  {
    hide Pow2, GetBE, SlotCount, TableAt, BlockAt, Clusters, BitmapOf, Plain, WellFormed, L2Entry, BlockCount, Times,
      References, Ruled, Slot, Place;
    if HasBlock(g, h, c) {
      CountOfBlock(g, h, c);
      PlaceBelow(|g|, h, c);
      SlotOf(|g|, h, c, Slot(|g|, h, c));
      EntryLeft(g, r, h, bits, Slot(|g|, h, c), Place(h, c));
    }
  }

  lemma PlaceBelow(size: nat, h: Header, c: nat)
    requires h.PerBlock() > 0 && c < Clusters(size, h)
    ensures Place(h, c) < h.PerBlock() && Slot(size, h, c) < SlotCount(size, h)
  {
    hide Clusters, SlotCount, Pow2;
  }

  /** The classes that leave a cluster with a count and without a reference. */
  predicate Leaks(f: seq<byte>, h: Header, cls: Class)
    requires Corruptible(f, h)
  {
    cls.LeakedCluster? || (cls.Overlapping? && DataOffset(f, h, 0, 1) != 0)
  }

  lemma LeakedExactly(f: seq<byte>, h: Header, cls: Class)
    requires Clean(f, h) && Corruptible(f, h)
    ensures WellFormed(Corrupt(f, h, cls).0, h) && (NothingLeaked(Corrupt(f, h, cls).0, h) <==> !Leaks(f, h, cls))
  {
    hide Pow2, GetBE, SlotCount, TableAt, BlockAt, Clusters, WellFormed, L2Entry, Corrupt, StoredCount, References,
      Quotient, MaskOffset, InFile;
    var g, t := Corrupt(f, h, cls).0, TargetCluster(f, h, cls);
    CorruptEffect(f, h, cls);
    forall c | 0 <= c < Clusters(|g|, h)
      ensures References(g, h, c) == 0 && StoredCount(g, h, c) != 0 <==>
              (cls.LeakedCluster? && c == t) || (cls.Overlapping? && c != t && PointsAt(h, L2Entry(f, h, 0, 1), c))
    {
      ReferencesNow(f, h, cls, c);
      TargetCounted(f, h, cls);
      if cls.Overlapping? && c != t && PointsAt(h, L2Entry(f, h, 0, 1), c) {
        DisplacedCounted(f, h, c);
      }
    }
    TargetInFile(f, h, cls);
    OffsetOf(f, h, 0, 1);
    if cls.LeakedCluster? {
      assert References(g, h, t) == 0 && StoredCount(g, h, t) != 0;
    } else if cls.Overlapping? && DataOffset(f, h, 0, 1) != 0 {
      var c := ClusterOf(h, DataOffset(f, h, 0, 1));
      MappedInFile(f, h, 0, 1);
      Exclusive(f, h, 0, 0);
      Exclusive(f, h, 0, 1);
      assert (0, 1) !in {(0, 0)};
      assert References(g, h, c) == 0 && StoredCount(g, h, c) != 0;
    }
  }

  lemma SpareStays(f: seq<byte>, h: Header, cls: Class)
    requires Corruptible(f, h)
    ensures var g := Corrupt(f, h, cls).0;
            && WellFormed(f, h) && WellFormed(g, h) && TablesReadable(f, h) && TablesReadable(g, h)
            && (SpareZero(g, h) <==> SpareZero(f, h))
  {
    hide Pow2, GetBE, SlotCount, TableAt, BlockAt, Clusters, WellFormed, L2Entry, Corrupt, StoredCount, BlockCount,
      Times, InFile, DataOffset;
    var g := Corrupt(f, h, cls).0;
    CorruptEffect(f, h, cls);
    AtLeastNine(f, h);
    AtLeastNine(g, h);
    forall s, k | 0 <= s < SlotCount(|f|, h) && BlockAt(f, h, s) != 0 && 0 <= k < h.PerBlock()
                  && Times(s, h.PerBlock()) + k >= Clusters(|f|, h)
      ensures BlockCount(g, h, s, k) == BlockCount(f, h, s, k)
    {
      CorruptKeepsSpare(f, h, cls, s, k);
    }
  }

  // ----- guest data -----

  predicate BlocksAligned(f: seq<byte>, h: Header)
    requires TablesReadable(f, h)
  {
    forall s :: 0 <= s < SlotCount(|f|, h) ==> BlockAt(f, h, s) % h.ClusterSize() == 0
  }

  /** Byte p belongs to the cluster that an L2 entry maps. */
  predicate Maps(f: seq<byte>, h: Header, i: nat, k: nat, p: nat)
    requires WellFormed(f, h) && i < h.l1Size && k < h.PerTable()
  {
    DataOffset(f, h, i, k) != 0 && DataOffset(f, h, i, k) <= p < DataOffset(f, h, i, k) + h.ClusterSize()
  }

  /** Every byte of every cluster that the image maps. */
  ghost predicate ContentKept(f: seq<byte>, r: seq<byte>, h: Header)
    requires WellFormed(f, h) && |r| == |f|
  {
    forall i, k, p :: 0 <= i < h.l1Size && 0 <= k < h.PerTable() && 0 <= p < |f| && Maps(f, h, i, k, p) ==> r[p] == f[p]
  }

  /** A byte of a cluster that starts on a boundary lies in that cluster. */
  lemma ByteOf(h: Header, at: nat, p: nat)
    requires at % h.ClusterSize() == 0 && at <= p < at + h.ClusterSize()
    ensures ClusterOf(h, p) == ClusterOf(h, at)
  {
    hide Pow2, Times;
    var cs := h.ClusterSize();
    WholeAndRest(at, cs);
    QuotientIs(at, at / cs, cs, 0);
    QuotientIs(p, at / cs, cs, p - at);
  }

  /** In a clean image no byte of a mapped cluster belongs to a table, a block or the header. */
  lemma MappedUntouchable(f: seq<byte>, h: Header, i: nat, k: nat, p: nat)
    requires Clean(f, h) && Plain(f, h) && TablesReadable(f, h) && BlocksAligned(f, h)
    requires i < h.l1Size && k < h.PerTable() && Maps(f, h, i, k, p)
    ensures !Touchable(f, h, p)
  {
    hide Pow2, Times, GetBE, SlotCount, Rows, TableAt, BlockAt, L2Entry, MaskOffset, Clusters, Quotient, Accepted,
      Standard, Tracked, Features, Snapshots, NoneCompressed, Covers, InFile, Clean, DataOffset, DataRefs, WellFormed,
      StoredCount;
    var at := DataOffset(f, h, i, k);
    var c := ClusterOf(h, at);
    assert at % h.ClusterSize() == 0;
    ByteOf(h, at, p);
    Exclusive(f, h, i, k);
    ClearOfTop(h, c, p);
    if InTables(f, h, p) {
      var j :| 0 <= j < h.l1Size && TableAt(f, h, j) != 0 &&
        TableAt(f, h, j) <= p < TableAt(f, h, j) + h.ClusterSize();
      TableIsAligned(f, h, j);
      ByteOf(h, TableAt(f, h, j), p);
      OnlyOne(TableRefs(f, h, c), j);
    }
    if InBlocks(f, h, p) {
      var s :| 0 <= s < SlotCount(|f|, h) && BlockAt(f, h, s) != 0 &&
        BlockAt(f, h, s) <= p < BlockAt(f, h, s) + h.ClusterSize();
      ByteOf(h, BlockAt(f, h, s), p);
      OnlyOne(BlockRefs(f, h, c), s);
    }
  }

  lemma TableIsAligned(f: seq<byte>, h: Header, j: nat)
    requires Sound(f, h) && TablesReadable(f, h) && j < h.l1Size && TableAt(f, h, j) != 0
    ensures TableAt(f, h, j) % h.ClusterSize() == 0
  {
    hide WellFormed, GetBE, SlotCount, Pow2, Rows, NoneCompressed, InFile, DataOffset;
    MaskOfZero();
  }

  lemma ClearOfTop(h: Header, c: nat, p: nat)
    requires 9 <= h.clusterBits && h.l1Offset % h.ClusterSize() == 0 && ClusterOf(h, p) == c
    requires Covers(h, 0, 1, c) == 0 && Covers(h, h.l1Offset, Clusters(8 * h.l1Size, h), c) == 0
    ensures !InFeatures(p) && !InL1(h, p)
  {
    hide Pow2, Times, Clusters, Covers;
    PastFirst(h, p);
    if InL1(h, p) {
      RoundedUp(h, 8 * h.l1Size);
      ByteCovered(h, h.l1Offset, Clusters(8 * h.l1Size, h), p);
    }
  }

  /** A run that keeps all bytes outside tables, blocks and features word keeps the guest's data. */
  lemma GuestDataKept(f: seq<byte>, r: seq<byte>, h: Header)
    requires Clean(f, h) && Plain(f, h) && TablesReadable(f, h) && BlocksAligned(f, h) && KeptElsewhere(f, r, h)
    ensures WellFormed(f, h) && ContentKept(f, r, h)
  {
    hide Clean, Plain, WellFormed, Maps, BlocksAligned, Touchable, Pow2;
    CleanIsSingle(f, h);
    forall i, k, p | 0 <= i < h.l1Size && 0 <= k < h.PerTable() && 0 <= p < |f| && Maps(f, h, i, k, p)
      ensures r[p] == f[p]
    {
      MappedUntouchable(f, h, i, k, p);
    }
  }

  // ----- corrupting and repairing -----

  /**
   The features word survives the all tier exactly if its corrupt bit was clear, as it is in an accepted version 3
   header.
   */
  lemma FeaturesSurvive(f: seq<byte>, h: Header, w: nat)
    requires Plain(f, h) && w == WithoutBit(GetBE(f, FEATURES_AT, 8))
    ensures w == GetBE(f, FEATURES_AT, 8) <==> !RepairTiers.Flagged(GetBE(f, FEATURES_AT, 8))
    ensures Version(f) == 3 ==> w == GetBE(f, FEATURES_AT, 8)
  {
    hide GetBE, Sound, HasBit, Times, Pow2, Rows, Clusters;
  }

  lemma ReadyForRepair(f: seq<byte>, h: Header, cls: Class)
    requires Clean(f, h) && Corruptible(f, h) && Plain(f, h)
    ensures var g := Corrupt(f, h, cls).0;
            && |g| == |f| && Plain(g, h) && WellFormed(g, h) && TablesReadable(g, h) && TopApart(g, h) && Accepted(g, h)
            && Standard(g)
            && TablesReadable(f, h) && TableCount(g, h, h.l1Size) == TableCount(f, h, h.l1Size)
            && GetBE(g, FEATURES_AT, 8) == GetBE(f, FEATURES_AT, 8)
  {
    hide GetBE, Pow2, Corrupt, TableAt, BlockAt, SlotCount, Clusters, Rows, HasBit, Accepted, Standard, Features,
      Snapshots, TableCount, InFile, NoneCompressed, Aligned, SameTop, TopApart, Clean, WellFormed, StoredCount,
      L2Entry, DataOffset;
    var g := Corrupt(f, h, cls).0;
    StaysPlain(f, h, cls);
    CleanIsSingle(f, h);
    CleanTopApart(f, h);
    CorruptEffect(f, h, cls);
    CorruptKeepsTop(f, h, cls);
    SameFields(f, g, h, FEATURES_AT, 8);
    AtLeastNine(g, h);
    SameTopApart(f, g, h);
    SameTableCount(f, g, h, h.l1Size);
  }

  lemma SameTopApart(f: seq<byte>, g: seq<byte>, h: Header)
    requires TablesReadable(f, h) && TablesReadable(g, h) && |g| == |f| && TopApart(f, h)
    ensures TopApart(g, h)
  {
  }

  /** Corrupts a clean image in place and lets the check repair it. */
  method CorruptThenRepair(file: array<byte>, h: Header, cls: Class, mode: Mode) returns (r: Report)
    requires Clean(file[..], h) && Corruptible(file[..], h) && Plain(file[..], h)
    modifies file
    ensures TablesReadable(old(file[..]), h) && KeptElsewhere(old(file[..]), file[..], h)
    ensures BlocksAligned(old(file[..]), h) ==> ContentKept(old(file[..]), file[..], h)
    ensures r.accepted && (r.corruptions == 0 <==> !cls.Overlapping?)
    ensures mode.ReadOnly? ==> r.tier.NoTier? && file[..] == Corrupt(old(file[..]), h, cls).0
    ensures mode.Everything? && !cls.Overlapping? ==>
              var f := old(file[..]);
              && TablesReadable(f, h) && r.tier.AllTier?
              && (r.tier.complete <==> Preflight(f, h, Size(Clusters(|f|, h))) && Room(h, TableCount(f, h, h.l1Size)))
              && (r.tier.complete ==> Clean(file[..], h) && (Restored(f, file[..], h) <==> Undone(cls)))
              && (r.tier.complete ==> (file[..] == f <==> Undone(cls) && Tidy(f, h)))
              && (r.tier.complete ==> GetBE(file[..], FEATURES_AT, 8) == WithoutBit(GetBE(f, FEATURES_AT, 8)))
              && (r.tier.complete && Version(f) == 3 ==> GetBE(file[..], FEATURES_AT, 8) == GetBE(f, FEATURES_AT, 8))
              && (!r.tier.complete && file[..] != Corrupt(f, h, cls).0 ==>
                  RepairTiers.Flagged(GetBE(file[..], FEATURES_AT, 8)))
    ensures mode.LeaksOnly? || (mode.Everything? && cls.Overlapping?) ==>
              && r.tier.LeaksTier? && (r.tier.ran <==> SCRATCH_BASE + Size(Clusters(file.Length, h)) <= REFBLOCK_BUF)
              && (r.tier.ran ==> AfterLeaks(old(file[..]), h, cls, file[..]))
              && (file[..] == Corrupt(old(file[..]), h, cls).0 <==>
                  !r.tier.ran || (!Leaks(old(file[..]), h, cls) && SpareZero(old(file[..]), h)))
  {
    hide GetBE, Pow2, Corrupt, TableAt, BlockAt, SlotCount, Clusters, Rows, HasBit, Accepted, Standard, Features,
      Snapshots, TableCount, InFile, NoneCompressed, Aligned, SameTop, TopApart, Clean, Corruptible, WellFormed, Plain,
      Whole, Halfway, Ruled, BitmapOf, Found, Preflight, Room, Restored, Size, AfterLeaks, Tracked;
    ghost var f := file[..];
    GateDecides(f, h, cls);
    ReadyForRepair(f, h, cls);
    CorruptClean(file, h, cls);
    ghost var g := file[..];
    PlainParts(g, h);
    ghost var bits;
    r, bits := CheckAndRepair(file, h, mode);
    BitmapSize(g, h, bits);
    assert Preflight(g, h, |bits|) == Preflight(f, h, |bits|) by { SamePreflight(f, g, h, |bits|); }
    if r.tier.LeaksTier? && r.tier.ran {
      LeaksTierOutcome(f, h, cls, file[..], bits);
      LeaksTierBytes(g, file[..], h, bits);
      LeakedExactly(f, h, cls);
      SpareStays(f, h, cls);
    }
    if r.tier.AllTier? && r.tier.complete {
      AllTierOutcome(f, h, cls, file[..], bits);
      AllTierBytes(f, h, cls, file[..], bits);
      WholeFrame(g, file[..], h, bits);
      FeaturesSurvive(f, h, GetBE(file[..], FEATURES_AT, 8));
    }
    if r.tier.AllTier? && !r.tier.complete && file[..] != g {
      HalfwayFlagged(g, file[..], h, bits);
    }
    assert KeptElsewhere(g, file[..], h) by { RepairKeeps(g, file[..], h, bits); }
    CorruptKeepsRest(f, h, cls);
    assert SameTables(f, g, h) by { CorruptEffect(f, h, cls); }
    KeptThrough(f, g, file[..], h);
    if BlocksAligned(f, h) {
      GuestDataKept(f, file[..], h);
    }
  }

  /** Whatever a repair did, it kept to the features word, the tables and the blocks. */
  lemma RepairKeeps(g: seq<byte>, r: seq<byte>, h: Header, bits: seq<byte>)
    requires TablesReadable(g, h)
    requires r == g || Whole(g, r, h, bits) || Halfway(g, r, h, bits) || Ruled(g, r, h, Free(bits))
    ensures KeptElsewhere(g, r, h)
  {
    hide WellFormed, TableAt, BlockAt, StoredCount, L2Entry, BlocksRuled, InBlocks, InTables, GetBE;
  }

  lemma BitmapSize(g: seq<byte>, h: Header, bits: seq<byte>)
    requires WellFormed(g, h) && h.clusterBits <= 21 && |g| >= 105 && BitmapOf(g, h, bits)
    ensures |bits| == Size(Clusters(|g|, h))
  {
    hide WellFormed;
  }

  lemma SamePreflight(f: seq<byte>, g: seq<byte>, h: Header, bitmap: nat)
    requires |g| == |f|
    ensures Preflight(g, h, bitmap) == Preflight(f, h, bitmap)
  {
  }

  /** An aborted run leaves the corrupt bit set. */
  lemma HalfwayFlagged(g: seq<byte>, r: seq<byte>, h: Header, bits: seq<byte>)
    requires Halfway(g, r, h, bits)
    ensures |r| >= 104 && RepairTiers.Flagged(GetBE(r, FEATURES_AT, 8))
  {
    hide WellFormed, GetBE, TableAt, BlockAt, StoredCount, L2Entry;
  }

  /** The corruptor on an image it does not skip. */
  method CorruptClean(file: array<byte>, h: Header, cls: Class)
    requires Corruptible(file[..], h)
    modifies file
    ensures file[..] == Corrupt(old(file[..]), h, cls).0
  {
    hide Corrupt, GetBE, Pow2, TableAt, BlockAt, SlotCount, InFile;
    HeaderOf(file[..], h);
    var reported := CorruptImage(file, cls);
  }

  lemma HeaderOf(f: seq<byte>, h: Header)
    requires WellFormed(f, h)
    ensures ReadHeader(f) == Some(h)
  {
    hide TableAt, BlockAt, SlotCount, OwnCluster, Apart;
  }
}
