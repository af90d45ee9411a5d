/** What the check's verdict is worth on any image: what it takes for granted it has seen, what it frees is unused. */
module CheckSafety {
  import opened Bytes
  import opened Options
  import opened FreeClusters
  import opened Qcow2Metadata
  import opened Corruptor
  import opened CorruptionClasses
  import opened ImageBytes
  import opened ClusterBitmap
  import opened CheckWalk
  import opened WalkMarks
  import opened CountPasses
  import opened FlagPass
  import opened RepairTiers
  import opened RepairOutcome
  import opened RepairBytes
  import CopiedFlags

  // ----- counters only grow -----

  /** An entry outside the file is a corruption, and a compressed one is remembered. */
  lemma EntryTells(s: Scan, cap: nat, size: nat, h: Header, entry: nat)
    requires 9 <= h.clusterBits <= 21
    ensures var r := VisitEntry(s, cap, size, h, entry);
            && r.corruptions >= s.corruptions && (s.compressed ==> r.compressed)
            && (!EntryInFile(size, h, entry) ==> r.corruptions > s.corruptions)
            && (CopiedFlags.Compressed(entry) ==> r.compressed)
  {
    hide MaskOffset, Extent, CopiedFlags.Compressed, Quotient, Clusters, Pow2;
    if CopiedFlags.Compressed(entry) {
      var e := Extent(entry, h.clusterBits);
      RangeMarks(s.(compressed := true), cap, ClusterOf(h, e.0), Span(h, e.0, e.1));
    } else {
      ClusterPositive(h);
      if MaskOffset(entry) < size {
        OffsetInFile(size, h, MaskOffset(entry));
      }
      ZeroAligned(h);
    }
  }

  lemma OffsetInFile(size: nat, h: Header, x: nat)
    requires x < size
    ensures ClusterOf(h, x) < Clusters(size, h)
  {
    hide Pow2;
    var cs := h.ClusterSize();
    QuotientOfNext(x, cs);
    DivMono(x + cs, size + cs - 1, cs);
  }

  lemma {:induction false} EntriesGrow(s: Scan, cap: nat, f: seq<byte>, h: Header, n: nat, m: nat, p: nat)
    requires WellFormed(f, h) && 9 <= h.clusterBits <= 21 && n < h.l1Size && m <= p <= h.PerTable()
    ensures VisitEntries(s, cap, f, h, n, m).corruptions <= VisitEntries(s, cap, f, h, n, p).corruptions
    ensures VisitEntries(s, cap, f, h, n, m).compressed ==> VisitEntries(s, cap, f, h, n, p).compressed
    decreases p
  {
    hide WellFormed, L2Entry, VisitEntry, EntryInFile, CopiedFlags.Compressed;
    if m < p {
      EntriesGrow(s, cap, f, h, n, m, p - 1);
      EntryTells(VisitEntries(s, cap, f, h, n, p - 1), cap, |f|, h, L2Entry(f, h, n, p - 1));
    }
  }

  /** What one table's entries leave behind. */
  lemma EntriesTell(s: Scan, cap: nat, f: seq<byte>, h: Header, n: nat, k: nat)
    requires WellFormed(f, h) && 9 <= h.clusterBits <= 21 && n < h.l1Size && k < h.PerTable()
    ensures var r := VisitEntries(s, cap, f, h, n, h.PerTable());
            && (!EntryInFile(|f|, h, L2Entry(f, h, n, k)) ==> r.corruptions > s.corruptions)
            && (CopiedFlags.Compressed(L2Entry(f, h, n, k)) ==> r.compressed)
  {
    hide WellFormed, L2Entry, VisitEntry, EntryInFile, CopiedFlags.Compressed, VisitEntries;
    NoEntriesYet(s, cap, f, h, n);
    EntriesGrow(s, cap, f, h, n, 0, k);
    EntryTells(VisitEntries(s, cap, f, h, n, k), cap, |f|, h, L2Entry(f, h, n, k));
    OneEntry(s, cap, f, h, n, k);
    EntriesGrow(s, cap, f, h, n, k + 1, h.PerTable());
  }

  lemma OneEntry(s: Scan, cap: nat, f: seq<byte>, h: Header, n: nat, k: nat)
    requires WellFormed(f, h) && 9 <= h.clusterBits <= 21 && n < h.l1Size && k < h.PerTable()
    ensures VisitEntries(s, cap, f, h, n, k + 1) ==
            VisitEntry(VisitEntries(s, cap, f, h, n, k), cap, |f|, h, L2Entry(f, h, n, k))
  {
    hide WellFormed, L2Entry, VisitEntry;
  }

  /** A table the walk accepts, or no table at all. */
  predicate SlotFine(f: seq<byte>, h: Header, i: nat)
    requires TablesReadable(f, h) && i < h.l1Size
  {
    Word(f, h.l1Offset + 8 * i) != 0 ==> TableAt(f, h, i) != 0 && TableAt(f, h, i) % h.ClusterSize() == 0
  }

  /** What one slot leaves behind. */
  lemma SlotTells(s: Scan, cap: nat, f: seq<byte>, h: Header, i: nat)
    requires WellFormed(f, h) && 9 <= h.clusterBits <= 21 && i < h.l1Size
    ensures TablesReadable(f, h)
    ensures var r := VisitSlot(s, cap, f, h, i);
            && r.corruptions >= s.corruptions && (s.compressed ==> r.compressed)
            && (!SlotFine(f, h, i) ==> r.corruptions > s.corruptions)
            && (SlotFine(f, h, i) ==> forall k :: 0 <= k < h.PerTable() ==>
                  && (!EntryInFile(|f|, h, L2Entry(f, h, i, k)) ==> r.corruptions > s.corruptions)
                  && (CopiedFlags.Compressed(L2Entry(f, h, i, k)) ==> r.compressed))
  {
    hide WellFormed, TableAt, VisitEntries, Quotient, SlotCount, CoveringBlock, Pow2, GetBE, EntryInFile,
      CopiedFlags.Compressed, L2Entry;
    AtLeastNine(f, h);
    NoWordNoTable(f, h, i);
    ClusterPositive(h);
    if TableAt(f, h, i) == 0 {
      EmptySlot(f, h, i);
    } else if SlotFine(f, h, i) {
      TableInFile(f, h, i);
      var t := AtTable(s, cap, f, h, i);
      assert VisitSlot(s, cap, f, h, i) == VisitEntries(t, cap, f, h, i, h.PerTable());
      NoEntriesYet(t, cap, f, h, i);
      EntriesGrow(t, cap, f, h, i, 0, h.PerTable());
      forall k | 0 <= k < h.PerTable()
        ensures var r := VisitEntries(t, cap, f, h, i, h.PerTable());
                && (!EntryInFile(|f|, h, L2Entry(f, h, i, k)) ==> r.corruptions > t.corruptions)
                && (CopiedFlags.Compressed(L2Entry(f, h, i, k)) ==> r.compressed)
      {
        EntriesTell(t, cap, f, h, i, k);
      }
    }
  }

  lemma EmptySlot(f: seq<byte>, h: Header, i: nat)
    requires WellFormed(f, h) && 9 <= h.clusterBits <= 21 && i < h.l1Size && TableAt(f, h, i) == 0
    ensures forall k :: 0 <= k < h.PerTable() ==>
              EntryInFile(|f|, h, L2Entry(f, h, i, k)) && !CopiedFlags.Compressed(L2Entry(f, h, i, k))
  {
    hide WellFormed, TableAt, Clusters, Quotient, Pow2;
    MaskOfZero();
    ZeroAligned(h);
    ZeroUncompressed();
  }

  lemma {:induction false} SlotsGrow(s: Scan, cap: nat, f: seq<byte>, h: Header, n: nat, p: nat)
    requires WellFormed(f, h) && 9 <= h.clusterBits <= 21 && n <= p <= h.l1Size
    ensures VisitSlots(s, cap, f, h, n).corruptions <= VisitSlots(s, cap, f, h, p).corruptions
    ensures VisitSlots(s, cap, f, h, n).compressed ==> VisitSlots(s, cap, f, h, p).compressed
    decreases p
  {
    hide WellFormed, VisitSlot, EntryInFile, CopiedFlags.Compressed, L2Entry, SlotFine;
    if n < p {
      SlotsGrow(s, cap, f, h, n, p - 1);
      SlotTells(VisitSlots(s, cap, f, h, p - 1), cap, f, h, p - 1);
    }
  }

  /** What one slot leaves behind in the whole walk. */
  lemma WalkTells(cap: nat, f: seq<byte>, h: Header, flagged: bool, i: nat)
    requires WellFormed(f, h) && 9 <= h.clusterBits <= 21 && i < h.l1Size
    ensures TablesReadable(f, h)
    ensures var r := Walk(cap, f, h, flagged);
            && (!SlotFine(f, h, i) ==> r.corruptions > 0)
            && (SlotFine(f, h, i) ==> forall k :: 0 <= k < h.PerTable() ==>
                  && (!EntryInFile(|f|, h, L2Entry(f, h, i, k)) ==> r.corruptions > 0)
                  && (CopiedFlags.Compressed(L2Entry(f, h, i, k)) ==> r.compressed))
  {
    hide WellFormed, VisitSlots, VisitBlocks, Start, Rows, SlotCount, EntryInFile, CopiedFlags.Compressed, L2Entry,
      SlotFine;
    AtLeastNine(f, h);
    RowsInTable(f, h);
    var s := Start(cap, h, flagged);
    BlockMarks(VisitSlots(s, cap, f, h, h.l1Size), cap, f, h, Rows(|f|, h));
    SlotTells(VisitSlots(s, cap, f, h, i), cap, f, h, i);
    OneSlot(s, cap, f, h, i);
    SlotsGrow(s, cap, f, h, i + 1, h.l1Size);
  }

  lemma FlagCounts(cap: nat, f: seq<byte>, h: Header)
    requires WellFormed(f, h) && 9 <= h.clusterBits <= 21
    ensures Walk(cap, f, h, true).corruptions > 0
  {
    hide WellFormed, VisitSlots, VisitBlocks, Start, Rows, SlotCount, Exact;
    AtLeastNine(f, h);
    RowsInTable(f, h);
    var s := Start(cap, h, true);
    StartExact(cap, f, h, true);
    NoSlotsYet(s, cap, f, h);
    SlotsGrow(s, cap, f, h, 0, h.l1Size);
    BlockMarks(VisitSlots(s, cap, f, h, h.l1Size), cap, f, h, Rows(|f|, h));
  }

  /** A walk that counts no corruption has seen an image whose pointers lie in the file. */
  lemma NoCorruptionsPointed(cap: nat, f: seq<byte>, h: Header, flagged: bool)
    requires WellFormed(f, h) && 9 <= h.clusterBits <= 21 && Rows(|f|, h) == SlotCount(|f|, h)
    requires Walk(cap, f, h, flagged).corruptions == 0
    ensures !flagged && Pointed(f, h)
    ensures !Walk(cap, f, h, flagged).compressed ==> Sound(f, h)
  {
    hide WellFormed, Walk, Rows, SlotCount, EntryInFile, CopiedFlags.Compressed, L2Entry, SlotFine, Pointed, Sound;
    AtLeastNine(f, h);
    if flagged {
      FlagCounts(cap, f, h);
    }
    forall i | 0 <= i < h.l1Size
      ensures SlotFine(f, h, i)
    {
      WalkTells(cap, f, h, flagged, i);
    }
    forall i, k | 0 <= i < h.l1Size && 0 <= k < h.PerTable()
      ensures EntryInFile(|f|, h, L2Entry(f, h, i, k))
      ensures CopiedFlags.Compressed(L2Entry(f, h, i, k)) ==> Walk(cap, f, h, flagged).compressed
    {
      WalkTells(cap, f, h, flagged, i);
    }
    PointedFrom(f, h);
    if !Walk(cap, f, h, flagged).compressed {
      PointedIsSound(f, h);
    }
  }

  lemma PointedFrom(f: seq<byte>, h: Header)
    requires WellFormed(f, h) && 9 <= h.clusterBits <= 21 && Rows(|f|, h) == SlotCount(|f|, h) && TablesReadable(f, h)
    requires forall i :: 0 <= i < h.l1Size ==> SlotFine(f, h, i)
    requires forall i, k :: 0 <= i < h.l1Size && 0 <= k < h.PerTable() ==> EntryInFile(|f|, h, L2Entry(f, h, i, k))
    ensures Pointed(f, h)
  {
    hide WellFormed, Rows, SlotCount, EntryInFile, L2Entry, TableAt, Pow2, GetBE;
    forall i | 0 <= i < h.l1Size && Word(f, h.l1Offset + 8 * i) != 0
      ensures TableAt(f, h, i) != 0 && TableAt(f, h, i) % h.ClusterSize() == 0
    {
      assert SlotFine(f, h, i);
    }
  }

  lemma PointedIsSound(f: seq<byte>, h: Header)
    requires Pointed(f, h) && NoneCompressed(f, h)
    ensures Sound(f, h)
  {
    hide WellFormed, Rows, SlotCount, L2Entry, TableAt, Word, Pow2, MaskOffset, Quotient, Clusters, Extent,
      CopiedFlags.Compressed;
    forall i, k | 0 <= i < h.l1Size && 0 <= k < h.PerTable()
      ensures DataOffset(f, h, i, k) % h.ClusterSize() == 0
      ensures DataOffset(f, h, i, k) != 0 ==> ClusterOf(h, DataOffset(f, h, i, k)) < Clusters(|f|, h)
    {
      OffsetOf(f, h, i, k);
      assert EntryInFile(|f|, h, L2Entry(f, h, i, k));
    }
  }

  // ----- nothing is claimed twice -----

  /** The clusters that two whole clusters of the file take up are different. */
  lemma ClustersApart(h: Header, a: nat, b: nat)
    requires a % h.ClusterSize() == 0 && b % h.ClusterSize() == 0 && Apart(a, h.ClusterSize(), b, h.ClusterSize())
    ensures ClusterOf(h, a) != ClusterOf(h, b)
  {
    hide Pow2, Times;
    ClusterPositive(h);
    WholeAndRest(a, h.ClusterSize());
    WholeAndRest(b, h.ClusterSize());
  }

  /** A whole cluster apart from n bytes that start on a boundary is none of the clusters they take up. */
  lemma NotCovered(h: Header, a: nat, at: nat, n: nat)
    requires a % h.ClusterSize() == 0 && at % h.ClusterSize() == 0 && Apart(a, h.ClusterSize(), at, n)
    ensures Covers(h, at, Clusters(n, h), ClusterOf(h, a)) == 0
  {
    hide Pow2, Times;
    var cs := h.ClusterSize();
    ClusterPositive(h);
    WholeAndRest(a, cs);
    WholeAndRest(at, cs);
    WholeAndRest(n + cs - 1, cs);
    var first, mine, count := ClusterOf(h, at), ClusterOf(h, a), Clusters(n, h);
    if first <= mine < first + count {
      TimesAdd(first, mine - first, cs);
      TimesMono(mine - first + 1, count, cs);
      TimesStep(mine - first, cs);
    }
  }

  lemma HeaderApart(h: Header, a: nat)
    requires 9 <= h.clusterBits && a % h.ClusterSize() == 0 && Apart(a, h.ClusterSize(), 0, 104)
    ensures Covers(h, 0, 1, ClusterOf(h, a)) == 0
  {
    hide Pow2, Times;
    var cs := h.ClusterSize();
    Pow2At9(h.clusterBits);
    HeaderCluster(h);
    WholeAndRest(a, cs);
    if ClusterOf(h, a) == 0 {
      TimesStep(0, cs);
    }
  }

  /** Tables that start on cluster boundaries. */
  predicate TopAligned(h: Header) {
    h.l1Offset % h.ClusterSize() == 0 && h.tableOffset % h.ClusterSize() == 0
  }

  /** The refcount table fills its clusters. */
  lemma FullTable(f: seq<byte>, h: Header)
    requires TablesReadable(f, h) && Rows(|f|, h) == SlotCount(|f|, h)
    ensures Clusters(8 * SlotCount(|f|, h), h) == h.tableClusters
  {
    hide Pow2, Times, Rows, SlotCount;
    var cs := h.ClusterSize();
    Pow2At9(h.clusterBits);
    HeldRows(f, h);
    EightFold(h.tableClusters, h.PerTable());
    assert 8 * SlotCount(|f|, h) == Times(h.tableClusters, cs);
    QuotientIs(8 * SlotCount(|f|, h) + cs - 1, h.tableClusters, cs, cs - 1);
  }

  /** A metadata cluster on a boundary is none of the top-level tables' clusters. */
  lemma OwnIsNotTop(f: seq<byte>, h: Header, at: nat)
    requires TablesReadable(f, h) && Rows(|f|, h) == SlotCount(|f|, h) && TopAligned(h)
    requires OwnCluster(f, h, at) && at % h.ClusterSize() == 0
    ensures !Top(h, ClusterOf(h, at))
  {
    hide Pow2, Times, Rows, SlotCount, Clusters, Covers;
    HeaderApart(h, at);
    NotCovered(h, at, h.l1Offset, 8 * h.l1Size);
    NotCovered(h, at, h.tableOffset, 8 * SlotCount(|f|, h));
    FullTable(f, h);
  }

  /** Header, L1 table and refcount table share no cluster. */
  lemma TopOnce(f: seq<byte>, h: Header, c: nat)
    requires TablesReadable(f, h) && Rows(|f|, h) == SlotCount(|f|, h) && TopAligned(h) && TopApart(f, h)
    ensures Covers(h, 0, 1, c) + Covers(h, h.l1Offset, Clusters(8 * h.l1Size, h), c)
            + Covers(h, h.tableOffset, h.tableClusters, c) <= 1
  {
    hide Pow2, Times, Rows, SlotCount, Clusters, Quotient;
    var cs := h.ClusterSize();
    Pow2At9(h.clusterBits);
    HeaderCluster(h);
    FullTable(f, h);
    CoveredStart(h, h.l1Offset, 8 * h.l1Size, c);
    CoveredStart(h, h.tableOffset, 8 * SlotCount(|f|, h), c);
    TimesStep(0, cs);
    BoundaryPast(h, h.l1Offset);
    BoundaryPast(h, h.tableOffset);
  }

  lemma BoundaryPast(h: Header, at: nat)
    requires at % h.ClusterSize() == 0 && at > 0
    ensures at >= h.ClusterSize()
  {
    hide Pow2, Times;
    WholeAndRest(at, h.ClusterSize());
    if at / h.ClusterSize() == 0 {
      TimesStep(0, h.ClusterSize());
    }
    TimesMono(1, at / h.ClusterSize(), h.ClusterSize());
    TimesStep(0, h.ClusterSize());
  }

  /** A covered cluster starts inside the bytes that cover it. */
  lemma CoveredStart(h: Header, at: nat, n: nat, c: nat)
    requires at % h.ClusterSize() == 0
    ensures Covers(h, at, Clusters(n, h), c) == 1 ==> at <= Times(c, h.ClusterSize()) < at + n
  {
    hide Pow2, Times;
    var cs := h.ClusterSize();
    ClusterPositive(h);
    WholeAndRest(at, cs);
    WholeAndRest(n + cs - 1, cs);
    var first, count := ClusterOf(h, at), Clusters(n, h);
    if first <= c < first + count {
      TimesAdd(first, c - first, cs);
      TimesMono(c - first + 1, count, cs);
      TimesStep(c - first, cs);
    }
  }

  /** A cluster that an L2 table takes up belongs to no other table and to no top-level table. */
  lemma TablesOnce(f: seq<byte>, h: Header, c: nat)
    requires Sound(f, h) && TablesReadable(f, h) && TopAligned(h)
    ensures |TableRefs(f, h, c)| <= 1 && (TableRefs(f, h, c) != {} ==> !Top(h, c))
  {
    hide Pow2, Times, Rows, SlotCount, Clusters, Quotient, TableAt, BlockAt, GetBE, Top, NoneCompressed, InFile;
    forall i, j | i in TableRefs(f, h, c) && j in TableRefs(f, h, c)
      ensures i == j
    {
      TableIsAligned(f, h, i);
      TableIsAligned(f, h, j);
      if i != j {
        ClustersApart(h, TableAt(f, h, i), TableAt(f, h, j));
      }
    }
    AtMostOne(TableRefs(f, h, c));
    if TableRefs(f, h, c) != {} {
      var i :| i in TableRefs(f, h, c);
      TableIsAligned(f, h, i);
      OwnIsNotTop(f, h, TableAt(f, h, i));
    }
  }

  lemma AtMostOne<T>(s: set<T>)
    requires forall x, y :: x in s && y in s ==> x == y
    ensures |s| <= 1
  {
    if s != {} {
      var x :| x in s;
      assert s == {x};
    }
  }

  /** A refcount block's cluster belongs to no other block, to no table and to no top-level table. */
  lemma BlocksOnce(f: seq<byte>, h: Header, c: nat)
    requires Sound(f, h) && TablesReadable(f, h) && TopAligned(h) && BlocksAligned(f, h)
    ensures |BlockRefs(f, h, c)| <= 1 && (BlockRefs(f, h, c) != {} ==> !Top(h, c) && TableRefs(f, h, c) == {})
  {
    hide Pow2, Times, Rows, SlotCount, Clusters, Quotient, TableAt, BlockAt, GetBE, Top, NoneCompressed, InFile;
    forall s, t | s in BlockRefs(f, h, c) && t in BlockRefs(f, h, c)
      ensures s == t
    {
      if s != t {
        ClustersApart(h, BlockAt(f, h, s), BlockAt(f, h, t));
      }
    }
    AtMostOne(BlockRefs(f, h, c));
    if BlockRefs(f, h, c) != {} {
      var s :| s in BlockRefs(f, h, c);
      OwnIsNotTop(f, h, BlockAt(f, h, s));
      forall i | i in TableRefs(f, h, c)
        ensures false
      {
        TableIsAligned(f, h, i);
        ClustersApart(h, TableAt(f, h, i), BlockAt(f, h, s));
      }
    }
  }

  lemma MappedOnce(cap: nat, f: seq<byte>, h: Header, c: nat)
    requires Sound(f, h) && WellFormed(f, h) && 9 <= h.clusterBits <= 21 && c < cap
    requires Walk(cap, f, h, false).corruptions == 0
    ensures |DataRefs(f, h, c)| <= 1
  {
    hide WellFormed, Walk, Sound, DataRefs;
    forall a, b | a in DataRefs(f, h, c) && b in DataRefs(f, h, c)
      ensures a == b
    {
      if a.0 < b.0 || (a.0 == b.0 && a.1 < b.1) {
        TwiceMapped(cap, f, h, false, c, a, b);
      } else if b.0 < a.0 || (a.0 == b.0 && b.1 < a.1) {
        TwiceMapped(cap, f, h, false, c, b, a);
      }
    }
    AtMostOne(DataRefs(f, h, c));
  }

  /** After a walk without corruptions a mapped cluster is mapped once and is neither table nor top-level table. */
  lemma DataOnce(cap: nat, f: seq<byte>, h: Header, c: nat)
    requires Sound(f, h) && TablesReadable(f, h) && 9 <= h.clusterBits <= 21 && c < cap
    requires Walk(cap, f, h, false).corruptions == 0
    ensures |DataRefs(f, h, c)| <= 1
    ensures DataRefs(f, h, c) != {} ==> !Top(h, c) && TableRefs(f, h, c) == {}
  {
    hide WellFormed, Walk, Sound, DataRefs, Top, Pointed, TableRefs, EntryRefs;
    Parts(f, h);
    MappedOnce(cap, f, h, c);
    if DataRefs(f, h, c) != {} {
      var b :| b in DataRefs(f, h, c);
      if Top(h, c) {
        MappedAgain(cap, f, h, false, c, b);
      }
      forall i | i in TableRefs(f, h, c)
        ensures false
      {
        DataOverTable(cap, f, h, c, b, i);
      }
    }
  }

  lemma DataOverTable(cap: nat, f: seq<byte>, h: Header, c: nat, b: (nat, nat), i: nat)
    requires Sound(f, h) && TablesReadable(f, h) && 9 <= h.clusterBits <= 21 && c < cap
    requires b in DataRefs(f, h, c) && i in TableRefs(f, h, c)
    ensures Walk(cap, f, h, false).corruptions > 0
  {
    hide WellFormed, Walk, Sound, DataRefs, EntryRefs, Top, TableAt, Quotient, Pointed;
    Parts(f, h);
    SoundUses(f, h, c);
    if i <= b.0 {
      assert Reached(f, h, c, b.0 + 1, b.0, b.1);
      MappedAgain(cap, f, h, false, c, b);
    } else {
      assert Reached(f, h, c, i, i, 0);
      TableAgain(cap, f, h, false, i);
    }
  }

  // ----- the gate -----

  /** No mapped cluster is a refcount block's. */
  ghost predicate BlocksUnmapped(f: seq<byte>, h: Header)
    requires WellFormed(f, h)
  {
    forall c :: 0 <= c < Clusters(|f|, h) && BlockRefs(f, h, c) != {} ==> DataRefs(f, h, c) == {}
  }

  /**
   The gate of the all tier lets an image through only if none of its entries is compressed, all its pointers lie in the
   file, and no cluster is used twice by header, tables and entries. Refcount blocks it does not look at.
   */
  lemma GateIsSound(f: seq<byte>, h: Header, mode: Mode)
    requires WellFormed(f, h) && TablesReadable(f, h) && |f| >= 105 && 9 <= h.clusterBits <= 21
    requires Rows(|f|, h) == SlotCount(|f|, h) && TopAligned(h) && TopApart(f, h) && AllTierRuns(f, h, mode)
    ensures Sound(f, h) && Snapshots(f) == 0 && !RepairTiers.Flagged(Features(f))
    ensures BlocksAligned(f, h) && BlocksUnmapped(f, h) <==> BlocksAligned(f, h) && Single(f, h)
  {
    hide WellFormed, Walk, Rows, SlotCount, Pow2, GetBE, TopApart, Sound, Clusters, DataRefs, TableRefs, BlockRefs,
      Top, BlocksAligned, HasBit, Features, Snapshots, Size;
    var cap := 8 * Size(Clusters(|f|, h));
    NoCorruptionsPointed(cap, f, h, RepairTiers.Flagged(Features(f)));
    BitsEnough(Clusters(|f|, h));
    if BlocksAligned(f, h) {
      forall c | 0 <= c < Clusters(|f|, h)
        ensures References(f, h, c) <= 1 <==> BlockRefs(f, h, c) == {} || DataRefs(f, h, c) == {}
      {
        OnceAtMost(cap, f, h, c);
      }
    }
  }

  lemma OnceAtMost(cap: nat, f: seq<byte>, h: Header, c: nat)
    requires Sound(f, h) && TablesReadable(f, h) && 9 <= h.clusterBits <= 21 && c < cap
    requires Rows(|f|, h) == SlotCount(|f|, h) && TopAligned(h) && TopApart(f, h) && BlocksAligned(f, h)
    requires Walk(cap, f, h, false).corruptions == 0
    ensures WellFormed(f, h)
    ensures References(f, h, c) <= 1 <==> BlockRefs(f, h, c) == {} || DataRefs(f, h, c) == {}
  {
    hide WellFormed, Walk, Rows, SlotCount, Pow2, TopApart, Sound, Clusters, DataRefs, TableRefs, BlockRefs,
      BlocksAligned, Covers;
    Parts(f, h);
    DataOnce(cap, f, h, c);
    TablesOnce(f, h, c);
    BlocksOnce(f, h, c);
    TopOnce(f, h, c);
    Empty(DataRefs(f, h, c));
    Empty(TableRefs(f, h, c));
    Empty(BlockRefs(f, h, c));
  }

  lemma Empty<T>(s: set<T>)
    ensures |s| == 0 <==> s == {}
  {
  }

  /**
   Whatever image the all tier runs on, it leaves a clean one exactly if no entry maps a refcount block and every
   cluster in use has a place for its count.
   */
  lemma AllTierSafe(f: seq<byte>, r: seq<byte>, h: Header, bits: seq<byte>, mode: Mode)
    requires WellFormed(f, h) && TablesReadable(f, h) && Accepted(f, h) && Standard(f) && TopApart(f, h)
    requires Rows(|f|, h) == SlotCount(|f|, h) && TopAligned(h) && AllTierRuns(f, h, mode)
    requires BlocksAligned(f, h) && BitmapOf(f, h, bits) && Whole(f, r, h, bits)
    ensures Clean(r, h) <==> BlocksUnmapped(f, h) && Placed(f, h)
  {
    hide WellFormed, Walk, Rows, SlotCount, Pow2, GetBE, TopApart, Sound, Clusters, DataRefs, TableRefs, BlockRefs,
      Standard, HasBit, Features, Snapshots, Placed, BitmapOf, Whole, BlocksAligned, BlocksUnmapped, Single, Clean,
      Times;
    GateIsSound(f, h, mode);
    if Clean(r, h) {
      CleanedBefore(f, r, h, bits);
    } else if BlocksUnmapped(f, h) && Placed(f, h) {
      AllTierCleans(f, r, h, bits);
    }
  }

  /** An image that the all tier leaves clean referred to every cluster at most once, and had a place for its count. */
  lemma CleanedBefore(f: seq<byte>, r: seq<byte>, h: Header, bits: seq<byte>)
    requires Plain(f, h) && BitmapOf(f, h, bits) && Whole(f, r, h, bits) && Clean(r, h)
    ensures Single(f, h) && Placed(f, h)
  {
    hide WellFormed, Walk, Rows, SlotCount, Pow2, GetBE, Clusters, Standard, Accepted, HasBit, BitmapOf, References,
      L2Entry, TableAt, BlockAt, Word, BlocksRuled, KeptElsewhere, FlagWrong, InFile, Sole, DataOffset,
      CopiedFlags.Marked, CountNow, NoneCompressed, Aligned, Slot, Copied, CountAt;
    AtLeastNine(f, h);
    forall i, k | 0 <= i < h.l1Size && 0 <= k < h.PerTable()
      ensures DataOffset(r, h, i, k) == DataOffset(f, h, i, k)
    {
      EntryFromBitmap(f, r, h, bits, i, k);
    }
    forall c | 0 <= c < Clusters(|f|, h)
      ensures References(f, h, c) <= 1
      ensures References(f, h, c) > 0 ==> HasBlock(f, h, c)
    {
      SameReferences(f, r, h, c);
      assert StoredCount(r, h, c) == References(r, h, c);
      assert Slot(|f|, h, c) < SlotCount(|f|, h);
    }
  }

  // ----- the leaks tier on any image -----

  /** A count goes exactly if its cluster is not in use; compressed data counts as use. */
  lemma LeaksTierSafe(f: seq<byte>, r: seq<byte>, h: Header, bits: seq<byte>, c: nat)
    requires Pointed(f, h) && |f| >= 105 && Tracked(f, h) && c < Clusters(|f|, h)
    requires WellFormed(f, h) && h.clusterBits <= 21 && BitmapOf(f, h, bits) && Ruled(f, r, h, Free(bits))
    ensures WellFormed(r, h) && |r| == |f|
    ensures StoredCount(r, h, c) == if InUse(f, h, c) then StoredCount(f, h, c) else 0
  {
    hide GetBE, Pow2, WellFormed, Clusters, BlockAt, TableAt, L2Entry, Test, Rows, SlotCount, SameTop, Walk, InUse,
      Pointed, Size, BlocksRuled, KeptOutsideBlocks, Features, Slot;
    PointedParts(f, h);
    BitsEnough(Clusters(|f|, h));
    MarksAreUses(8 * Size(Clusters(|f|, h)), f, h, RepairTiers.Flagged(Features(f)), c);
    assert c in Marks(bits) <==> Test(bits, c);
    assert Slot(|f|, h, c) < SlotCount(|f|, h) == Rows(|f|, h);
  }

  /** In particular, no cluster with a byte of compressed data is freed. */
  lemma CompressedDataKept(f: seq<byte>, r: seq<byte>, h: Header, bits: seq<byte>, i: nat, k: nat, p: nat)
    requires Pointed(f, h) && |f| >= 105 && Tracked(f, h) && i < h.l1Size && WellFormed(f, h) && k < h.PerTable()
    requires 9 <= h.clusterBits <= 21 && BitmapOf(f, h, bits) && Ruled(f, r, h, Free(bits))
    requires CopiedFlags.Compressed(L2Entry(f, h, i, k))
    requires var e := Extent(L2Entry(f, h, i, k), h.clusterBits); e.0 <= p < e.0 + e.1
    ensures WellFormed(r, h) && |r| == |f| && ClusterOf(h, p) < Clusters(|f|, h)
    ensures StoredCount(r, h, ClusterOf(h, p)) == StoredCount(f, h, ClusterOf(h, p))
  {
    hide GetBE, Pow2, WellFormed, Clusters, BlockAt, TableAt, L2Entry, Rows, SlotCount, Walk, BitmapOf, Ruled, Pointed,
      Extent, CopiedFlags.Compressed, Quotient, TableRefs, BlockRefs, Top, StoredCount, Tracked;
    var c := ClusterOf(h, p);
    PointedEntry(f, h, i, k);
    OffsetInFile(|f|, h, p);
    assert Uses(h, L2Entry(f, h, i, k), c);
    assert (i, k) in EntryRefs(f, h, c);
    LeaksTierSafe(f, r, h, bits, c);
  }
}
