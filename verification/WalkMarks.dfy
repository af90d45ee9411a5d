/** What the check's walk finds: the marks are the referenced clusters, and a cluster mapped twice is a corruption. */
module WalkMarks {
  import opened Bytes
  import opened Options
  import opened FreeClusters
  import opened Qcow2Metadata
  import opened CorruptionClasses
  import opened CheckWalk
  import CopiedFlags

  ghost predicate NoneCompressed(f: seq<byte>, h: Header)
    requires WellFormed(f, h)
  {
    forall i, k :: 0 <= i < h.l1Size && 0 <= k < h.PerTable() ==> !CopiedFlags.Compressed(L2Entry(f, h, i, k))
  }

  /** The announced refcount table has a row for every cluster of the file, and every pointer names a whole cluster. */
  ghost predicate Aligned(f: seq<byte>, h: Header)
    requires WellFormed(f, h)
  {
    && 9 <= h.clusterBits <= 21 && Rows(|f|, h) == SlotCount(|f|, h)
    && (forall i :: 0 <= i < h.l1Size && Word(f, h.l1Offset + 8 * i) != 0 ==>
          TableAt(f, h, i) != 0 && TableAt(f, h, i) % h.ClusterSize() == 0)
    && (forall i, k :: 0 <= i < h.l1Size && 0 <= k < h.PerTable() ==> DataOffset(f, h, i, k) % h.ClusterSize() == 0)
  }

  /** An image the walk has nothing to say about but overlaps. */
  ghost predicate Sound(f: seq<byte>, h: Header) {
    WellFormed(f, h) && InFile(f, h) && NoneCompressed(f, h) && Aligned(f, h)
  }

  // ----- what an entry uses -----

  /** Some of the n bytes from an offset on lies in cluster c. */
  ghost predicate HoldsByte(h: Header, at: nat, n: nat, c: nat) {
    exists p: nat :: at <= p < at + n && ClusterOf(h, p) == c
  }

  lemma HoldsRange(h: Header, at: nat, n: nat, c: nat)
    requires n > 0
    ensures HoldsByte(h, at, n, c) <==> ClusterOf(h, at) <= c <= ClusterOf(h, at + n - 1)
  {
    hide Pow2, Times;
    var cs := h.ClusterSize();
    forall p | at <= p < at + n
      ensures ClusterOf(h, at) <= ClusterOf(h, p) <= ClusterOf(h, at + n - 1)
    {
      DivMono(at, p, cs);
      DivMono(p, at + n - 1, cs);
    }
    if ClusterOf(h, at) <= c <= ClusterOf(h, at + n - 1) {
      QuotientIs(Times(c, cs), c, cs, 0);
      WholeAndRest(at + n - 1, cs);
      TimesMono(c, ClusterOf(h, at + n - 1), cs);
      if ClusterOf(h, at) < c {
        WholeAndRest(at, cs);
        TimesMono(ClusterOf(h, at) + 1, c, cs);
        TimesStep(ClusterOf(h, at), cs);
        assert at <= Times(c, cs) < at + n && ClusterOf(h, Times(c, cs)) == c;
      } else {
        assert ClusterOf(h, at) == c;
      }
    }
  }

  /** An entry uses the cluster it maps, or, compressed, every cluster with a byte of its data. */
  ghost predicate Uses(h: Header, entry: nat, c: nat)
    requires 9 <= h.clusterBits <= 21
  {
    if CopiedFlags.Compressed(entry) then
      var e := Extent(entry, h.clusterBits);
      HoldsByte(h, e.0, e.1, c)
    else PointsAt(h, entry, c)
  }

  /** The L2 entries that use cluster c. */
  ghost function EntryRefs(f: seq<byte>, h: Header, c: nat): set<(nat, nat)>
    requires WellFormed(f, h) && 9 <= h.clusterBits <= 21
  {
    set i: nat, j: nat | i < h.l1Size && j < h.PerTable() && Uses(h, L2Entry(f, h, i, j), c) :: (i, j)
  }

  /** An entry whose cluster, or whose compressed data, lies in the file. */
  predicate EntryInFile(size: nat, h: Header, entry: nat)
    requires 9 <= h.clusterBits <= 21
  {
    if CopiedFlags.Compressed(entry) then
      var e := Extent(entry, h.clusterBits);
      e.0 + e.1 <= size
    else
      MaskOffset(entry) % h.ClusterSize() == 0 &&
      (MaskOffset(entry) == 0 || ClusterOf(h, MaskOffset(entry)) < Clusters(size, h))
  }

  /** Every pointer of the image lies in the file; entries may be compressed. */
  ghost predicate Pointed(f: seq<byte>, h: Header) {
    && WellFormed(f, h) && 9 <= h.clusterBits <= 21 && Rows(|f|, h) == SlotCount(|f|, h)
    && (forall i :: 0 <= i < h.l1Size && Word(f, h.l1Offset + 8 * i) != 0 ==>
          TableAt(f, h, i) != 0 && TableAt(f, h, i) % h.ClusterSize() == 0)
    && (forall i, k :: 0 <= i < h.l1Size && 0 <= k < h.PerTable() ==> EntryInFile(|f|, h, L2Entry(f, h, i, k)))
  }

  lemma SoundIsPointed(f: seq<byte>, h: Header)
    requires Sound(f, h)
    ensures Pointed(f, h)
  {
    hide WellFormed, L2Entry, MaskOffset, Quotient, Clusters, Rows, SlotCount, TableAt, Pow2, Word, Extent,
      CopiedFlags.Compressed;
    forall i, k | 0 <= i < h.l1Size && 0 <= k < h.PerTable()
      ensures EntryInFile(|f|, h, L2Entry(f, h, i, k))
    {
      OffsetOf(f, h, i, k);
      assert DataOffset(f, h, i, k) % h.ClusterSize() == 0;
    }
  }

  /** Without compressed entries, the entries that use a cluster are those that map it. */
  lemma SoundUses(f: seq<byte>, h: Header, c: nat)
    requires Sound(f, h)
    ensures EntryRefs(f, h, c) == DataRefs(f, h, c)
  {
    hide WellFormed, L2Entry, PointsAt, Extent, CopiedFlags.Compressed, InFile, Aligned, HoldsByte;
    assert 9 <= h.clusterBits <= 21 by { Parts(f, h); }
    forall i: nat, j: nat | i < h.l1Size && j < h.PerTable()
      ensures Uses(h, L2Entry(f, h, i, j), c) <==> PointsAt(h, L2Entry(f, h, i, j), c)
    {
    }
  }

  /** A cluster of the header, the L1 table or the refcount table. */
  predicate Top(h: Header, c: nat) {
    Covers(h, 0, 1, c) + Covers(h, h.l1Offset, Clusters(8 * h.l1Size, h), c) +
      Covers(h, h.tableOffset, h.tableClusters, c) > 0
  }

  /** Referenced by the L2 tables of the first t slots, or by a data entry before entry m of slot n. */
  ghost predicate Reached(f: seq<byte>, h: Header, c: nat, t: nat, n: nat, m: nat)
    requires WellFormed(f, h) && 9 <= h.clusterBits <= 21
  {
    || Top(h, c)
    || (exists i :: i in TableRefs(f, h, c) && i < t)
    || (exists r :: r in EntryRefs(f, h, c) && (r.0 < n || (r.0 == n && r.1 < m)))
  }

  /** Everything reached is marked; everything marked is reached, or is a refcount block. */
  ghost predicate Exact(s: Scan, cap: nat, f: seq<byte>, h: Header, t: nat, n: nat, m: nat)
    requires WellFormed(f, h) && 9 <= h.clusterBits <= 21
  {
    && (forall c :: 0 <= c < cap && Reached(f, h, c, t, n, m) ==> c in s.marks)
    && (forall c :: c in s.marks ==> c < cap && (Reached(f, h, c, t, n, m) || BlockRefs(f, h, c) != {}))
  }

  // ----- marks -----

  lemma {:induction false} RangeMarks(s: Scan, cap: nat, first: nat, n: nat)
    ensures var r := s.PutRange(cap, first, n);
            && (forall c :: c in r.marks <==> c in s.marks || (first <= c < first + n && c < cap))
            && r.corruptions == s.corruptions && r.compressed == s.compressed
  {
    if n > 0 {
      RangeMarks(s, cap, first, n - 1);
    }
  }

  lemma StartExact(cap: nat, f: seq<byte>, h: Header, flagged: bool)
    requires WellFormed(f, h) && 9 <= h.clusterBits <= 21
    ensures Exact(Start(cap, h, flagged), cap, f, h, 0, 0, 0)
    ensures Start(cap, h, flagged).corruptions == if flagged then 1 else 0
    ensures !Start(cap, h, flagged).compressed
  {
    hide WellFormed, Clusters, EntryRefs, TableRefs, BlockRefs;
    var s := Scan({}, if flagged then 1 else 0, false).Put(cap, 0);
    RangeMarks(s, cap, ClusterOf(h, h.l1Offset), Clusters(8 * h.l1Size, h));
    RangeMarks(s.PutRange(cap, ClusterOf(h, h.l1Offset), Clusters(8 * h.l1Size, h)), cap, ClusterOf(h, h.tableOffset),
      h.tableClusters);
    HeaderCluster(h);
  }

  lemma HeaderCluster(h: Header)
    ensures ClusterOf(h, 0) == 0
  {
  }

  /** One data entry more. */
  lemma ReachedEntry(f: seq<byte>, h: Header, c: nat, n: nat, m: nat)
    requires WellFormed(f, h) && 9 <= h.clusterBits <= 21 && n < h.l1Size && m < h.PerTable()
    ensures Reached(f, h, c, n + 1, n, m + 1) <==>
            Reached(f, h, c, n + 1, n, m) || Uses(h, L2Entry(f, h, n, m), c)
  {
    hide WellFormed, L2Entry, Uses, TableRefs, Top;
    if Uses(h, L2Entry(f, h, n, m), c) {
      assert (n, m) in EntryRefs(f, h, c);
    }
  }

  lemma ReachedTable(f: seq<byte>, h: Header, c: nat, n: nat)
    requires WellFormed(f, h) && 9 <= h.clusterBits <= 21 && n < h.l1Size
    ensures Reached(f, h, c, n + 1, n, 0) <==>
            Reached(f, h, c, n, n, 0) || (TableAt(f, h, n) != 0 && ClusterOf(h, TableAt(f, h, n)) == c)
  {
    hide WellFormed, EntryRefs, Top, TableAt;
    AtLeastNine(f, h);
    if TableAt(f, h, n) != 0 && ClusterOf(h, TableAt(f, h, n)) == c {
      assert n in TableRefs(f, h, c);
    }
  }

  /** All entries of slot n are those before slot n + 1. */
  lemma ReachedSlot(f: seq<byte>, h: Header, c: nat, n: nat)
    requires WellFormed(f, h) && 9 <= h.clusterBits <= 21 && n < h.l1Size
    ensures Reached(f, h, c, n + 1, n, h.PerTable()) <==> Reached(f, h, c, n + 1, n + 1, 0)
  {
    hide WellFormed, L2Entry, Uses, TableRefs, Top;
  }

  /** The walk's step at a data entry. */
  lemma EntryVisited(s: Scan, cap: nat, f: seq<byte>, h: Header, n: nat, m: nat)
    requires Sound(f, h) && n < h.l1Size && m < h.PerTable()
    ensures var entry, r := L2Entry(f, h, n, m), VisitEntry(s, cap, |f|, h, L2Entry(f, h, n, m));
            r == if DataOffset(f, h, n, m) == 0 then s else s.Claim(cap, ClusterOf(h, DataOffset(f, h, n, m)))
  {
    hide WellFormed, L2Entry, MaskOffset, Extent, CopiedFlags.Compressed, Quotient, Clusters, SlotCount, Rows, TableAt,
      Pow2;
    var offset := DataOffset(f, h, n, m);
    OffsetOf(f, h, n, m);
    assert offset % h.ClusterSize() == 0;
    if offset != 0 {
      assert ClusterOf(h, offset) < Clusters(|f|, h);
      ClusterInFile(|f|, h, offset);
    }
  }

  lemma OffsetOf(f: seq<byte>, h: Header, i: nat, k: nat)
    requires WellFormed(f, h) && i < h.l1Size && k < h.PerTable()
    ensures DataOffset(f, h, i, k) == MaskOffset(L2Entry(f, h, i, k))
  {
    hide WellFormed, L2Entry, MaskOffset;
  }

  /** An aligned offset whose cluster is one of the file's lies in the file. */
  lemma ClusterInFile(size: nat, h: Header, offset: nat)
    requires offset % h.ClusterSize() == 0 && ClusterOf(h, offset) < Clusters(size, h)
    ensures offset < size
  {
    hide Pow2;
    var cs := h.ClusterSize();
    if offset >= size {
      WholeAndRest(offset, cs);
      QuotientIs(offset + cs - 1, offset / cs, cs, cs - 1);
      DivMono(size + cs - 1, offset + cs - 1, cs);
    }
  }

  /** Visiting an entry marks what it uses. */
  lemma EntryMarks(s: Scan, cap: nat, size: nat, h: Header, entry: nat)
    requires 9 <= h.clusterBits <= 21 && EntryInFile(size, h, entry)
    ensures forall c: nat :: c in VisitEntry(s, cap, size, h, entry).marks <==>
              c in s.marks || (c < cap && Uses(h, entry, c))
  {
    hide MaskOffset, Extent, CopiedFlags.Compressed, Quotient, Clusters, Pow2, HoldsByte;
    if CopiedFlags.Compressed(entry) {
      var e := Extent(entry, h.clusterBits);
      RangeMarks(s.(compressed := true), cap, ClusterOf(h, e.0), Span(h, e.0, e.1));
      forall c: nat
        ensures HoldsByte(h, e.0, e.1, c) <==> ClusterOf(h, e.0) <= c <= ClusterOf(h, e.0 + e.1 - 1)
      {
        HoldsRange(h, e.0, e.1, c);
      }
    } else if MaskOffset(entry) != 0 {
      ClusterInFile(size, h, MaskOffset(entry));
    }
  }

  lemma EntryExact(s: Scan, cap: nat, f: seq<byte>, h: Header, n: nat, m: nat)
    requires Pointed(f, h) && n < h.l1Size && m < h.PerTable() && Exact(s, cap, f, h, n + 1, n, m)
    ensures Exact(VisitEntry(s, cap, |f|, h, L2Entry(f, h, n, m)), cap, f, h, n + 1, n, m + 1)
  {
    hide WellFormed, L2Entry, Reached, VisitEntry, BlockRefs, Pointed, Uses, EntryInFile;
    assert WellFormed(f, h) && 9 <= h.clusterBits <= 21 by { PointedParts(f, h); }
    assert EntryInFile(|f|, h, L2Entry(f, h, n, m)) by { PointedEntry(f, h, n, m); }
    EntryMarks(s, cap, |f|, h, L2Entry(f, h, n, m));
    var next, more := n + 1, m + 1;
    forall c: nat
      ensures Reached(f, h, c, next, n, more) <==>
                Reached(f, h, c, next, n, m) || Uses(h, L2Entry(f, h, n, m), c)
    {
      ReachedEntry(f, h, c, n, m);
    }
  }

  lemma PointedParts(f: seq<byte>, h: Header)
    requires Pointed(f, h)
    ensures WellFormed(f, h) && 9 <= h.clusterBits <= 21 && TablesReadable(f, h) && Rows(|f|, h) == SlotCount(|f|, h)
  {
    hide WellFormed, Rows, SlotCount, EntryInFile;
    AtLeastNine(f, h);
  }

  lemma PointedEntry(f: seq<byte>, h: Header, n: nat, m: nat)
    requires Pointed(f, h) && n < h.l1Size && m < h.PerTable()
    ensures WellFormed(f, h) && 9 <= h.clusterBits <= 21 && EntryInFile(|f|, h, L2Entry(f, h, n, m))
  {
    hide WellFormed, Rows, SlotCount, EntryInFile, L2Entry;
  }

  lemma Parts(f: seq<byte>, h: Header)
    requires Sound(f, h)
    ensures WellFormed(f, h) && 9 <= h.clusterBits <= 21 && TablesReadable(f, h) && Rows(|f|, h) == SlotCount(|f|, h)
    ensures Pointed(f, h)
  {
    hide WellFormed, Rows, SlotCount, Sound, EntryInFile;
    SoundIsPointed(f, h);
    AtLeastNine(f, h);
  }

  lemma {:induction false} EntriesExact(s: Scan, cap: nat, f: seq<byte>, h: Header, n: nat, m: nat)
    requires Pointed(f, h) && n < h.l1Size && m <= h.PerTable() && Exact(s, cap, f, h, n + 1, n, 0)
    ensures Exact(VisitEntries(s, cap, f, h, n, m), cap, f, h, n + 1, n, m)
  {
    hide WellFormed, L2Entry, Exact, VisitEntry, Pointed;
    assert WellFormed(f, h) && 9 <= h.clusterBits <= 21 by { PointedParts(f, h); }
    if m > 0 {
      EntriesExact(s, cap, f, h, n, m - 1);
      EntryExact(VisitEntries(s, cap, f, h, n, m - 1), cap, f, h, n, m - 1);
    }
  }

  /** The scan when the entries of slot n are about to be visited. */
  ghost function AtTable(s: Scan, cap: nat, f: seq<byte>, h: Header, n: nat): Scan
    requires WellFormed(f, h) && n < h.l1Size && TableAt(f, h, n) != 0
  {
    PutBlock(s.Claim(cap, ClusterOf(h, TableAt(f, h, n))), cap, h, CoveringBlock(f, h, n))
  }

  lemma TableExact(s: Scan, cap: nat, f: seq<byte>, h: Header, n: nat)
    requires WellFormed(f, h) && 9 <= h.clusterBits <= 21 && n < h.l1Size && TableAt(f, h, n) != 0
    requires Exact(s, cap, f, h, n, n, 0)
    ensures Exact(AtTable(s, cap, f, h, n), cap, f, h, n + 1, n, 0)
  {
    hide WellFormed, Reached, Quotient, TableAt, BlockAt, Clusters, SlotCount, Slot;
    AtLeastNine(f, h);
    var next := n + 1;
    forall c: nat
      ensures Reached(f, h, c, next, n, 0) <==>
              Reached(f, h, c, n, n, 0) || (TableAt(f, h, n) != 0 && ClusterOf(h, TableAt(f, h, n)) == c)
    {
      ReachedTable(f, h, c, n);
    }
    TableInFile(f, h, n);
    var slot := Slot(|f|, h, ClusterOf(h, TableAt(f, h, n)));
    if BlockAt(f, h, slot) != 0 {
      assert slot in BlockRefs(f, h, ClusterOf(h, BlockAt(f, h, slot)));
    }
  }

  lemma SlotVisited(s: Scan, cap: nat, f: seq<byte>, h: Header, n: nat)
    requires Pointed(f, h) && n < h.l1Size
    ensures VisitSlot(s, cap, f, h, n) ==
            if TableAt(f, h, n) == 0 then s else VisitEntries(AtTable(s, cap, f, h, n), cap, f, h, n, h.PerTable())
  {
    hide WellFormed, TableAt, VisitEntries, Quotient, Rows, SlotCount, CoveringBlock, L2Entry, Pow2, GetBE, EntryInFile;
    AtLeastNine(f, h);
    NoWordNoTable(f, h, n);
    if TableAt(f, h, n) != 0 {
      TableInFile(f, h, n);
      ClusterPositive(h);
    }
  }

  lemma ClusterPositive(h: Header)
    ensures h.ClusterSize() > 0
  {
  }

  lemma NoWordNoTable(f: seq<byte>, h: Header, i: nat)
    requires TablesReadable(f, h) && i < h.l1Size
    ensures Word(f, h.l1Offset + 8 * i) == 0 ==> TableAt(f, h, i) == 0
  {
    hide GetBE;
    MaskOfZero();
  }

  lemma SlotExact(s: Scan, cap: nat, f: seq<byte>, h: Header, n: nat)
    requires Pointed(f, h) && n < h.l1Size && Exact(s, cap, f, h, n, n, 0)
    ensures Exact(VisitSlot(s, cap, f, h, n), cap, f, h, n + 1, n + 1, 0)
  {
    hide WellFormed, TableAt, VisitEntries, VisitSlot, Quotient, Reached, AtTable, BlockRefs, Pointed;
    PointedParts(f, h);
    SlotVisited(s, cap, f, h, n);
    if TableAt(f, h, n) == 0 {
      forall c: nat
        ensures Reached(f, h, c, n + 1, n + 1, 0) <==> Reached(f, h, c, n, n, 0)
      {
        ReachedNothing(f, h, c, n);
      }
    } else {
      TableExact(s, cap, f, h, n);
      EntriesExact(AtTable(s, cap, f, h, n), cap, f, h, n, h.PerTable());
      var p, next := h.PerTable(), n + 1;
      forall c: nat
        ensures Reached(f, h, c, next, n, p) <==> Reached(f, h, c, next, next, 0)
      {
        ReachedSlot(f, h, c, n);
      }
    }
  }

  /** A slot without a table reaches nothing. */
  lemma ReachedNothing(f: seq<byte>, h: Header, c: nat, n: nat)
    requires WellFormed(f, h) && 9 <= h.clusterBits <= 21 && n < h.l1Size && TableAt(f, h, n) == 0
    ensures Reached(f, h, c, n + 1, n + 1, 0) <==> Reached(f, h, c, n, n, 0)
  {
    hide WellFormed, TableAt, Top, Quotient, MaskOffset, HoldsByte, Extent;
    MaskOfZero();
    forall r | r in EntryRefs(f, h, c)
      ensures r.0 != n
    {
      NoTableNoEntry(f, h, n, r.0, r.1);
    }
  }

  lemma NoTableNoEntry(f: seq<byte>, h: Header, n: nat, i: nat, k: nat)
    requires WellFormed(f, h) && n < h.l1Size && TableAt(f, h, n) == 0 && i < h.l1Size && k < h.PerTable()
    ensures i == n ==> L2Entry(f, h, i, k) == 0
  {
    hide WellFormed, TableAt;
  }

  lemma {:induction false} SlotsExact(s: Scan, cap: nat, f: seq<byte>, h: Header, n: nat)
    requires Pointed(f, h) && n <= h.l1Size && Exact(s, cap, f, h, 0, 0, 0)
    ensures Exact(VisitSlots(s, cap, f, h, n), cap, f, h, n, n, 0)
  {
    hide WellFormed, Exact, VisitSlot, Pointed;
    PointedParts(f, h);
    if n > 0 {
      SlotsExact(s, cap, f, h, n - 1);
      SlotExact(VisitSlots(s, cap, f, h, n - 1), cap, f, h, n - 1);
    }
  }

  lemma {:induction false} BlockMarks(s: Scan, cap: nat, f: seq<byte>, h: Header, n: nat)
    requires WellFormed(f, h) && n <= SlotCount(|f|, h)
    ensures var r := VisitBlocks(s, cap, f, h, n);
            && (forall c :: c in r.marks <==>
                c in s.marks || (0 <= c < cap && exists k :: k in BlockRefs(f, h, c) && k < n))
            && r.corruptions == s.corruptions && r.compressed == s.compressed
  {
    hide WellFormed, BlockAt, SlotCount, Quotient;
    if n > 0 {
      AtLeastNine(f, h);
      BlockMarks(s, cap, f, h, n - 1);
      if BlockAt(f, h, n - 1) != 0 {
        assert n - 1 in BlockRefs(f, h, ClusterOf(h, BlockAt(f, h, n - 1)));
      }
    }
  }

  /** A cluster of the metadata, or one that an entry maps or keeps compressed data in. */
  ghost predicate InUse(f: seq<byte>, h: Header, c: nat)
    requires WellFormed(f, h) && 9 <= h.clusterBits <= 21
  {
    Top(h, c) || TableRefs(f, h, c) != {} || BlockRefs(f, h, c) != {} || EntryRefs(f, h, c) != {}
  }

  /** On every image whose pointers lie in the file, compressed or not, the walk marks exactly the clusters in use. */
  lemma MarksAreUses(cap: nat, f: seq<byte>, h: Header, flagged: bool, c: nat)
    requires Pointed(f, h) && c < cap
    ensures WellFormed(f, h) && 9 <= h.clusterBits <= 21
    ensures c in Walk(cap, f, h, flagged).marks <==> InUse(f, h, c)
  {
    hide WellFormed, VisitSlots, VisitBlocks, Start, Rows, SlotCount, TableAt, BlockAt, L2Entry, Uses, Quotient,
      Clusters, Pointed, Top;
    PointedParts(f, h);
    StartExact(cap, f, h, flagged);
    SlotsExact(Start(cap, h, flagged), cap, f, h, h.l1Size);
    var s := VisitSlots(Start(cap, h, flagged), cap, f, h, h.l1Size);
    BlockMarks(s, cap, f, h, Rows(|f|, h));
  }

  /**
   The marks of the walk are exactly the referenced clusters, whatever the counts say and however often they are
   referenced.
   */
  lemma MarksAreReferences(cap: nat, f: seq<byte>, h: Header, flagged: bool, c: nat)
    requires Sound(f, h) && c < cap
    ensures WellFormed(f, h) && h.clusterBits <= 21
    ensures c in Walk(cap, f, h, flagged).marks <==> References(f, h, c) > 0
  {
    hide WellFormed, Walk, DataRefs, EntryRefs, TableRefs, BlockRefs, Quotient, Clusters, Sound, Pointed;
    Parts(f, h);
    SoundUses(f, h, c);
    MarksAreUses(cap, f, h, flagged, c);
    SomeMember(DataRefs(f, h, c));
    SomeMember(TableRefs(f, h, c));
    SomeMember(BlockRefs(f, h, c));
  }

  lemma SomeMember<T>(s: set<T>)
    ensures |s| > 0 <==> exists x :: x in s
  {
    if |s| > 0 {
      var x :| x in s;
    }
  }

  // ----- overlaps -----

  /** No cluster of the file has more than one reference. */
  ghost predicate Single(f: seq<byte>, h: Header)
    requires WellFormed(f, h)
  {
    forall c :: 0 <= c < Clusters(|f|, h) ==> References(f, h, c) <= 1
  }

  /** A cluster with one reference is new to the walk when it gets there. */
  lemma EntryIsNew(s: Scan, cap: nat, f: seq<byte>, h: Header, n: nat, m: nat)
    requires Sound(f, h) && Single(f, h) && n < h.l1Size && m < h.PerTable() && DataOffset(f, h, n, m) != 0
    requires 9 <= h.clusterBits <= 21 && Exact(s, cap, f, h, n + 1, n, m)
    ensures ClusterOf(h, DataOffset(f, h, n, m)) !in s.marks
  {
    hide WellFormed, L2Entry, Quotient, MaskOffset, Clusters, Rows, SlotCount, TableAt, BlockAt, NoneCompressed,
      Aligned;
    var c := ClusterOf(h, DataOffset(f, h, n, m));
    OffsetOf(f, h, n, m);
    assert (n, m) in DataRefs(f, h, c);
    SoundUses(f, h, c);
    assert References(f, h, c) <= 1;
    OnlyOne(DataRefs(f, h, c), (n, m));
    OnlyMember(f, h, c);
  }

  lemma OnlyOne<T>(s: set<T>, x: T)
    requires x in s
    ensures |s| >= 1 && (|s| == 1 ==> s == {x})
  {
    assert |s - {x}| == |s| - 1;
  }

  /** What one reference rules out. */
  lemma OnlyMember(f: seq<byte>, h: Header, c: nat)
    requires WellFormed(f, h) && References(f, h, c) <= 1
    ensures |DataRefs(f, h, c)| >= 1 ==> !Top(h, c) && TableRefs(f, h, c) == {} && BlockRefs(f, h, c) == {}
    ensures |TableRefs(f, h, c)| >= 1 ==> !Top(h, c) && DataRefs(f, h, c) == {} && BlockRefs(f, h, c) == {}
  {
    hide WellFormed, DataRefs, TableRefs, BlockRefs, Clusters, Quotient;
  }

  lemma TableIsNew(s: Scan, cap: nat, f: seq<byte>, h: Header, n: nat)
    requires Sound(f, h) && Single(f, h) && n < h.l1Size && TableAt(f, h, n) != 0 && Exact(s, cap, f, h, n, n, 0)
    ensures ClusterOf(h, TableAt(f, h, n)) !in s.marks
  {
    hide WellFormed, L2Entry, Quotient, MaskOffset, Clusters, Rows, SlotCount, TableAt, BlockAt, NoneCompressed,
      Aligned, DataRefs;
    AtLeastNine(f, h);
    var c := ClusterOf(h, TableAt(f, h, n));
    TableInFile(f, h, n);
    assert n in TableRefs(f, h, c);
    SoundUses(f, h, c);
    assert References(f, h, c) <= 1;
    OnlyOne(TableRefs(f, h, c), n);
    OnlyMember(f, h, c);
  }

  lemma {:induction false} EntriesFine(s: Scan, cap: nat, f: seq<byte>, h: Header, n: nat, m: nat)
    requires Sound(f, h) && Single(f, h) && n < h.l1Size && m <= h.PerTable() && Exact(s, cap, f, h, n + 1, n, 0)
    ensures VisitEntries(s, cap, f, h, n, m).corruptions == s.corruptions
    ensures VisitEntries(s, cap, f, h, n, m).compressed == s.compressed
  {
    hide WellFormed, L2Entry, Exact, VisitEntry, Sound, Single, Quotient, Pointed;
    Parts(f, h);
    if m > 0 {
      var t := VisitEntries(s, cap, f, h, n, m - 1);
      EntriesFine(s, cap, f, h, n, m - 1);
      EntriesExact(s, cap, f, h, n, m - 1);
      EntryVisited(t, cap, f, h, n, m - 1);
      if DataOffset(f, h, n, m - 1) != 0 {
        EntryIsNew(t, cap, f, h, n, m - 1);
      }
    }
  }

  lemma {:induction false} SlotsFine(s: Scan, cap: nat, f: seq<byte>, h: Header, n: nat)
    requires Sound(f, h) && Single(f, h) && n <= h.l1Size && Exact(s, cap, f, h, 0, 0, 0)
    ensures VisitSlots(s, cap, f, h, n).corruptions == s.corruptions
    ensures VisitSlots(s, cap, f, h, n).compressed == s.compressed
  {
    hide WellFormed, TableAt, Exact, VisitEntries, VisitSlot, Sound, Single, Quotient, CoveringBlock, Pointed;
    Parts(f, h);
    if n > 0 {
      var t := VisitSlots(s, cap, f, h, n - 1);
      SlotsFine(s, cap, f, h, n - 1);
      SlotsExact(s, cap, f, h, n - 1);
      SlotVisited(t, cap, f, h, n - 1);
      if TableAt(f, h, n - 1) != 0 {
        TableIsNew(t, cap, f, h, n - 1);
        TableExact(t, cap, f, h, n - 1);
        EntriesFine(AtTable(t, cap, f, h, n - 1), cap, f, h, n - 1, h.PerTable());
      }
    }
  }

  /** Where nothing is referenced twice the walk counts no corruption. */
  lemma NothingOverlaps(cap: nat, f: seq<byte>, h: Header, flagged: bool)
    requires Sound(f, h) && Single(f, h)
    ensures h.clusterBits <= 21 && !Walk(cap, f, h, flagged).compressed
    ensures Walk(cap, f, h, flagged).corruptions == if flagged then 1 else 0
  {
    hide WellFormed, VisitSlots, VisitBlocks, Start, Rows, SlotCount, Exact, Sound, Single, Pointed;
    Parts(f, h);
    StartExact(cap, f, h, flagged);
    SlotsFine(Start(cap, h, flagged), cap, f, h, h.l1Size);
    BlockMarks(VisitSlots(Start(cap, h, flagged), cap, f, h, h.l1Size), cap, f, h, Rows(|f|, h));
  }

  lemma {:induction false} EntriesOnlyAdd(s: Scan, cap: nat, f: seq<byte>, h: Header, n: nat, m: nat, p: nat)
    requires Sound(f, h) && n < h.l1Size && m <= p <= h.PerTable()
    ensures VisitEntries(s, cap, f, h, n, m).corruptions <= VisitEntries(s, cap, f, h, n, p).corruptions
    ensures VisitEntries(s, cap, f, h, n, p).compressed == VisitEntries(s, cap, f, h, n, m).compressed
    decreases p
  {
    hide WellFormed, L2Entry, VisitEntry, Sound, Quotient, Pointed;
    Parts(f, h);
    if m < p {
      EntriesOnlyAdd(s, cap, f, h, n, m, p - 1);
      EntryVisited(VisitEntries(s, cap, f, h, n, p - 1), cap, f, h, n, p - 1);
    }
  }

  lemma {:induction false} SlotsOnlyAdd(s: Scan, cap: nat, f: seq<byte>, h: Header, n: nat, p: nat)
    requires Sound(f, h) && n <= p <= h.l1Size
    ensures VisitSlots(s, cap, f, h, n).corruptions <= VisitSlots(s, cap, f, h, p).corruptions
    ensures VisitSlots(s, cap, f, h, p).compressed == VisitSlots(s, cap, f, h, n).compressed
    decreases p
  {
    hide WellFormed, TableAt, VisitEntries, VisitSlot, Sound, Quotient, CoveringBlock, Pointed;
    Parts(f, h);
    if n < p {
      var t := VisitSlots(s, cap, f, h, p - 1);
      SlotsOnlyAdd(s, cap, f, h, n, p - 1);
      SlotVisited(t, cap, f, h, p - 1);
      if TableAt(f, h, p - 1) != 0 {
        NoEntriesYet(AtTable(t, cap, f, h, p - 1), cap, f, h, p - 1);
        EntriesOnlyAdd(AtTable(t, cap, f, h, p - 1), cap, f, h, p - 1, 0, h.PerTable());
      }
    }
  }

  lemma NoEntriesYet(s: Scan, cap: nat, f: seq<byte>, h: Header, n: nat)
    requires WellFormed(f, h) && h.clusterBits <= 21 && n < h.l1Size
    ensures VisitEntries(s, cap, f, h, n, 0) == s
  {
  }

  /** A data entry whose cluster was reached before makes the walk count a corruption. */
  lemma MappedAgain(cap: nat, f: seq<byte>, h: Header, flagged: bool, c: nat, b: (nat, nat))
    requires Sound(f, h) && c < cap && b in DataRefs(f, h, c) && 9 <= h.clusterBits <= 21
    requires Reached(f, h, c, b.0 + 1, b.0, b.1)
    ensures Walk(cap, f, h, flagged).corruptions > if flagged then 1 else 0
    ensures !Walk(cap, f, h, flagged).compressed
  {
    hide WellFormed, L2Entry, VisitSlots, VisitEntries, VisitBlocks, Start, Rows, SlotCount, Quotient, TableAt,
      CoveringBlock, MaskOffset, Sound, Pointed, EntryRefs, Reached;
    Parts(f, h);
    var s, n, m := Start(cap, h, flagged), b.0, b.1;
    StartExact(cap, f, h, flagged);
    SlotsExact(s, cap, f, h, n);
    var t := VisitSlots(s, cap, f, h, n);
    MappedHasTable(f, h, c, b);
    TableExact(t, cap, f, h, n);
    var u := AtTable(t, cap, f, h, n);
    EntriesExact(u, cap, f, h, n, m);
    SlotsOnlyAdd(s, cap, f, h, 0, n);
    NoSlotsYet(s, cap, f, h);
    NoEntriesYet(u, cap, f, h, n);
    EntriesOnlyAdd(u, cap, f, h, n, 0, m);
    SecondVisit(u, cap, f, h, n, m, c);
    EntriesOnlyAdd(u, cap, f, h, n, m + 1, h.PerTable());
    SlotVisited(t, cap, f, h, n);
    OneSlot(s, cap, f, h, n);
    SlotsOnlyAdd(s, cap, f, h, n + 1, h.l1Size);
    BlockMarks(VisitSlots(s, cap, f, h, h.l1Size), cap, f, h, Rows(|f|, h));
    SlotsOnlyAdd(s, cap, f, h, 0, h.l1Size);
  }

  /** So does an L2 table whose cluster was reached before. */
  lemma TableAgain(cap: nat, f: seq<byte>, h: Header, flagged: bool, n: nat)
    requires Sound(f, h) && 9 <= h.clusterBits <= 21 && TablesReadable(f, h) && n < h.l1Size && TableAt(f, h, n) != 0
    requires ClusterOf(h, TableAt(f, h, n)) < cap && Reached(f, h, ClusterOf(h, TableAt(f, h, n)), n, n, 0)
    ensures Walk(cap, f, h, flagged).corruptions > if flagged then 1 else 0
  {
    hide WellFormed, L2Entry, VisitSlots, VisitEntries, VisitBlocks, Start, Rows, SlotCount, Quotient, TableAt,
      CoveringBlock, MaskOffset, Sound, Pointed, EntryRefs, Reached;
    Parts(f, h);
    var s := Start(cap, h, flagged);
    StartExact(cap, f, h, flagged);
    SlotsExact(s, cap, f, h, n);
    var t := VisitSlots(s, cap, f, h, n);
    var u := AtTable(t, cap, f, h, n);
    SlotsOnlyAdd(s, cap, f, h, 0, n);
    NoSlotsYet(s, cap, f, h);
    NoEntriesYet(u, cap, f, h, n);
    EntriesOnlyAdd(u, cap, f, h, n, 0, h.PerTable());
    SlotVisited(t, cap, f, h, n);
    OneSlot(s, cap, f, h, n);
    SlotsOnlyAdd(s, cap, f, h, n + 1, h.l1Size);
    BlockMarks(VisitSlots(s, cap, f, h, h.l1Size), cap, f, h, Rows(|f|, h));
  }

  /** A cluster that two data entries map makes the walk count a corruption. */
  lemma TwiceMapped(cap: nat, f: seq<byte>, h: Header, flagged: bool, c: nat, a: (nat, nat), b: (nat, nat))
    requires Sound(f, h) && c < cap && a in DataRefs(f, h, c) && b in DataRefs(f, h, c)
    requires a.0 < b.0 || (a.0 == b.0 && a.1 < b.1)
    ensures h.clusterBits <= 21 && Walk(cap, f, h, flagged).corruptions > if flagged then 1 else 0
    ensures !Walk(cap, f, h, flagged).compressed
  {
    hide WellFormed, Walk, DataRefs, EntryRefs, TableRefs, Top, Sound, Pointed;
    Parts(f, h);
    SoundUses(f, h, c);
    assert Reached(f, h, c, b.0 + 1, b.0, b.1);
    MappedAgain(cap, f, h, flagged, c, b);
  }

  lemma NoSlotsYet(s: Scan, cap: nat, f: seq<byte>, h: Header)
    requires WellFormed(f, h) && h.clusterBits <= 21
    ensures VisitSlots(s, cap, f, h, 0) == s
  {
  }

  lemma OneSlot(s: Scan, cap: nat, f: seq<byte>, h: Header, n: nat)
    requires WellFormed(f, h) && h.clusterBits <= 21 && n < h.l1Size
    ensures VisitSlots(s, cap, f, h, n + 1) == VisitSlot(VisitSlots(s, cap, f, h, n), cap, f, h, n)
  {
  }

  lemma MappedHasTable(f: seq<byte>, h: Header, c: nat, r: (nat, nat))
    requires WellFormed(f, h) && r in DataRefs(f, h, c)
    ensures r.0 < h.l1Size && r.1 < h.PerTable() && TableAt(f, h, r.0) != 0
    ensures DataOffset(f, h, r.0, r.1) != 0 && ClusterOf(h, DataOffset(f, h, r.0, r.1)) == c
  {
    hide WellFormed, TableAt, Quotient, MaskOffset;
    MaskOfZero();
    OffsetOf(f, h, r.0, r.1);
  }

  lemma SecondVisit(u: Scan, cap: nat, f: seq<byte>, h: Header, n: nat, m: nat, c: nat)
    requires Sound(f, h) && n < h.l1Size && m < h.PerTable() && c < cap && h.clusterBits <= 21
    requires DataOffset(f, h, n, m) != 0 && ClusterOf(h, DataOffset(f, h, n, m)) == c
    requires c in VisitEntries(u, cap, f, h, n, m).marks
    ensures VisitEntries(u, cap, f, h, n, m + 1).corruptions == VisitEntries(u, cap, f, h, n, m).corruptions + 1
  {
    hide WellFormed, L2Entry, VisitEntry, Sound, Quotient, Pointed;
    Parts(f, h);
    EntryVisited(VisitEntries(u, cap, f, h, n, m), cap, f, h, n, m);
  }
}
