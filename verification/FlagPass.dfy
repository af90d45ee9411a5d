/** The COPIED-flag pass over a file: stage the tables, walk them against the bitmap, write them back. */
module FlagPass {
  import opened Bytes
  import opened Options
  import opened FreeClusters
  import opened Qcow2Metadata
  import opened Corruptor
  import opened ImageBytes
  import opened CorruptionClasses
  import opened ClusterBitmap
  import opened CheckWalk
  import opened CountPasses
  import opened CopiedFlags

  const MAX_STAGED_L2: nat := 256
  const L2_STAGING_LIMIT: nat := 0x20_0000

  /** Header, L1 table and refcount table do not overlap. */
  predicate TopApart(f: seq<byte>, h: Header)
    requires TablesReadable(f, h)
  {
    && 104 <= h.l1Offset && 104 <= h.tableOffset
    && Apart(h.l1Offset, 8 * h.l1Size, h.tableOffset, 8 * SlotCount(|f|, h))
  }

  /** Entries as the pass sees them: a marked cluster counts as one, any other as zero. */
  function ViewOf(h: Header, bits: seq<byte>): View {
    View(h.clusterBits, false, (offset: nat) => Some(if Test(bits, ClusterOf(h, offset)) then 1 else 0))
  }

  /** The entry has a host cluster and that cluster is marked. */
  predicate Sole(h: Header, bits: seq<byte>, entry: nat) {
    var host := HostOffset(entry, h.clusterBits);
    host.Some? && Test(bits, ClusterOf(h, host.value))
  }

  predicate SoleTable(h: Header, bits: seq<byte>, entry: nat) {
    MaskOffset(entry) != 0 && Test(bits, ClusterOf(h, MaskOffset(entry)))
  }

  lemma EntryRuled(h: Header, bits: seq<byte>, entry: nat)
    ensures ViewOf(h, bits).L2()(entry) == Some(Marked(entry, Sole(h, bits, entry)))
    ensures MaskOffset(entry) != 0 ==> ViewOf(h, bits).L1()(entry) == Some(Marked(entry, SoleTable(h, bits, entry)))
  {
    hide MaskOffset, Test, Quotient, HostOffset, Flagged, Cleared;
    assert Cleared(entry) == Marked(entry, false);
  }

  function L1Bytes(f: seq<byte>, h: Header): seq<byte>
    requires TablesReadable(f, h)
  {
    f[h.l1Offset..h.l1Offset + 8 * h.l1Size]
  }

  function TableBytes(f: seq<byte>, h: Header, i: nat): seq<byte>
    requires WellFormed(f, h) && i < h.l1Size
  {
    if TableAt(f, h, i) == 0 then [] else f[TableAt(f, h, i)..TableAt(f, h, i) + h.ClusterSize()]
  }

  lemma L1BytesRead(f: seq<byte>, h: Header, i: nat)
    requires TablesReadable(f, h) && i < h.l1Size
    ensures Entries(|L1Bytes(f, h)|, false) == h.l1Size
    ensures EntryOf(L1Bytes(f, h), false, i) == Word(f, h.l1Offset + 8 * i)
    ensures MaskOffset(EntryOf(L1Bytes(f, h), false, i)) == TableAt(f, h, i)
  {
    hide FromBE;
    SubSlice(f, h.l1Offset, L1Bytes(f, h), 8 * i, 8);
  }

  lemma TableBytesRead(f: seq<byte>, h: Header, i: nat, k: nat)
    requires WellFormed(f, h) && i < h.l1Size && k < h.PerTable() && TableAt(f, h, i) != 0
    ensures Entries(|TableBytes(f, h, i)|, false) == h.PerTable()
    ensures EntryOf(TableBytes(f, h, i), false, k) == L2Entry(f, h, i, k)
  {
    hide FromBE, Pow2, TableAt, BlockAt, SlotCount, Apart;
    SubSlice(f, TableAt(f, h, i), TableBytes(f, h, i), 8 * k, 8);
  }

  // ----- writing staged tables back -----

  ghost predicate SameCounts(f: seq<byte>, g: seq<byte>, h: Header)
    requires |g| == |f| && WellFormed(f, h) && WellFormed(g, h)
  {
    forall c :: 0 <= c < Clusters(|f|, h) ==> StoredCount(g, h, c) == StoredCount(f, h, c)
  }

  predicate SameHeader(f: seq<byte>, g: seq<byte>) {
    |f| >= 104 && |g| >= 104 && g[..104] == f[..104]
  }

  /** An L1 table with the same offsets can be put in place of the old one. */
  lemma L1Stored(f: seq<byte>, h: Header, l1: seq<byte>)
    requires WellFormed(f, h) && TopApart(f, h) && |l1| == 8 * h.l1Size
    requires forall i :: 0 <= i < h.l1Size ==> MaskOffset(EntryOf(l1, false, i)) == TableAt(f, h, i)
    ensures var g := Splice(f, h.l1Offset, l1);
            && SameTables(f, g, h) && SameCounts(f, g, h) && SameEntries(f, g, h) && L1Bytes(g, h) == l1
            && SameHeader(f, g) && SameBlocks(f, g, h) && ChangedOnly(f, g, h.l1Offset, |l1|)
  {
    hide GetBE, Pow2, FromBE, Splice, MaskOffset, Clusters, SlotCount, Slot, Place, TableAt, BlockAt;
    var g := Splice(f, h.l1Offset, l1);
    assert ChangedOnly(f, g, h.l1Offset, |l1|);
    TopOffsetsKept(f, g, h, l1);
    BlocksOutside(f, g, h, h.l1Offset, |l1|);
    forall i, k | 0 <= i < h.l1Size && 0 <= k < h.PerTable()
      ensures L2Entry(g, h, i, k) == L2Entry(f, h, i, k)
    {
      if TableAt(f, h, i) != 0 {
        FieldKept(f, g, h.l1Offset, |l1|, TableAt(f, h, i) + 8 * k, 8);
      }
    }
    forall c | 0 <= c < Clusters(|f|, h)
      ensures StoredCount(g, h, c) == StoredCount(f, h, c)
    {
      if HasBlock(f, h, c) {
        FieldKept(f, g, h.l1Offset, |l1|, CountAt(f, h, c), 2);
      }
    }
  }

  lemma TopOffsetsKept(f: seq<byte>, g: seq<byte>, h: Header, l1: seq<byte>)
    requires WellFormed(f, h) && TopApart(f, h) && |l1| == 8 * h.l1Size && g == Splice(f, h.l1Offset, l1)
    requires forall i :: 0 <= i < h.l1Size ==> MaskOffset(EntryOf(l1, false, i)) == TableAt(f, h, i)
    ensures SameTables(f, g, h)
  {
    hide GetBE, Pow2, FromBE, Splice, MaskOffset, Clusters, SlotCount, Slot, Place;
    var at, n := h.l1Offset, |l1|;
    assert ChangedOnly(f, g, at, n);
    FieldKept(f, g, at, n, 20, 4);
    FieldKept(f, g, at, n, 36, 4);
    FieldKept(f, g, at, n, 40, 8);
    FieldKept(f, g, at, n, 48, 8);
    FieldKept(f, g, at, n, 56, 4);
    assert g[..4] == f[..4];
    assert ReadHeader(g) == Some(h);
    forall i | 0 <= i < h.l1Size
      ensures TableAt(g, h, i) == TableAt(f, h, i)
    {
      InsideSplice(f, at, l1, 8 * i, 8);
    }
    forall s | 0 <= s < SlotCount(|f|, h)
      ensures BlockAt(g, h, s) == BlockAt(f, h, s)
    {
      FieldKept(f, g, at, n, h.tableOffset + 8 * s, 8);
    }
  }

  /** Replacing one L2 table changes the entries kept there and nothing else. */
  lemma TableStored(f: seq<byte>, h: Header, i: nat, table: seq<byte>)
    requires WellFormed(f, h) && i < h.l1Size && TableAt(f, h, i) != 0 && |table| == h.ClusterSize()
    requires TableAt(f, h, i) + |table| <= |f|
    ensures var g := Splice(f, TableAt(f, h, i), table);
            && SameTables(f, g, h) && SameCounts(f, g, h) && L1Bytes(g, h) == L1Bytes(f, h) && SameHeader(f, g)
            && SameBlocks(f, g, h) && ChangedOnly(f, g, TableAt(f, h, i), h.ClusterSize())
            && forall j, k :: 0 <= j < h.l1Size && 0 <= k < h.PerTable() ==>
                 L2Entry(g, h, j, k) == if j == i then EntryOf(table, false, k) else L2Entry(f, h, j, k)
  {
    hide GetBE, Pow2, FromBE, Splice, MaskOffset, Clusters, SlotCount, Slot, Place, TableAt, BlockAt;
    var at := TableAt(f, h, i);
    var g := Splice(f, at, table);
    assert ChangedOnly(f, g, at, |table|);
    TablesKept(f, g, h, at, at, |table|);
    BlocksOutside(f, g, h, at, |table|);
    forall j, k | 0 <= j < h.l1Size && 0 <= k < h.PerTable()
      ensures L2Entry(g, h, j, k) == if j == i then EntryOf(table, false, k) else L2Entry(f, h, j, k)
    {
      if j == i {
        InsideSplice(f, at, table, 8 * k, 8);
      } else if TableAt(f, h, j) != 0 {
        TableOutsideTable(f, h, i, j, k);
        FieldKept(f, g, at, |table|, TableAt(f, h, j) + 8 * k, 8);
      }
    }
    forall c | 0 <= c < Clusters(|f|, h)
      ensures StoredCount(g, h, c) == StoredCount(f, h, c)
    {
      if HasBlock(f, h, c) {
        CountOutsideTable(f, h, c, i);
        FieldKept(f, g, at, |table|, CountAt(f, h, c), 2);
      }
    }
    assert Apart(at, h.ClusterSize(), h.l1Offset, 8 * h.l1Size);
    assert L1Bytes(g, h) == L1Bytes(f, h);
  }

  lemma TableOutsideTable(f: seq<byte>, h: Header, i: nat, j: nat, k: nat)
    requires WellFormed(f, h) && i < h.l1Size && j < h.l1Size && i != j && k < h.PerTable()
    requires TableAt(f, h, i) != 0 && TableAt(f, h, j) != 0
    ensures Apart(TableAt(f, h, i), h.ClusterSize(), TableAt(f, h, j) + 8 * k, 8)
  {
    hide BlockAt, Clusters, SlotCount, TableAt, OwnCluster;
  }

  lemma CountOutsideTable(f: seq<byte>, h: Header, c: nat, i: nat)
    requires WellFormed(f, h) && c < Clusters(|f|, h) && HasBlock(f, h, c) && i < h.l1Size && TableAt(f, h, i) != 0
    ensures Apart(TableAt(f, h, i), h.ClusterSize(), CountAt(f, h, c), 2)
  {
    hide BlockAt, Slot, Place, Clusters, SlotCount, TableAt, OwnCluster;
  }

  // ----- staging -----

  function TablesOf(f: seq<byte>, h: Header): (c: seq<seq<byte>>)
    requires WellFormed(f, h)
    ensures |c| == h.l1Size && forall i :: 0 <= i < h.l1Size ==> c[i] == TableBytes(f, h, i)
  {
    seq(h.l1Size, i requires 0 <= i < h.l1Size => TableBytes(f, h, i))
  }

  function Staged(f: seq<byte>, h: Header): set<nat>
    requires TablesReadable(f, h)
  {
    set i: nat | i < h.l1Size && TableAt(f, h, i) != 0
  }

  /** L2 tables among the first n slots. */
  function TableCount(f: seq<byte>, h: Header, n: nat): nat
    requires TablesReadable(f, h) && n <= h.l1Size
  {
    if n == 0 then 0 else TableCount(f, h, n - 1) + if TableAt(f, h, n - 1) != 0 then 1 else 0
  }

  predicate Room(h: Header, tables: nat) {
    tables <= MAX_STAGED_L2 && Times(tables, h.ClusterSize()) <= L2_STAGING_LIMIT
  }

  lemma {:induction false} CountGrows(f: seq<byte>, h: Header, n: nat, m: nat)
    requires TablesReadable(f, h) && n <= m <= h.l1Size
    ensures TableCount(f, h, n) <= TableCount(f, h, m)
  {
    hide TableAt, Clusters, SlotCount;
    if n < m {
      CountGrows(f, h, n, m - 1);
    }
  }

  lemma RoomBefore(h: Header, a: nat, b: nat)
    requires a <= b && Room(h, b)
    ensures Room(h, a)
  {
    hide Times, Pow2;
    TimesMono(a, b, h.ClusterSize());
  }

  lemma NoTablesFit(h: Header)
    ensures Room(h, 0)
  {
  }

  lemma L1Size(f: seq<byte>, h: Header)
    requires TablesReadable(f, h)
    ensures |L1Bytes(f, h)| == 8 * h.l1Size && Entries(8 * h.l1Size, false) == h.l1Size
  {
  }

  lemma TableEntries(f: seq<byte>, h: Header, i: nat)
    requires WellFormed(f, h) && i < h.l1Size && TableAt(f, h, i) != 0
    ensures |TableBytes(f, h, i)| == h.ClusterSize() && Entries(|TableBytes(f, h, i)|, false) == h.PerTable()
  {
    hide Pow2, TableAt, BlockAt, SlotCount, Apart;
  }

  lemma L1Window(f: seq<byte>, h: Header)
    requires TablesReadable(f, h)
    ensures L1Bytes(f, h) == f[h.l1Offset..h.l1Offset + 8 * h.l1Size]
  {
  }

  lemma TableWindow(f: seq<byte>, h: Header, i: nat)
    requires WellFormed(f, h) && i < h.l1Size
    ensures TableAt(f, h, i) == 0 ==> TableBytes(f, h, i) == []
    ensures TableAt(f, h, i) != 0 ==>
              && TableAt(f, h, i) + h.ClusterSize() <= |f|
              && TableBytes(f, h, i) == f[TableAt(f, h, i)..TableAt(f, h, i) + h.ClusterSize()]
  {
    hide TableAt, BlockAt, SlotCount, Pow2, Apart;
  }

  /** Reads the L1 table and every L2 table into buffers of their own, as long as there is room for the L2 tables. */
  method Stage(file: array<byte>, h: Header) returns (l1: array<byte>, tables: seq<array<byte>>, fits: bool)
    requires WellFormed(file[..], h)
    ensures TablesReadable(file[..], h)
    ensures fits <==> Room(h, TableCount(file[..], h, h.l1Size))
    ensures fresh(l1) && fresh(tables) && Separate(l1, tables) && l1 != file && file !in tables
    ensures fits ==> l1[..] == L1Bytes(file[..], h) && Contents(tables) == TablesOf(file[..], h)
  {
    hide WellFormed, TableAt, BlockAt, SlotCount, Pow2, L1Bytes, TableBytes, Room, Clusters, TableCount;
    AtLeastNine(file[..], h);
    l1 := Copy(file, h.l1Offset, 8 * h.l1Size);
    L1Window(file[..], h);
    tables := [];
    var staged := 0;
    CountStep(file[..], h, 0);
    NoTablesFit(h);
    for i := 0 to h.l1Size
      invariant fresh(tables) && Separate(l1, tables) && file !in tables && |tables| == i
      invariant l1[..] == L1Bytes(file[..], h) && staged == TableCount(file[..], h, i) && Room(h, staged)
      invariant forall j :: 0 <= j < i ==> tables[j][..] == TableBytes(file[..], h, j)
    {
      var at := TableAt(file[..], h, i);
      CountStep(file[..], h, i);
      if at != 0 {
        TableInFile(file[..], h, i);
        if staged >= MAX_STAGED_L2 || Times(staged + 1, h.ClusterSize()) > L2_STAGING_LIMIT {
          NoRoom(h, staged);
          CountGrows(file[..], h, i + 1, h.l1Size);
          if Room(h, TableCount(file[..], h, h.l1Size)) {
            RoomBefore(h, staged + 1, TableCount(file[..], h, h.l1Size));
          }
          return l1, tables, false;
        }
        RoomFor(h, staged);
        staged := staged + 1;
      }
      var table := Copy(file, at, if at == 0 then 0 else h.ClusterSize());
      TableWindow(file[..], h, i);
      tables := tables + [table];
    }
    fits := true;
  }

  lemma CountStep(f: seq<byte>, h: Header, i: nat)
    requires TablesReadable(f, h)
    ensures TableCount(f, h, 0) == 0
    ensures i < h.l1Size ==> TableCount(f, h, i + 1) == TableCount(f, h, i) + if TableAt(f, h, i) != 0 then 1 else 0
  {
  }

  lemma NoRoom(h: Header, staged: nat)
    requires staged >= MAX_STAGED_L2 || Times(staged + 1, h.ClusterSize()) > L2_STAGING_LIMIT
    ensures !Room(h, staged + 1)
  {
  }

  lemma RoomFor(h: Header, staged: nat)
    requires staged < MAX_STAGED_L2 && Times(staged + 1, h.ClusterSize()) <= L2_STAGING_LIMIT
    ensures Room(h, staged + 1)
  {
  }

  /** The L1 table and the first n tables have been written back. */
  ghost predicate Back(f: seq<byte>, g: seq<byte>, h: Header, l1: seq<byte>, c: seq<seq<byte>>, n: nat)
    requires |c| == h.l1Size && forall i :: 0 <= i < |c| ==> c[i] == [] || |c[i]| == h.ClusterSize()
  {
    && SameTables(f, g, h) && SameCounts(f, g, h) && L1Bytes(g, h) == l1 && SameHeader(f, g)
    && SameBlocks(f, g, h) && KeptOutsideTables(f, g, h)
    && forall i, k :: 0 <= i < h.l1Size && 0 <= k < h.PerTable() ==>
         L2Entry(g, h, i, k) == if i < n && c[i] != [] then GetBE(c[i], 8 * k, 8) else L2Entry(f, h, i, k)
  }

  lemma OneTableBack(f: seq<byte>, g: seq<byte>, h: Header, l1: seq<byte>, c: seq<seq<byte>>, n: nat)
    requires |c| == h.l1Size && forall i :: 0 <= i < |c| ==> c[i] == [] || |c[i]| == h.ClusterSize()
    requires n < h.l1Size && Back(f, g, h, l1, c, n) && TableAt(g, h, n) != 0 && c[n] != []
    requires TableAt(g, h, n) + |c[n]| <= |g|
    ensures Back(f, Splice(g, TableAt(g, h, n), c[n]), h, l1, c, n + 1)
  {
    hide GetBE, Pow2, Splice, WellFormed, Clusters, SlotCount, TableAt, BlockAt, StoredCount, L2Entry, L1Bytes,
      BlockCount;
    AtLeastNine(f, h);
    AtLeastNine(g, h);
    TableStored(g, h, n, c[n]);
    assert KeptOutsideTables(f, Splice(g, TableAt(g, h, n), c[n]), h);
  }

  lemma NoTableBack(f: seq<byte>, g: seq<byte>, h: Header, l1: seq<byte>, c: seq<seq<byte>>, n: nat)
    requires |c| == h.l1Size && forall i :: 0 <= i < |c| ==> c[i] == [] || |c[i]| == h.ClusterSize()
    requires n < h.l1Size && Back(f, g, h, l1, c, n) && c[n] == []
    ensures Back(f, g, h, l1, c, n + 1)
  {
    hide GetBE, Pow2, WellFormed, Clusters, SlotCount, TableAt, BlockAt, StoredCount, L2Entry, L1Bytes, SameBlocks,
      KeptOutsideTables;
  }

  lemma FirstBack(f: seq<byte>, h: Header, l1: seq<byte>, c: seq<seq<byte>>)
    requires |c| == h.l1Size && forall i :: 0 <= i < |c| ==> c[i] == [] || |c[i]| == h.ClusterSize()
    requires WellFormed(f, h) && TopApart(f, h) && |l1| == 8 * h.l1Size
    requires forall i :: 0 <= i < h.l1Size ==> MaskOffset(EntryOf(l1, false, i)) == TableAt(f, h, i)
    ensures Back(f, Splice(f, h.l1Offset, l1), h, l1, c, 0)
  {
    hide GetBE, Pow2, Splice, WellFormed, Clusters, SlotCount, TableAt, BlockAt, StoredCount, L2Entry, L1Bytes,
      MaskOffset, EntryOf, SameBlocks, InTables;
    L1Stored(f, h, l1);
  }

  /** Writes the staged tables back to where they came from. */
  method WriteBack(file: array<byte>, h: Header, l1: array<byte>, tables: seq<array<byte>>)
    requires WellFormed(file[..], h) && TopApart(file[..], h) && l1 != file && file !in tables
    requires l1.Length == 8 * h.l1Size && |tables| == h.l1Size
    requires forall i :: 0 <= i < h.l1Size ==> MaskOffset(EntryOf(l1[..], false, i)) == TableAt(file[..], h, i)
    requires forall i :: 0 <= i < h.l1Size ==>
              tables[i].Length == if TableAt(file[..], h, i) == 0 then 0 else h.ClusterSize()
    modifies file
    ensures Back(old(file[..]), file[..], h, l1[..], Contents(tables), h.l1Size)
  {
    hide GetBE, Pow2, Splice, WellFormed, Clusters, SlotCount, TableAt, BlockAt, StoredCount, L2Entry, L1Bytes,
      MaskOffset, EntryOf, Back;
    ghost var f, c := file[..], Contents(tables);
    AtLeastNine(f, h);
    FirstBack(f, h, l1[..], c);
    Store(file, h.l1Offset, l1[..]);
    for i := 0 to h.l1Size
      invariant Back(f, file[..], h, l1[..], c, i) && Contents(tables) == c
    {
      ghost var g := file[..];
      BackKeeps(f, g, h, l1[..], c, i);
      var at := TableAt(file[..], h, i);
      if at == 0 {
        NoTableBack(f, g, h, l1[..], c, i);
      } else {
        TableInFile(g, h, i);
        OneTableBack(f, g, h, l1[..], c, i);
        Store(file, at, tables[i][..]);
      }
    }
  }

  lemma BackKeeps(f: seq<byte>, g: seq<byte>, h: Header, l1: seq<byte>, c: seq<seq<byte>>, n: nat)
    requires |c| == h.l1Size && forall i :: 0 <= i < |c| ==> c[i] == [] || |c[i]| == h.ClusterSize()
    requires Back(f, g, h, l1, c, n)
    ensures |g| == |f| && WellFormed(g, h) && WellFormed(f, h)
    ensures forall i :: 0 <= i < h.l1Size ==> TableAt(g, h, i) == TableAt(f, h, i)
  {
    hide WellFormed, TableAt, BlockAt, L2Entry, StoredCount, L1Bytes, SameBlocks, KeptOutsideTables;
  }

  // ----- the pass -----

  ghost predicate WalkedFile(f: seq<byte>, h: Header, bits: seq<byte>, l1: seq<byte>, c: seq<seq<byte>>)
    requires WellFormed(f, h)
  {
    Walked(L1Bytes(f, h), TablesOf(f, h), l1, c, ViewOf(h, bits), h.l1Size)
  }

  /** The bitmap has an answer for every offset, so the walk cannot fail on a file. */
  lemma FileReady(f: seq<byte>, h: Header, bits: seq<byte>)
    requires WellFormed(f, h)
    ensures |L1Bytes(f, h)| == 8 * h.l1Size && Entries(|L1Bytes(f, h)|, false) == h.l1Size && TablesReadable(f, h)
    ensures AllReady(L1Bytes(f, h), TablesOf(f, h), Staged(f, h), ViewOf(h, bits))
  {
    hide WellFormed, MaskOffset, TableAt, EntryOf, L1Bytes, TableBytes, L1Rule, L2Rule, Entries, Sole, SoleTable,
      Marked;
    AtLeastNine(f, h);
    L1Size(f, h);
    var l1, c, v := L1Bytes(f, h), TablesOf(f, h), ViewOf(h, bits);
    forall i | 0 <= i < h.l1Size
      ensures Ready(EntryOf(l1, false, i), c[i], i in Staged(f, h), v)
    {
      L1BytesRead(f, h, i);
      EntryRuled(h, bits, EntryOf(l1, false, i));
      forall k | 0 <= k < Entries(|c[i]|, false)
        ensures !Blocked(c[i], false, v.L2(), k)
      {
        EntryRuled(h, bits, EntryOf(c[i], false, k));
      }
    }
  }

  /** An L1 entry after the pass: one without a table is left alone. */
  function L1Now(h: Header, bits: seq<byte>, entry: nat): nat {
    if MaskOffset(entry) == 0 then entry else Marked(entry, SoleTable(h, bits, entry))
  }

  lemma L1EntryNow(f: seq<byte>, h: Header, bits: seq<byte>, l1: seq<byte>, c: seq<seq<byte>>, i: nat)
    requires WellFormed(f, h) && WalkedFile(f, h, bits, l1, c) && i < h.l1Size
    ensures |l1| == 8 * h.l1Size && Entries(|l1|, false) == h.l1Size && TablesReadable(f, h)
    ensures MaskOffset(EntryOf(l1, false, i)) == TableAt(f, h, i)
    ensures EntryOf(l1, false, i) == L1Now(h, bits, Word(f, h.l1Offset + 8 * i))
  {
    hide WellFormed, MaskOffset, Quotient, TableAt, EntryOf, L1Bytes, TableBytes, L2Rule, Fixed, Entries, Flagged,
      Cleared, FlagRule, SoleTable, HostOffset;
    AtLeastNine(f, h);
    L1Size(f, h);
    L1BytesRead(f, h, i);
    var v, b, entry := ViewOf(h, bits), L1Bytes(f, h), Word(f, h.l1Offset + 8 * i);
    L1RuleIsFlagRule(v.counts);
    FixedEntry(b, false, v.L1(), h.l1Size, i);
    if TableAt(f, h, i) != 0 {
      EntryRuled(h, bits, entry);
      EntryBound(b, false, i);
      MarkedKeepsRest(entry, SoleTable(h, bits, entry), h.clusterBits);
    }
  }

  lemma TableSizeNow(f: seq<byte>, h: Header, bits: seq<byte>, l1: seq<byte>, c: seq<seq<byte>>, i: nat)
    requires WellFormed(f, h) && WalkedFile(f, h, bits, l1, c) && i < h.l1Size
    ensures |c| == h.l1Size && |c[i]| == if TableAt(f, h, i) == 0 then 0 else h.ClusterSize()
  {
    hide WellFormed, MaskOffset, TableAt, EntryOf, L1Bytes, TableBytes, L1Rule, L2Rule, Fixed, Pow2;
    AtLeastNine(f, h);
    L1BytesRead(f, h, i);
    if TableAt(f, h, i) == 0 {
      TableWindow(f, h, i);
    } else {
      TableEntries(f, h, i);
    }
  }

  lemma L2EntryNow(f: seq<byte>, h: Header, bits: seq<byte>, l1: seq<byte>, c: seq<seq<byte>>, i: nat, k: nat)
    requires WellFormed(f, h) && WalkedFile(f, h, bits, l1, c)
    requires i < h.l1Size && k < h.PerTable() && TableAt(f, h, i) != 0
    ensures |c| == h.l1Size && |c[i]| == h.ClusterSize() && 8 * k + 8 <= |c[i]|
    ensures GetBE(c[i], 8 * k, 8) == Marked(L2Entry(f, h, i, k), Sole(h, bits, L2Entry(f, h, i, k)))
  {
    hide WellFormed, MaskOffset, Quotient, TableAt, L1Bytes, TableBytes, L2Entry, L1Rule, L2Rule, Fixed, GetBE, Flagged,
      Cleared, FlagRule, Sole, Pow2;
    TableSizeNow(f, h, bits, l1, c, i);
    TableEntries(f, h, i);
    TableBytesRead(f, h, i, k);
    AtLeastNine(f, h);
    L1BytesRead(f, h, i);
    var v, t := ViewOf(h, bits), TableBytes(f, h, i);
    L2RuleIsFlagRule(v.bits, v.counts);
    FixedEntry(t, false, v.L2(), h.PerTable(), k);
    EntryRuled(h, bits, L2Entry(f, h, i, k));
    assert GetBE(c[i], 8 * k, 8) == EntryOf(c[i], false, k);
  }

  /**
   Every entry with a cluster is flagged exactly if that cluster is marked; every other bit of the tables and every
   byte outside them is as it was.
   */
  ghost predicate Reconciled(f: seq<byte>, g: seq<byte>, h: Header, bits: seq<byte>) {
    && SameTables(f, g, h) && SameCounts(f, g, h) && SameHeader(f, g)
    && SameBlocks(f, g, h) && KeptOutsideTables(f, g, h)
    && (forall i, k :: 0 <= i < h.l1Size && 0 <= k < h.PerTable() ==>
          L2Entry(g, h, i, k) == Marked(L2Entry(f, h, i, k), Sole(h, bits, L2Entry(f, h, i, k))))
    && forall i :: 0 <= i < h.l1Size ==>
         Word(g, h.l1Offset + 8 * i) == L1Now(h, bits, Word(f, h.l1Offset + 8 * i))
  }

  lemma WalkedIsReconciled(f: seq<byte>, g: seq<byte>, h: Header, bits: seq<byte>, l1: seq<byte>, c: seq<seq<byte>>)
    requires WellFormed(f, h) && WalkedFile(f, h, bits, l1, c)
    requires |c| == h.l1Size && (forall i :: 0 <= i < |c| ==> c[i] == [] || |c[i]| == h.ClusterSize())
    requires Back(f, g, h, l1, c, h.l1Size)
    ensures Reconciled(f, g, h, bits)
  {
    hide WellFormed, MaskOffset, StoredCount, Clusters, Quotient, TableAt, BlockAt, L1Bytes, GetBE, Flagged, Cleared,
      Pow2, Sole, SoleTable, WalkedFile, EntryOf, Entries, L1Now, SameBlocks, KeptOutsideTables;
    AtLeastNine(f, h);
    AtLeastNine(g, h);
    forall i, k | 0 <= i < h.l1Size && 0 <= k < h.PerTable()
      ensures L2Entry(g, h, i, k) == Marked(L2Entry(f, h, i, k), Sole(h, bits, L2Entry(f, h, i, k)))
    {
      TableSizeNow(f, h, bits, l1, c, i);
      if TableAt(f, h, i) != 0 {
        L2EntryNow(f, h, bits, l1, c, i, k);
      } else {
        ZeroStays(h, bits);
      }
    }
    forall i | 0 <= i < h.l1Size
      ensures Word(g, h.l1Offset + 8 * i) == L1Now(h, bits, Word(f, h.l1Offset + 8 * i))
    {
      L1EntryNow(f, h, bits, l1, c, i);
      L1BytesRead(g, h, i);
    }
  }

  lemma ZeroStays(h: Header, bits: seq<byte>)
    ensures Marked(0, Sole(h, bits, 0)) == 0
  {
    hide Test;
  }

  /**
   The flag pass over an image file. It fails, with nothing written, exactly if the L2 tables do not fit the staging
   area.
   */
  method ReconcileFile(file: array<byte>, h: Header, bits: seq<byte>) returns (r: Option<nat>)
    requires WellFormed(file[..], h) && TopApart(file[..], h)
    modifies file
    ensures TablesReadable(old(file[..]), h)
    ensures r.Some? <==> Room(h, TableCount(old(file[..]), h, h.l1Size))
    ensures r.Some? ==> Reconciled(old(file[..]), file[..], h, bits)
    ensures r.None? ==> file[..] == old(file[..])
  {
    hide WellFormed, MaskOffset, StoredCount, Clusters, Quotient, TableAt, BlockAt, L1Bytes, TableBytes, GetBE, L2Entry,
      Pow2, Walked, AllReady, Reconciled, EntryOf, Entries, TreeOnlyFlags, TopApart, Back, Total, Room, TableCount;
    ghost var f := file[..];
    FileReady(f, h, bits);
    BitsPositive(f, h);
    var l1, tables, fits := Stage(file, h);
    if !fits {
      return None;
    }
    var outcome := ReconcileTree(l1, tables, Staged(file[..], h), ViewOf(h, bits));
    ghost var c := Contents(tables);
    forall i | 0 <= i < h.l1Size
      ensures MaskOffset(EntryOf(l1[..], false, i)) == TableAt(f, h, i)
      ensures |c[i]| == if TableAt(f, h, i) == 0 then 0 else h.ClusterSize()
    {
      L1EntryNow(f, h, bits, l1[..], c, i);
      TableSizeNow(f, h, bits, l1[..], c, i);
    }
    WriteBack(file, h, l1, tables);
    WalkedIsReconciled(f, file[..], h, bits, l1[..], c);
    return Some(outcome.count);
  }

  lemma BitsPositive(f: seq<byte>, h: Header)
    requires WellFormed(f, h)
    ensures h.clusterBits > 0
  {
    hide TableAt, BlockAt, SlotCount;
  }
}
