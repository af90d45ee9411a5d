/** The check's repair: the gate in front of the all tier, its four steps, and the leaks tier behind it. */
module RepairTiers {
  import opened Bytes
  import opened Options
  import opened FreeClusters
  import opened Qcow2Metadata
  import opened Corruptor
  import opened ImageBytes
  import opened ClusterBitmap
  import opened CheckWalk
  import opened CountPasses
  import opened FlagPass
  import CopiedFlags
  import CorruptionClasses

  const FEATURES_AT: nat := 72
  const MAX_ROWS: nat := 0x100_0000
  const MAX_L1_ENTRIES: nat := 0x40_0000
  const L1_LIMIT: nat := 0x1_0000
  const REFBLOCK_BUF: nat := 0xD6_0000
  const L2_STAGING: nat := 0xB5_0000

  datatype Mode = ReadOnly | LeaksOnly | Everything

  datatype Tier = NoTier | LeaksTier(ran: bool, freed: nat) | AllTier(complete: bool)

  /** What a check reports: whether the header was accepted, the corruptions, and the repair that was made. */
  datatype Report = Report(accepted: bool, corruptions: nat, tier: Tier, snapshots: bool)

  // ----- header -----

  function Version(f: seq<byte>): nat
    requires |f| >= 105
  {
    GetBE(f, 4, 4)
  }

  function Snapshots(f: seq<byte>): nat
    requires |f| >= 105
  {
    GetBE(f, 60, 4)
  }

  /** The incompatible features; a version 2 header has none. */
  function Features(f: seq<byte>): nat
    requires |f| >= 105
  {
    if Version(f) >= 3 then GetBE(f, FEATURES_AT, 8) else 0
  }

  predicate HasBit(x: nat, k: nat) {
    x / Pow2(k) % 2 == 1
  }

  /** The corrupt bit of a features word, set and cleared. */
  predicate Flagged(w: nat) {
    w / 2 % 2 == 1
  }

  function WithBit(w: nat): nat {
    if Flagged(w) then w else w + 2
  }

  function WithoutBit(w: nat): nat {
    if Flagged(w) then w - 2 else w
  }

  /** A header the check goes on with. */
  predicate Accepted(f: seq<byte>, h: Header) {
    && |f| >= 105 && (Version(f) == 2 || Version(f) == 3)
    && 9 <= h.clusterBits <= 21 && h.l1Size <= MAX_L1_ENTRIES
    && GetBE(f, 24, 8) <= Times(MAX_L1_ENTRIES, Times(h.PerTable(), h.ClusterSize()))
    && (Version(f) == 3 ==> GetBE(f, 96, 4) <= 6 && GetBE(f, FEATURES_AT, 8) < 32)
    && 8 * h.l1Size <= |f| && 0 < h.l1Offset < |f| && 0 < h.tableOffset < |f|
    && h.l1Offset + 8 * h.l1Size < U64 && h.tableOffset + Times(h.tableClusters, h.ClusterSize()) < U64
  }

  /** 16-bit counts, 8-byte entries, data in the file itself. */
  predicate Standard(f: seq<byte>)
    requires |f| >= 105
  {
    (Version(f) == 3 ==> GetBE(f, 96, 4) == 4) && !HasBit(Features(f), 2) && !HasBit(Features(f), 4)
  }

  /** The all tier is for images without snapshots, compression or corruptions. */
  predicate Supported(f: seq<byte>, corruptions: nat, compressed: bool)
    requires |f| >= 105
  {
    Snapshots(f) == 0 && !compressed && !HasBit(Features(f), 3) && corruptions == 0
  }

  // ----- the corrupt bit -----

  /** Writing the features word disturbs nothing the tables say. */
  lemma FeaturesWritten(f: seq<byte>, h: Header, w: nat)
    requires WellFormed(f, h) && TopApart(f, h) && w < U64
    ensures |f| >= 104
    ensures var g := Splice(f, FEATURES_AT, BE(8, w));
            && SameTables(f, g, h) && SameCounts(f, g, h) && SameEntries(f, g, h) && TopApart(g, h)
            && L1Bytes(g, h) == L1Bytes(f, h) && GetBE(g, FEATURES_AT, 8) == w
            && SameBlocks(f, g, h) && ChangedOnly(f, g, FEATURES_AT, 8)
  {
    hide GetBE, Pow2, FromBE, BE, Splice, MaskOffset, Clusters, SlotCount, Slot, Place, TableAt, BlockAt;
    var g := Splice(f, FEATURES_AT, BE(8, w));
    assert ChangedOnly(f, g, FEATURES_AT, 8);
    HeaderStays(f, g, h, FEATURES_AT, 8);
    BlocksOutside(f, g, h, FEATURES_AT, 8);
    WidthLimits();
    GetBEPut(f, FEATURES_AT, 8, w);
    forall i, k | 0 <= i < h.l1Size && 0 <= k < h.PerTable()
      ensures L2Entry(g, h, i, k) == L2Entry(f, h, i, k)
    {
      if TableAt(f, h, i) != 0 {
        FieldKept(f, g, FEATURES_AT, 8, TableAt(f, h, i) + 8 * k, 8);
      }
    }
    forall c | 0 <= c < Clusters(|f|, h)
      ensures StoredCount(g, h, c) == StoredCount(f, h, c)
    {
      if HasBlock(f, h, c) {
        FieldKept(f, g, FEATURES_AT, 8, CountAt(f, h, c), 2);
      }
    }
    assert L1Bytes(g, h) == L1Bytes(f, h);
  }

  /** A change of the header outside magic, cluster bits and the places of the tables. */
  lemma HeaderStays(f: seq<byte>, g: seq<byte>, h: Header, at: nat, n: nat)
    requires WellFormed(f, h) && TopApart(f, h) && ChangedOnly(f, g, at, n)
    requires 4 <= at && at + n <= 104 && Apart(at, n, 20, 4) && Apart(at, n, 36, 24)
    ensures SameTables(f, g, h)
  {
    hide GetBE, Pow2, FromBE, MaskOffset, Clusters, SlotCount;
    FieldKept(f, g, at, n, 20, 4);
    FieldKept(f, g, at, n, 36, 4);
    FieldKept(f, g, at, n, 40, 8);
    FieldKept(f, g, at, n, 48, 8);
    FieldKept(f, g, at, n, 56, 4);
    assert g[..4] == f[..4];
    assert ReadHeader(g) == Some(h);
    forall i | 0 <= i < h.l1Size
      ensures TableAt(g, h, i) == TableAt(f, h, i)
    {
      FieldKept(f, g, at, n, h.l1Offset + 8 * i, 8);
    }
    forall s | 0 <= s < SlotCount(|f|, h)
      ensures BlockAt(g, h, s) == BlockAt(f, h, s)
    {
      FieldKept(f, g, at, n, h.tableOffset + 8 * s, 8);
    }
  }

  /** Such a change leaves tables, entries and counts alone. */
  lemma HeaderPatched(f: seq<byte>, h: Header, at: nat, t: seq<byte>)
    requires WellFormed(f, h) && TablesReadable(f, h) && TopApart(f, h)
    requires 4 <= at && at + |t| <= 104 && Apart(at, |t|, 20, 4) && Apart(at, |t|, 36, 24)
    ensures var g := Splice(f, at, t);
            && SameTables(f, g, h) && TablesReadable(g, h) && TopApart(g, h) && SameEntries(f, g, h) && SameL1(f, g, h)
            && forall c :: 0 <= c < Clusters(|f|, h) ==> StoredCount(g, h, c) == StoredCount(f, h, c)
  {
    hide GetBE, Pow2, FromBE, BE, Splice, MaskOffset, Clusters, SlotCount, Slot, Place, TableAt, BlockAt;
    var g := Splice(f, at, t);
    assert ChangedOnly(f, g, at, |t|);
    HeaderStays(f, g, h, at, |t|);
    forall c | 0 <= c < Clusters(|f|, h)
      ensures StoredCount(g, h, c) == StoredCount(f, h, c)
    {
      if HasBlock(f, h, c) {
        FieldKept(f, g, at, |t|, CountAt(f, h, c), 2);
      }
    }
    forall i, k | 0 <= i < h.l1Size && 0 <= k < h.PerTable()
      ensures L2Entry(g, h, i, k) == L2Entry(f, h, i, k)
    {
      if TableAt(f, h, i) != 0 {
        FieldKept(f, g, at, |t|, TableAt(f, h, i) + 8 * k, 8);
      }
    }
    forall i | 0 <= i < h.l1Size
      ensures Word(g, h.l1Offset + 8 * i) == Word(f, h.l1Offset + 8 * i)
    {
      FieldKept(f, g, at, |t|, h.l1Offset + 8 * i, 8);
    }
  }

  lemma FeaturesWidth(f: seq<byte>)
    requires |f| >= 104
    ensures GetBE(f, FEATURES_AT, 8) < U64
    ensures WithBit(GetBE(f, FEATURES_AT, 8)) < U64 && WithoutBit(GetBE(f, FEATURES_AT, 8)) < U64
  {
    BEInverse(f[FEATURES_AT..FEATURES_AT + 8]);
    WidthLimits();
    BitFits(GetBE(f, FEATURES_AT, 8));
  }

  lemma BitFits(w: nat)
    requires w < U64
    ensures WithBit(w) < U64 && WithoutBit(w) < U64 && WithoutBit(WithBit(w)) == WithoutBit(w)
  {
    if !Flagged(w) {
      assert w % 4 < 2;
      assert U64 % 4 == 0;
    }
  }

  // ----- the all tier -----

  /** Limits checked before anything is written. */
  predicate Preflight(f: seq<byte>, h: Header, bitmap: nat) {
    8 * h.l1Size <= L1_LIMIT && SCRATCH_BASE + bitmap <= L2_STAGING && Rows(|f|, h) <= MAX_ROWS
  }

  /** The count of a cluster after the correcting pass. */
  function CountNow(f: seq<byte>, h: Header, rule: CountRule, c: nat): nat
    requires WellFormed(f, h) && c < Clusters(|f|, h)
  {
    if HasBlock(f, h, c) && Slot(|f|, h, c) < Rows(|f|, h) then rule(c, StoredCount(f, h, c)) else StoredCount(f, h, c)
  }

  /** Counts corrected, corrupt bit set, flags as they were: what an aborted run leaves. */
  ghost predicate Halfway(f: seq<byte>, g: seq<byte>, h: Header, bits: seq<byte>) {
    && SameTables(f, g, h) && SameEntries(f, g, h) && |f| >= 104 && TopApart(g, h)
    && (forall c :: 0 <= c < Clusters(|f|, h) ==> StoredCount(g, h, c) == CountNow(f, h, Recount(bits), c))
    && SameL1(f, g, h) && GetBE(g, FEATURES_AT, 8) == WithBit(GetBE(f, FEATURES_AT, 8))
    && BlocksRuled(f, g, h, Recount(bits), Rows(|f|, h)) && KeptElsewhere(f, g, h)
  }

  /**
   Counts and flags say what the bitmap says, and the corrupt bit is clear; every byte outside the features word, the
   tables and the refcount blocks is as it was.
   */
  ghost predicate Whole(f: seq<byte>, g: seq<byte>, h: Header, bits: seq<byte>) {
    && SameTables(f, g, h) && |f| >= 104
    && (forall c :: 0 <= c < Clusters(|f|, h) ==> StoredCount(g, h, c) == CountNow(f, h, Recount(bits), c))
    && (forall i, k :: 0 <= i < h.l1Size && 0 <= k < h.PerTable() ==>
          L2Entry(g, h, i, k) == CopiedFlags.Marked(L2Entry(f, h, i, k), Sole(h, bits, L2Entry(f, h, i, k))))
    && (forall i :: 0 <= i < h.l1Size ==>
          Word(g, h.l1Offset + 8 * i) == L1Now(h, bits, Word(f, h.l1Offset + 8 * i)))
    && GetBE(g, FEATURES_AT, 8) == WithoutBit(GetBE(f, FEATURES_AT, 8))
    && BlocksRuled(f, g, h, Recount(bits), Rows(|f|, h)) && KeptElsewhere(f, g, h)
  }

  lemma L1KeptBy(f: seq<byte>, g: seq<byte>, h: Header)
    requires |g| == |f| && TablesReadable(f, h) && TablesReadable(g, h) && L1Bytes(g, h) == L1Bytes(f, h)
    ensures SameL1(f, g, h)
  {
    hide GetBE, L1Bytes, CopiedFlags.EntryOf, CopiedFlags.Entries;
    forall i | 0 <= i < h.l1Size
      ensures Word(g, h.l1Offset + 8 * i) == Word(f, h.l1Offset + 8 * i)
    {
      L1BytesRead(f, h, i);
      L1BytesRead(g, h, i);
    }
  }

  lemma CountsToHalfway(f: seq<byte>, f1: seq<byte>, f2: seq<byte>, h: Header, bits: seq<byte>)
    requires WellFormed(f, h) && TopApart(f, h) && |f| >= 104
    requires WithBit(GetBE(f, FEATURES_AT, 8)) < U64
    requires f1 == Splice(f, FEATURES_AT, BE(8, WithBit(GetBE(f, FEATURES_AT, 8))))
    requires Ruled(f1, f2, h, Recount(bits)) && L1Bytes(f2, h) == L1Bytes(f1, h)
    ensures Halfway(f, f2, h, bits)
  {
    hide GetBE, Pow2, Splice, BE, MaskOffset, Clusters, SlotCount, Slot, TableAt, BlockAt, WellFormed, L2Entry,
      StoredCount, L1Bytes, WithBit, Rows, SameL1, BlockCount, InBlocks, Touchable;
    FeaturesWritten(f, h, WithBit(GetBE(f, FEATURES_AT, 8)));
    AtLeastNine(f, h);
    AtLeastNine(f2, h);
    SameFeatures(f1, f2);
    L1KeptBy(f, f2, h);
    forall p | 0 <= p < |f| && !Touchable(f, h, p)
      ensures f2[p] == f[p]
    {
      SameRegions(f, f1, h, p);
      OutsideAll(f, h, p);
    }
  }

  lemma OutsideAll(f: seq<byte>, h: Header, p: nat)
    requires TablesReadable(f, h) && !Touchable(f, h, p)
    ensures !InFeatures(p) && !InL1(h, p) && !InTables(f, h, p) && !InBlocks(f, h, p)
  {
    hide InTables, InBlocks;
  }

  lemma SameFeatures(f: seq<byte>, g: seq<byte>)
    requires |f| >= 104 && |g| >= 104 && g[..104] == f[..104]
    ensures GetBE(g, FEATURES_AT, 8) == GetBE(f, FEATURES_AT, 8)
  {
    hide FromBE;
    assert g[72..80] == g[..104][72..80] && f[72..80] == f[..104][72..80];
  }

  /** The four steps: set the corrupt bit, correct the counts, reconcile the flags, clear the bit. */
  method RepairAll(file: array<byte>, h: Header, bits: seq<byte>) returns (complete: bool)
    requires WellFormed(file[..], h) && TopApart(file[..], h)
    modifies file
    ensures TablesReadable(old(file[..]), h)
    ensures complete <==> Preflight(old(file[..]), h, |bits|) && Room(h, TableCount(old(file[..]), h, h.l1Size))
    ensures complete ==> Whole(old(file[..]), file[..], h, bits)
    ensures !complete && Preflight(old(file[..]), h, |bits|) ==> Halfway(old(file[..]), file[..], h, bits)
    ensures !Preflight(old(file[..]), h, |bits|) ==> file[..] == old(file[..])
  {
    hide WellFormed, GetBE, Splice, BE, Clusters, SlotCount, TableAt, BlockAt, StoredCount, L2Entry, L1Bytes, Room,
      TableCount, Rows, TopApart, Ruled, Reconciled, Halfway, Whole, WithBit, WithoutBit, Pow2, Preflight;
    ghost var f := file[..];
    AtLeastNine(f, h);
    if !Preflight(file[..], h, |bits|) {
      return false;
    }
    FeaturesWidth(f);
    var features := GetBE(file[..], FEATURES_AT, 8);
    FeaturesWritten(f, h, WithBit(features));
    Store(file, FEATURES_AT, BE(8, WithBit(features)));
    ghost var f1 := file[..];
    CorrectCounts(file, h, bits);
    ghost var f2 := file[..];
    RuledKeeps(f1, f2, h, Recount(bits));
    CountsToHalfway(f, f1, f2, h, bits);
    HalfwayKeeps(f, f2, h, bits);
    var rewritten := ReconcileFile(file, h, bits);
    if rewritten.None? {
      return false;
    }
    ghost var f3 := file[..];
    ReconciledKeeps(f2, f3, h, bits);
    FeaturesWidth(f3);
    var now := GetBE(file[..], FEATURES_AT, 8);
    Store(file, FEATURES_AT, BE(8, WithoutBit(now)));
    HalfwayToWhole(f, f2, f3, h, bits);
    return true;
  }

  lemma RuledKeeps(f: seq<byte>, g: seq<byte>, h: Header, rule: CountRule)
    requires Ruled(f, g, h, rule)
    ensures WellFormed(g, h) && TablesReadable(f, h) && TablesReadable(g, h) && L1Bytes(g, h) == L1Bytes(f, h)
  {
    hide WellFormed, StoredCount, L2Entry, TableAt, BlockAt, Clusters, SlotCount;
    AtLeastNine(f, h);
    AtLeastNine(g, h);
  }

  lemma HalfwayKeeps(f: seq<byte>, g: seq<byte>, h: Header, bits: seq<byte>)
    requires Halfway(f, g, h, bits)
    ensures WellFormed(g, h) && TablesReadable(f, h) && TablesReadable(g, h) && TopApart(g, h)
    ensures TableCount(g, h, h.l1Size) == TableCount(f, h, h.l1Size)
  {
    hide WellFormed, StoredCount, L2Entry, TableAt, BlockAt, Clusters, SlotCount, TopApart, TableCount;
    AtLeastNine(f, h);
    AtLeastNine(g, h);
    SameTableCount(f, g, h, h.l1Size);
  }

  lemma {:induction false} SameTableCount(f: seq<byte>, g: seq<byte>, h: Header, n: nat)
    requires TablesReadable(f, h) && TablesReadable(g, h) && n <= h.l1Size
    requires forall i :: 0 <= i < h.l1Size ==> TableAt(g, h, i) == TableAt(f, h, i)
    ensures TableCount(g, h, n) == TableCount(f, h, n)
  {
    hide TableAt, Clusters, SlotCount;
    if n > 0 {
      SameTableCount(f, g, h, n - 1);
    }
  }

  lemma ReconciledKeeps(f: seq<byte>, g: seq<byte>, h: Header, bits: seq<byte>)
    requires Reconciled(f, g, h, bits) && TablesReadable(f, h) && TopApart(f, h)
    ensures WellFormed(g, h) && TablesReadable(g, h) && TopApart(g, h) && |g| == |f| >= 104
  {
    hide WellFormed, StoredCount, L2Entry, TableAt, BlockAt, Clusters, SlotCount;
    AtLeastNine(g, h);
  }

  lemma HalfwayToWhole(f: seq<byte>, f2: seq<byte>, f3: seq<byte>, h: Header, bits: seq<byte>)
    requires Halfway(f, f2, h, bits) && Reconciled(f2, f3, h, bits) && WellFormed(f3, h) && TablesReadable(f3, h)
    requires TopApart(f3, h)
    requires |f3| >= 104 && WithoutBit(GetBE(f3, FEATURES_AT, 8)) < U64
    ensures Whole(f, Splice(f3, FEATURES_AT, BE(8, WithoutBit(GetBE(f3, FEATURES_AT, 8)))), h, bits)
  {
    hide GetBE, Pow2, Splice, BE, MaskOffset, Clusters, SlotCount, Slot, TableAt, BlockAt, WellFormed, L2Entry,
      StoredCount, L1Bytes, WithBit, WithoutBit, Rows, CopiedFlags.Marked, Sole, SoleTable, CountNow, TopApart,
      BlockCount, InBlocks, InTables, Touchable, L1Now;
    var w := WithoutBit(GetBE(f3, FEATURES_AT, 8));
    FeaturesWritten(f3, h, w);
    var g := Splice(f3, FEATURES_AT, BE(8, w));
    AtLeastNine(f, h);
    AtLeastNine(f2, h);
    AtLeastNine(g, h);
    L1KeptBy(f3, g, h);
    SameFeatures(f2, f3);
    FeaturesWidth(f);
    BitFits(GetBE(f, FEATURES_AT, 8));
    forall p | 0 <= p < |f| && !Touchable(f, h, p)
      ensures g[p] == f[p]
    {
      SameRegions(f, f2, h, p);
      OutsideAll(f, h, p);
    }
  }

  // ----- the whole check -----

  /** What the walk of an image finds. */
  ghost function Found(f: seq<byte>, h: Header): Scan
    requires WellFormed(f, h) && h.clusterBits <= 21 && |f| >= 105
  {
    Walk(8 * Size(Clusters(|f|, h)), f, h, Flagged(Features(f)))
  }

  /** The bitmap of an image, as far as anyone can see it. */
  ghost predicate BitmapOf(f: seq<byte>, h: Header, bits: seq<byte>)
    requires WellFormed(f, h) && h.clusterBits <= 21 && |f| >= 105
  {
    |bits| == Size(Clusters(|f|, h)) && Marks(bits) == Found(f, h).marks
  }

  /** A bit for every cluster, and a refcount table that can be scanned: without both nothing is repaired. */
  predicate Tracked(f: seq<byte>, h: Header) {
    Clusters(|f|, h) <= 8 * SCRATCH_SIZE && Rows(|f|, h) <= MAX_ROWS
  }

  /** The tier that runs. */
  ghost predicate AllTierRuns(f: seq<byte>, h: Header, mode: Mode)
    requires WellFormed(f, h) && h.clusterBits <= 21 && |f| >= 105
  {
    mode.Everything? && Tracked(f, h) && Supported(f, Found(f, h).corruptions, Found(f, h).compressed)
  }

  ghost predicate LeaksTierRuns(f: seq<byte>, h: Header, mode: Mode)
    requires WellFormed(f, h) && h.clusterBits <= 21 && |f| >= 105
  {
    !mode.ReadOnly? && Tracked(f, h) && Snapshots(f) == 0 && !AllTierRuns(f, h, mode)
  }

  method CheckAndRepair(file: array<byte>, h: Header, mode: Mode) returns (r: Report, ghost bits: seq<byte>)
    requires WellFormed(file[..], h) && TopApart(file[..], h) && (file.Length >= 105 ==> Standard(file[..]))
    modifies file
    ensures TablesReadable(old(file[..]), h) && (r.accepted <==> Accepted(old(file[..]), h))
    ensures !r.accepted ==> file[..] == old(file[..])
    ensures r.accepted ==>
              var f := old(file[..]);
              && (Tracked(f, h) ==> BitmapOf(f, h, bits) && r.corruptions == Found(f, h).corruptions)
              && (r.tier.AllTier? <==> AllTierRuns(f, h, mode)) && (r.tier.LeaksTier? <==> LeaksTierRuns(f, h, mode))
              && (r.tier.NoTier? ==> file[..] == f)
              && (r.tier.AllTier? && r.tier.complete ==> Whole(f, file[..], h, bits))
              && (r.tier.AllTier? ==> (r.tier.complete <==>
                  Preflight(f, h, |bits|) && Room(h, TableCount(f, h, h.l1Size))))
              && (r.tier.AllTier? && !r.tier.complete ==>
                    if Preflight(f, h, |bits|) then Halfway(f, file[..], h, bits) else file[..] == f)
              && (r.tier.LeaksTier? ==> (r.tier.ran <==> SCRATCH_BASE + |bits| <= REFBLOCK_BUF))
              && (r.tier.LeaksTier? ==> if r.tier.ran then Ruled(f, file[..], h, Free(bits)) else file[..] == f)
  {
    hide WellFormed, Walk, Clusters, TopApart, Ruled, Whole, Halfway, Preflight, Room, TableCount, Rows, Pow2, GetBE;
    ghost var f := file[..];
    AtLeastNine(f, h);
    bits := [];
    if !Accepted(file[..], h) {
      return Report(false, 1, NoTier, false), bits;
    }
    var bmp, corruptions, compressed := WalkImage(file[..], h, Flagged(Features(file[..])));
    bits := bmp.bytes[..];
    var snapshots := Snapshots(file[..]) > 0;
    if bmp.canTrack && Rows(file.Length, h) > MAX_ROWS {
      corruptions := corruptions + 1;
    }
    if !bmp.canTrack || Rows(file.Length, h) > MAX_ROWS || mode.ReadOnly? || snapshots {
      return Report(true, corruptions, NoTier, snapshots), bits;
    }
    if mode.Everything? && Supported(file[..], corruptions, compressed) {
      var complete := RepairAll(file, h, bmp.bytes[..]);
      return Report(true, corruptions, AllTier(complete), false), bits;
    }
    if SCRATCH_BASE + bmp.bytes.Length > REFBLOCK_BUF {
      return Report(true, corruptions, LeaksTier(false, 0), false), bits;
    }
    var freed := ReclaimCounts(file, h, bmp.bytes[..]);
    return Report(true, corruptions, LeaksTier(true, freed), false), bits;
  }
}
