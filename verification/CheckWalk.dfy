/** The check's walk over an image: which host clusters it marks as referenced, and what it counts as corrupt. */
module CheckWalk {
  import opened Bytes
  import opened Options
  import opened FreeClusters
  import opened Qcow2Metadata
  import opened CorruptionClasses
  import opened ClusterBitmap
  import CopiedFlags

  /** What the walk knows: clusters marked so far, corruptions counted, and whether an entry was compressed. */
  datatype Scan = Scan(marks: set<nat>, corruptions: nat, compressed: bool)
  {
    /** Mark a cluster, whether or not it was marked before. */
    ghost function Put(cap: nat, c: nat): Scan {
      if c < cap then this.(marks := marks + {c}) else this
    }

    /** Mark a cluster; one that was marked before is a corruption. */
    ghost function Claim(cap: nat, c: nat): Scan {
      if c < cap then Scan(marks + {c}, corruptions + if c in marks then 1 else 0, compressed) else this
    }

    ghost function Corrupt(): Scan {
      this.(corruptions := corruptions + 1)
    }

    ghost function PutRange(cap: nat, first: nat, n: nat): Scan {
      if n == 0 then this else PutRange(cap, first, n - 1).Put(cap, first + n - 1)
    }
  }

  /** Offset and length of compressed data. */
  function Extent(entry: nat, bits: nat): (e: (nat, nat))
    requires 9 <= bits <= 21
    ensures e.1 > 0
  {
    var unit := Pow2(70 - bits);
    var offset := entry % unit;
    (offset, (entry / unit % Pow2(bits - 8) + 1) * 512 - offset % 512)
  }

  /** A compressed entry, put together from its parts: flag, sectors beyond the first, and byte offset. */
  function PackedEntry(bits: nat, copied: bool, sectors: nat, offset: nat): nat
    requires 9 <= bits <= 21 && offset < Pow2(70 - bits) && sectors < Pow2(bits - 8)
  {
    (if copied then 0x8000_0000_0000_0000 else 0) + 0x4000_0000_0000_0000 + Times(sectors, Pow2(70 - bits)) + offset
  }

  lemma {:induction false} PowersJoin(a: nat, b: nat)
    ensures Times(Pow2(a), Pow2(b)) == Pow2(a + b)
  {
    if a > 0 {
      PowersJoin(a - 1, b);
      MulAssoc(2, Pow2(a - 1), Pow2(b));
    } else {
      assert Times(1, Pow2(b)) == Pow2(b);
    }
  }

  lemma TopBit(bits: nat)
    requires 9 <= bits <= 21
    ensures Times(Pow2(bits - 8), Pow2(70 - bits)) == 0x4000_0000_0000_0000
  {
    hide Times;
    PowersJoin(bits - 8, 70 - bits);
    PowersJoin(31, 31);
    assert Pow2(7) == 128 && Pow2(15) == 32768 && Pow2(23) == 0x80_0000 && Pow2(31) == 0x8000_0000;
    assert Times(0x8000_0000, 0x8000_0000) == 0x4000_0000_0000_0000 by { SquareOf31(); }
  }

  lemma SquareOf31()
    ensures Times(0x8000_0000, 0x8000_0000) == 0x4000_0000_0000_0000
  {
  }

  /** The parts come back: compressed, at that offset, up to the end of the last sector. */
  lemma ExtentOfPacked(bits: nat, copied: bool, sectors: nat, offset: nat)
    requires 9 <= bits <= 21 && offset < Pow2(70 - bits) && sectors < Pow2(bits - 8)
    ensures var entry := PackedEntry(bits, copied, sectors, offset);
            && CopiedFlags.Compressed(entry) && entry < U64
            && Extent(entry, bits).0 == offset
            && offset + Extent(entry, bits).1 == 512 * (offset / 512 + sectors + 1)
  {
    hide Pow2, Times;
    var unit, top := Pow2(70 - bits), Pow2(bits - 8);
    var entry := PackedEntry(bits, copied, sectors, offset);
    TopBit(bits);
    var flags := if copied then 3 else 1;
    TimesStep(0, top);
    TimesStep(1, top);
    TimesStep(2, top);
    ManyTops(top, unit, flags);
    TimesAdd(Times(flags, top), sectors, unit);
    QuotientIs(entry, Times(flags, top) + sectors, unit, offset);
    QuotientIs(Times(flags, top) + sectors, flags, top, sectors);
    BelowTop(top, unit, sectors, offset);
    TopFlags(entry, flags);
  }

  lemma ManyTops(top: nat, unit: nat, n: nat)
    ensures Times(Times(n, top), unit) == n * Times(top, unit)
  {
    MulAssoc(n, top, unit);
  }

  lemma BelowTop(top: nat, unit: nat, sectors: nat, offset: nat)
    requires sectors < top && offset < unit
    ensures Times(sectors, unit) + offset < Times(top, unit)
  {
    hide Times;
    TimesMono(sectors + 1, top, unit);
    TimesStep(sectors, unit);
  }

  lemma TopFlags(entry: nat, flags: nat)
    requires flags == 1 || flags == 3
    requires flags * 0x4000_0000_0000_0000 <= entry < (flags + 1) * 0x4000_0000_0000_0000
    ensures CopiedFlags.Compressed(entry) && entry < U64
  {
    assert entry / 0x4000_0000_0000_0000 == flags;
  }

  /** Every compressed entry is put together that way. */
  lemma EveryPacked(entry: nat, bits: nat) returns (copied: bool, sectors: nat)
    requires 9 <= bits <= 21 && entry < U64 && CopiedFlags.Compressed(entry)
    ensures sectors < Pow2(bits - 8) && Extent(entry, bits).0 < Pow2(70 - bits)
    ensures entry == PackedEntry(bits, copied, sectors, Extent(entry, bits).0)
  {
    hide Pow2, Times;
    var unit, top := Pow2(70 - bits), Pow2(bits - 8);
    TopBit(bits);
    WholeAndRest(entry, unit);
    var q := entry / unit;
    WholeAndRest(q, top);
    var flags := q / top;
    sectors := q % top;
    TimesAdd(Times(flags, top), sectors, unit);
    BelowTop(top, unit, sectors, entry % unit);
    ManyTops(top, unit, flags);
    FlagsTell(entry, flags, Times(Times(flags, top), unit), Times(top, unit));
    copied := flags == 3;
  }

  lemma FlagsTell(entry: nat, flags: nat, high: nat, one: nat)
    requires one == 0x4000_0000_0000_0000 && high <= entry < high + one && high == flags * one
    requires entry < U64 && CopiedFlags.Compressed(entry)
    ensures flags == 1 || flags == 3
  {
    assert entry / 0x4000_0000_0000_0000 == flags;
  }

  /** The sectors of n bytes beyond the first, as the writer of compressed entries counts them. */
  function ExtraSectors(n: nat): nat
    requires n > 0
  {
    (n + 511) / 512 - 1
  }

  /**
   Writing an entry for n compressed bytes and reading it back: the offset, and room for the n bytes exactly if the rest
   of the first sector is not needed. It never is where the data starts on a sector.
   */
  lemma WrittenThenRead(bits: nat, offset: nat, n: nat)
    requires 9 <= bits <= 21 && offset < Pow2(70 - bits) && 0 < n <= Pow2(bits)
    ensures ExtraSectors(n) < Pow2(bits - 8)
    ensures var e := Extent(PackedEntry(bits, false, ExtraSectors(n), offset), bits);
            && e.0 == offset && (n <= e.1 <==> offset % 512 + n <= 512 * (ExtraSectors(n) + 1))
            && (offset % 512 == 0 ==> n <= e.1 < n + 512)
  {
    hide Pow2, Times, Extent, CopiedFlags.Compressed;
    PowersJoin(8, bits - 8);
    SmallPowers();
    SectorsFit(n, Pow2(bits - 8));
    ExtentOfPacked(bits, false, ExtraSectors(n), offset);
  }

  /** One sector of data, a byte behind a sector boundary: one byte is lost. */
  lemma OneByteShort()
    ensures Pow2(8) == 256 && Pow2(54) == 0x40_0000_0000_0000
    ensures Extent(PackedEntry(16, false, ExtraSectors(512), 0x1_0001), 16) == (0x1_0001, 511)
  {
    hide Extent, CopiedFlags.Compressed;
    SixteenBits();
    ExtentOfPacked(16, false, 0, 0x1_0001);
  }

  lemma SixteenBits()
    ensures Pow2(8) == 256 && Pow2(16) == 0x1_0000 && Pow2(54) == 0x40_0000_0000_0000
  {
    hide Pow2;
    SmallPowers();
    PowersJoin(8, 8);
    PowersJoin(16, 16);
    PowersJoin(16, 32);
    PowersJoin(6, 48);
  }

  lemma SmallPowers()
    ensures Pow2(6) == 64 && Pow2(8) == 256
  {
    assert Pow2(4) == 16;
  }

  lemma SectorsFit(n: nat, q: nat)
    requires 0 < n <= Times(256, q)
    ensures ExtraSectors(n) < q && n <= 512 * (ExtraSectors(n) + 1) < n + 512
  {
  }

  /**
   The snapshot walk takes the flags off a compressed entry and rounds down. That is the cluster of the compressed data
   exactly if the data does not go beyond one sector: otherwise the sector count is taken for part of the offset.
   */
  lemma HostOfPacked(bits: nat, copied: bool, sectors: nat, offset: nat)
    requires 9 <= bits <= 21 && offset < Pow2(70 - bits) && sectors < Pow2(bits - 8)
    ensures var host := CopiedFlags.HostOffset(PackedEntry(bits, copied, sectors, offset), bits);
            && host == Some(Times(sectors, Pow2(70 - bits)) + offset / Pow2(bits) * Pow2(bits))
            && (host.value == offset / Pow2(bits) * Pow2(bits) <==> sectors == 0)
  {
    hide Pow2, Times, MaskOffset, CopiedFlags.Compressed, Extent;
    var unit, cs, top := Pow2(70 - bits), Pow2(bits), Pow2(bits - 8);
    var entry := PackedEntry(bits, copied, sectors, offset);
    ExtentOfPacked(bits, copied, sectors, offset);
    TopBit(bits);
    BelowTop(top, unit, sectors, offset);
    var x := Times(sectors, unit) + offset;
    WithoutFlags(entry, x, copied);
    PowersJoin(70 - 2 * bits, bits);
    RoundedDown(sectors, Pow2(70 - 2 * bits), cs, unit, offset);
    TimesStep(0, unit);
    if sectors > 0 {
      TimesMono(1, sectors, unit);
    }
  }

  /** Two sectors of data in cluster 1: the walk takes them to lie 2^54 bytes further on. */
  lemma SectorsTakenForOffset()
    ensures Pow2(8) == 256 && Pow2(54) == 0x40_0000_0000_0000
    ensures CopiedFlags.HostOffset(PackedEntry(16, false, 1, 0x1_0000), 16) == Some(0x40_0000_0001_0000)
  {
    hide Extent, CopiedFlags.Compressed, CopiedFlags.HostOffset, PackedEntry;
    SixteenBits();
    HostOfPacked(16, false, 1, 0x1_0000);
  }

  lemma WithoutFlags(entry: nat, x: nat, copied: bool)
    requires x < 0x4000_0000_0000_0000
    requires entry == (if copied then 0x8000_0000_0000_0000 else 0) + 0x4000_0000_0000_0000 + x
    ensures entry % CopiedFlags.COMPRESSED == x
  {
  }

  lemma RoundedDown(n: nat, m: nat, cs: nat, unit: nat, offset: nat)
    requires cs > 0 && unit == Times(m, cs)
    ensures (Times(n, unit) + offset) / cs * cs == Times(n, unit) + offset / cs * cs
  {
    hide Times;
    var k := Times(n, m);
    assert Times(n, unit) == Times(k, cs) by { TimesAssoc(n, m, cs); }
    WholeAndRest(offset, cs);
    TimesAdd(k, offset / cs, cs);
    QuotientIs(Times(n, unit) + offset, k + offset / cs, cs, offset % cs);
    AsProduct(k + offset / cs, cs);
    AsProduct(offset / cs, cs);
  }

  lemma TimesAssoc(n: nat, m: nat, cs: nat)
    ensures Times(n, Times(m, cs)) == Times(Times(n, m), cs)
  {
    MulAssoc(n, m, cs);
  }

  lemma AsProduct(a: nat, b: nat)
    ensures Times(a, b) == a * b
  {
  }

  /** How many clusters n bytes from an offset on touch. */
  function Span(h: Header, offset: nat, n: nat): nat
    requires n > 0
  {
    DivMono(offset, offset + n - 1, h.ClusterSize());
    ClusterOf(h, offset + n - 1) + 1 - ClusterOf(h, offset)
  }

  /** One L2 entry. */
  ghost function VisitEntry(s: Scan, cap: nat, size: nat, h: Header, entry: nat): Scan
    requires 9 <= h.clusterBits <= 21
  {
    var offset := MaskOffset(entry);
    if CopiedFlags.Compressed(entry) then
      var e, t := Extent(entry, h.clusterBits), s.(compressed := true);
      if e.0 + e.1 > size then t.Corrupt()
      else t.PutRange(cap, ClusterOf(h, e.0), Span(h, e.0, e.1))
    else if offset == 0 then s
    else if offset % h.ClusterSize() != 0 || offset >= size then s.Corrupt()
    else s.Claim(cap, ClusterOf(h, offset))
  }

  /** The first n entries of the L2 table of slot i. */
  ghost function VisitEntries(s: Scan, cap: nat, f: seq<byte>, h: Header, i: nat, n: nat): Scan
    requires WellFormed(f, h) && h.clusterBits <= 21 && i < h.l1Size && n <= h.PerTable()
  {
    if n == 0 then s
    else VisitEntry(VisitEntries(s, cap, f, h, i, n - 1), cap, |f|, h, L2Entry(f, h, i, n - 1))
  }

  lemma TableInFile(f: seq<byte>, h: Header, i: nat)
    requires WellFormed(f, h) && i < h.l1Size && TableAt(f, h, i) != 0
    ensures TableAt(f, h, i) + h.ClusterSize() <= |f| && ClusterOf(h, TableAt(f, h, i)) < Clusters(|f|, h)
  {
    hide TableAt, BlockAt, SlotCount, Pow2, Apart;
    DivMono(TableAt(f, h, i) + h.ClusterSize(), |f| + h.ClusterSize() - 1, h.ClusterSize());
    QuotientOfNext(TableAt(f, h, i), h.ClusterSize());
  }

  lemma QuotientOfNext(a: nat, d: nat)
    requires d > 0
    ensures (a + d) / d == a / d + 1
  {
    WholeAndRest(a, d);
    TimesStep(a / d, d);
    QuotientIs(a + d, a / d + 1, d, a % d);
  }

  /** The refcount block that covers the L2 table of slot i; zero if there is none. */
  function CoveringBlock(f: seq<byte>, h: Header, i: nat): nat
    requires WellFormed(f, h) && i < h.l1Size && TableAt(f, h, i) != 0
  {
    TableInFile(f, h, i);
    BlockAt(f, h, Slot(|f|, h, ClusterOf(h, TableAt(f, h, i))))
  }

  ghost function PutBlock(s: Scan, cap: nat, h: Header, block: nat): Scan {
    if block == 0 then s else s.Put(cap, ClusterOf(h, block))
  }

  /** One L1 slot: its L2 table, the block that covers it, and the entries. */
  ghost function VisitSlot(s: Scan, cap: nat, f: seq<byte>, h: Header, i: nat): Scan
    requires WellFormed(f, h) && h.clusterBits <= 21 && i < h.l1Size
  {
    var at := TableAt(f, h, i);
    if Word(f, h.l1Offset + 8 * i) == 0 then s
    else if at == 0 || at >= |f| || at % h.ClusterSize() != 0 then s.Corrupt()
    else VisitEntries(PutBlock(s.Claim(cap, ClusterOf(h, at)), cap, h, CoveringBlock(f, h, i)), cap, f, h, i,
      h.PerTable())
  }

  ghost function VisitSlots(s: Scan, cap: nat, f: seq<byte>, h: Header, n: nat): Scan
    requires WellFormed(f, h) && h.clusterBits <= 21 && n <= h.l1Size
  {
    if n == 0 then s else VisitSlot(VisitSlots(s, cap, f, h, n - 1), cap, f, h, n - 1)
  }

  /** Rows of the refcount table that the header announces and the file can hold. */
  function Rows(size: nat, h: Header): (n: nat) {
    var held := Times(h.tableClusters, h.PerTable());
    if held < size / 8 then held else size / 8
  }

  lemma RowsInTable(f: seq<byte>, h: Header)
    requires TablesReadable(f, h)
    ensures Rows(|f|, h) <= SlotCount(|f|, h)
  {
    hide Clusters, Pow2;
  }

  ghost function VisitBlocks(s: Scan, cap: nat, f: seq<byte>, h: Header, n: nat): Scan
    requires WellFormed(f, h) && n <= SlotCount(|f|, h)
  {
    if n == 0 then s else PutBlock(VisitBlocks(s, cap, f, h, n - 1), cap, h, BlockAt(f, h, n - 1))
  }

  /** The header's cluster, those of the L1 table and those of the refcount table. */
  ghost function Start(cap: nat, h: Header, flagged: bool): Scan {
    Scan({}, if flagged then 1 else 0, false).Put(cap, 0)
    .PutRange(cap, ClusterOf(h, h.l1Offset), Clusters(8 * h.l1Size, h))
    .PutRange(cap, ClusterOf(h, h.tableOffset), h.tableClusters)
  }

  /** The whole walk: top-level tables, the L1/L2 tree, then every refcount block. */
  ghost function Walk(cap: nat, f: seq<byte>, h: Header, flagged: bool): Scan
    requires WellFormed(f, h) && h.clusterBits <= 21
  {
    RowsInTable(f, h);
    VisitBlocks(VisitSlots(Start(cap, h, flagged), cap, f, h, h.l1Size), cap, f, h, Rows(|f|, h))
  }

  // ----- the walk in place -----

  /** The bitmap and the counters hold what the scan says. */
  ghost predicate Records(s: Scan, bits: seq<byte>, corruptions: nat, compressed: bool) {
    s == Scan(Marks(bits), corruptions, compressed)
  }

  method MarkRange(bmp: Bitmap, first: nat, n: nat, ghost s: Scan)
    requires s.marks == Marks(bmp.bytes[..])
    modifies bmp.bytes
    ensures Marks(bmp.bytes[..]) == s.PutRange(8 * bmp.bytes.Length, first, n).marks
    ensures var t := s.PutRange(8 * bmp.bytes.Length, first, n);
            t.corruptions == s.corruptions && t.compressed == s.compressed
  {
    for k := 0 to n
      invariant Marks(bmp.bytes[..]) == s.PutRange(8 * bmp.bytes.Length, first, k).marks
      invariant var t := s.PutRange(8 * bmp.bytes.Length, first, k);
                t.corruptions == s.corruptions && t.compressed == s.compressed
    {
      var r := bmp.Set(first + k);
    }
  }

  method CheckEntry(bmp: Bitmap, size: nat, h: Header, entry: nat, corruptions: nat, compressed: bool)
    returns (errors: nat, packed: bool)
    requires 9 <= h.clusterBits <= 21
    modifies bmp.bytes
    ensures Records(VisitEntry(Scan(old(Marks(bmp.bytes[..])), corruptions, compressed), 8 * bmp.bytes.Length, size, h,
              entry),
                    bmp.bytes[..], errors, packed)
  {
    hide Pow2, MaskOffset, Extent, CopiedFlags.Compressed, Quotient;
    ghost var s := Scan(Marks(bmp.bytes[..]), corruptions, compressed);
    errors, packed := corruptions, compressed;
    var offset := MaskOffset(entry);
    if CopiedFlags.Compressed(entry) {
      packed := true;
      var e := Extent(entry, h.clusterBits);
      if e.0 + e.1 > size {
        errors := errors + 1;
      } else {
        MarkRange(bmp, ClusterOf(h, e.0), Span(h, e.0, e.1), s.(compressed := true));
      }
    } else if offset != 0 {
      if offset % h.ClusterSize() != 0 || offset >= size {
        errors := errors + 1;
      } else {
        var r := bmp.Set(ClusterOf(h, offset));
        if r.AlreadySet? {
          errors := errors + 1;
        }
      }
    }
  }

  method CheckTable(bmp: Bitmap, f: seq<byte>, h: Header, i: nat, corruptions: nat, compressed: bool, ghost s: Scan)
    returns (errors: nat, packed: bool)
    requires WellFormed(f, h) && h.clusterBits <= 21 && i < h.l1Size
    requires Records(s, bmp.bytes[..], corruptions, compressed)
    modifies bmp.bytes
    ensures Records(VisitEntries(s, 8 * bmp.bytes.Length, f, h, i, h.PerTable()), bmp.bytes[..], errors, packed)
  {
    hide WellFormed, L2Entry, Pow2, VisitEntry;
    AtLeastNine(f, h);
    errors, packed := corruptions, compressed;
    for k := 0 to h.PerTable()
      invariant Records(VisitEntries(s, 8 * bmp.bytes.Length, f, h, i, k), bmp.bytes[..], errors, packed)
    {
      errors, packed := CheckEntry(bmp, |f|, h, L2Entry(f, h, i, k), errors, packed);
    }
  }

  lemma AtLeastNine(f: seq<byte>, h: Header)
    requires WellFormed(f, h)
    ensures h.clusterBits >= 9 && TablesReadable(f, h)
  {
    hide SlotCount, TableAt, BlockAt;
  }

  method CheckSlot(bmp: Bitmap, f: seq<byte>, h: Header, i: nat, corruptions: nat, compressed: bool, ghost s: Scan)
    returns (errors: nat, packed: bool)
    requires WellFormed(f, h) && h.clusterBits <= 21 && i < h.l1Size
    requires Records(s, bmp.bytes[..], corruptions, compressed)
    modifies bmp.bytes
    ensures Records(VisitSlot(s, 8 * bmp.bytes.Length, f, h, i), bmp.bytes[..], errors, packed)
  {
    hide WellFormed, TableAt, Pow2, VisitEntries, Quotient, CoveringBlock;
    AtLeastNine(f, h);
    errors, packed := corruptions, compressed;
    ghost var cap := 8 * bmp.bytes.Length;
    var at := TableAt(f, h, i);
    if Word(f, h.l1Offset + 8 * i) == 0 {
      return;
    }
    if at == 0 || at >= |f| || at % h.ClusterSize() != 0 {
      errors := errors + 1;
      return;
    }
    var r := bmp.Set(ClusterOf(h, at));
    if r.AlreadySet? {
      errors := errors + 1;
    }
    ghost var claimed := s.Claim(cap, ClusterOf(h, at));
    assert Records(claimed, bmp.bytes[..], errors, packed);
    var block := CoveringBlock(f, h, i);
    if block != 0 {
      var ignored := bmp.Set(ClusterOf(h, block));
    }
    errors, packed := CheckTable(bmp, f, h, i, errors, packed, PutBlock(claimed, cap, h, block));
  }

  /** The check's bitmap of an image, with the corruptions it counts on the way. */
  method WalkImage(f: seq<byte>, h: Header, flagged: bool) returns (bmp: Bitmap, errors: nat, packed: bool)
    requires WellFormed(f, h) && h.clusterBits <= 21
    ensures fresh(bmp) && fresh(bmp.bytes) && bmp.bytes.Length == Size(Clusters(|f|, h))
    ensures bmp.canTrack <==> Clusters(|f|, h) <= 8 * SCRATCH_SIZE
    ensures bmp.canTrack ==> Clusters(|f|, h) <= 8 * bmp.bytes.Length
    ensures Records(Walk(8 * bmp.bytes.Length, f, h, flagged), bmp.bytes[..], errors, packed)
  {
    hide WellFormed, TableAt, BlockAt, Pow2, VisitSlot, Quotient, Clusters, SlotCount, Rows;
    AtLeastNine(f, h);
    RowsInTable(f, h);
    bmp := new Bitmap(Clusters(|f|, h));
    ghost var cap := 8 * bmp.bytes.Length;
    errors, packed := if flagged then 1 else 0, false;
    var r := bmp.Set(0);
    ghost var s := Scan({}, errors, false).Put(cap, 0);
    MarkRange(bmp, ClusterOf(h, h.l1Offset), Clusters(8 * h.l1Size, h), s);
    s := s.PutRange(cap, ClusterOf(h, h.l1Offset), Clusters(8 * h.l1Size, h));
    MarkRange(bmp, ClusterOf(h, h.tableOffset), h.tableClusters, s);
    s := s.PutRange(cap, ClusterOf(h, h.tableOffset), h.tableClusters);
    assert s == Start(cap, h, flagged);
    for i := 0 to h.l1Size
      invariant Records(VisitSlots(s, cap, f, h, i), bmp.bytes[..], errors, packed)
    {
      errors, packed := CheckSlot(bmp, f, h, i, errors, packed, VisitSlots(s, cap, f, h, i));
    }
    s := VisitSlots(s, cap, f, h, h.l1Size);
    for n := 0 to Rows(|f|, h)
      invariant Records(VisitBlocks(s, cap, f, h, n), bmp.bytes[..], errors, packed)
    {
      var block := BlockAt(f, h, n);
      if block != 0 {
        r := bmp.Set(ClusterOf(h, block));
      }
    }
  }
}
