/** From chunk list to image file and back: what a reader of a built image sees. */
module DmgRoundTrip {
  import opened Bytes
  import opened Options
  import opened DmgTable
  import opened DmgImage
  import opened DmgKoly
  import opened DmgParse
  import opened DmgPlist
  import opened DmgMarkup
  import opened Decimals
  import opened DmgReader

  /** What the trailer says. */
  datatype Trailer = Trailer(dataOffset: nat, dataLength: nat, rsrcOffset: nat, rsrcLength: nat,
                             xmlOffset: nat, xmlLength: nat, sectors: nat)
  {
    predicate Packable() {
      && dataOffset < U64 && dataLength < U64 && rsrcOffset < U64 && rsrcLength < U64
      && xmlOffset < U64 && xmlLength < U64 && sectors < U64
    }
  }

  predicate IsKoly(s: seq<byte>, t: Trailer) {
    && |s| == KOLY && s[..4] == KOLY_MAGIC && Holds(s, 4, 4, 4) && Holds(s, 8, 4, 512) && Holds(s, 12, 4, 1)
    && Holds(s, 24, 8, t.dataOffset) && Holds(s, 32, 8, t.dataLength)
    && Holds(s, 40, 8, t.rsrcOffset) && Holds(s, 48, 8, t.rsrcLength)
    && Holds(s, 216, 8, t.xmlOffset) && Holds(s, 224, 8, t.xmlLength) && Holds(s, 492, 8, t.sectors)
  }

  method PackStart(koly: array<byte>)
    requires koly.Length == KOLY
    modifies koly
    ensures koly[..4] == KOLY_MAGIC && Holds(koly[..], 4, 4, 4) && Holds(koly[..], 8, 4, 512)
    ensures Holds(koly[..], 12, 4, 1)
  {
    hide BE;
    Put(koly, 0, KOLY_MAGIC);
    ghost var magic := koly[..4];
    PackBE(koly, 4, 4, 4);
    PackBE(koly, 8, 4, 512);
    PackBE(koly, 12, 4, 1);
    assert koly[..4] == magic;
  }

  method PackForks(koly: array<byte>, t: Trailer)
    requires koly.Length == KOLY
    modifies koly
    ensures Holds(koly[..], 24, 8, t.dataOffset) && Holds(koly[..], 32, 8, t.dataLength)
    ensures Holds(koly[..], 40, 8, t.rsrcOffset) && Holds(koly[..], 48, 8, t.rsrcLength)
    ensures forall p :: 0 <= p < 24 || 56 <= p < KOLY ==> koly[p] == old(koly[p])
  {
    hide BE;
    PackBE(koly, 24, 8, t.dataOffset);
    PackBE(koly, 32, 8, t.dataLength);
    PackBE(koly, 40, 8, t.rsrcOffset);
    PackBE(koly, 48, 8, t.rsrcLength);
  }

  method PackRest(koly: array<byte>, t: Trailer)
    requires koly.Length == KOLY
    modifies koly
    ensures Holds(koly[..], 216, 8, t.xmlOffset) && Holds(koly[..], 224, 8, t.xmlLength)
    ensures Holds(koly[..], 492, 8, t.sectors)
    ensures forall p :: 0 <= p < 216 || 232 <= p < 492 || 500 <= p < KOLY ==> koly[p] == old(koly[p])
  {
    hide BE;
    PackBE(koly, 216, 8, t.xmlOffset);
    PackBE(koly, 224, 8, t.xmlLength);
    PackBE(koly, 492, 8, t.sectors);
  }

  method BuildKoly(t: Trailer) returns (r: seq<byte>)
    ensures IsKoly(r, t)
  {
    hide BE, Holds;
    var koly := new byte[KOLY](_ => 0);
    PackStart(koly);
    ghost var a := koly[..];
    PackForks(koly, t);
    ghost var b := koly[..];
    PackRest(koly, t);
    r := koly[..];
    assert r[..4] == a[..4];
    HoldsStill(a, r, 4, 4, 4);
    HoldsStill(a, r, 8, 4, 512);
    HoldsStill(a, r, 12, 4, 1);
    HoldsStill(b, r, 24, 8, t.dataOffset);
    HoldsStill(b, r, 32, 8, t.dataLength);
    HoldsStill(b, r, 40, 8, t.rsrcOffset);
    HoldsStill(b, r, 48, 8, t.rsrcLength);
  }

  /** The trailer's fields, from the last 512 bytes of the file. */
  function ReadTrailer(file: seq<byte>): Trailer
    requires |file| >= KOLY
  {
    var k := |file| - KOLY;
    Trailer(GetBE(file, k + 24, 8), GetBE(file, k + 32, 8), GetBE(file, k + 40, 8), GetBE(file, k + 48, 8),
            GetBE(file, k + 216, 8), GetBE(file, k + 224, 8), GetBE(file, k + 492, 8))
  }

  datatype Opened = Opened(sectors: nat, table: seq<Chunk>)

  predicate RegionInside(offset: nat, length: nat, koly: nat) {
    offset < koly && length <= koly - offset
  }

  /** The table from the resource fork if there is one, else from the property list. */
  function TableOf(file: seq<byte>, t: Trailer): Option<seq<Chunk>>
    requires |file| >= KOLY
    requires RegionInside(t.rsrcOffset, t.rsrcLength, |file| - KOLY)
    requires RegionInside(t.xmlOffset, t.xmlLength, |file| - KOLY)
  {
    if t.rsrcLength != 0 then ParseFork(file[t.rsrcOffset..t.rsrcOffset + t.rsrcLength], t.dataOffset)
    else if t.xmlLength != 0 then ParsePlist(file[t.xmlOffset..t.xmlOffset + t.xmlLength], t.dataOffset)
    else None
  }

  function Open(file: seq<byte>): Option<Opened> {
    if |file| < KOLY then None else
    var t, koly := ReadTrailer(file), |file| - KOLY;
    if t.dataOffset > koly || !RegionInside(t.rsrcOffset, t.rsrcLength, koly)
      || !RegionInside(t.xmlOffset, t.xmlLength, koly)
       || t.sectors * SECTOR >= U64 then None
    else
      match TableOf(file, t)
      case None => None
      case Some(table) => if table == [] || !Sorted(table) then None else Some(Opened(t.sectors, table))
  }

  /** Whatever image is opened, its table is sorted and its chunks fit the staging buffer: what the reader relies on. */
  lemma OpenedIsReadable(file: seq<byte>)
    requires Open(file).Some?
    ensures Sorted(Open(file).value.table) && Stageable(Open(file).value.table)
  {
    hide GetBE, WalkFork, ParseData, Sorted;
    var t := ReadTrailer(file);
    NothingCapped();
    if t.rsrcLength != 0 {
      var region := file[t.rsrcOffset..t.rsrcOffset + t.rsrcLength];
      ForkCapped(region, GetBE(region, 0, 4), GetBE(region, 0, 4) + GetBE(region, 8, 4), t.dataOffset, []);
    } else {
      DataCapped(file[t.xmlOffset..t.xmlOffset + t.xmlLength], 0, t.dataOffset, []);
    }
    CappedIsStageable(Open(file).value.table);
  }

  lemma NothingCapped()
    ensures Capped([])
  {
  }

  lemma CappedIsStageable(table: seq<Chunk>)
    requires Capped(table)
    ensures Stageable(table)
  {
  }

  lemma TrailerRead(file: seq<byte>, front: seq<byte>, koly: seq<byte>, t: Trailer)
    requires file == front + koly && IsKoly(koly, t) && t.Packable()
    ensures ReadTrailer(file) == t
  {
    hide BE, FromBE, GetBE;
    var k := |front|;
    assert file[k..k + |koly|] == koly;
    WidthLimits();
    PartRead(file, k, koly, 24, 8, t.dataOffset);
    PartRead(file, k, koly, 32, 8, t.dataLength);
    PartRead(file, k, koly, 40, 8, t.rsrcOffset);
    PartRead(file, k, koly, 48, 8, t.rsrcLength);
    PartRead(file, k, koly, 216, 8, t.xmlOffset);
    PartRead(file, k, koly, 224, 8, t.xmlLength);
    PartRead(file, k, koly, 492, 8, t.sectors);
  }

  /** The data fork and one mish block for each group of chunks. */
  method BuildBlocks(z: Codec, blocks: seq<seq<Spec>>) returns (fork: seq<byte>, mishes: seq<seq<byte>>, total: nat)
    ensures fork == ForkOf(z, Flat(blocks)) && total == Sectors(Flat(blocks))
    ensures AllDescribed(z, blocks, mishes)
  {
    hide IsMish, BlockEntries, EntriesOf, ForkOf, Sectors;
    fork, mishes, total := [], [], 0;
    Nothing(z);
    for b := 0 to |blocks|
      invariant |mishes| == b && fork == ForkOf(z, Flat(blocks[..b])) && total == Sectors(Flat(blocks[..b]))
      invariant forall k :: 0 <= k < b ==> Describes(z, blocks, mishes, k)
    {
      ghost var before := mishes;
      var entries, sector;
      entries, fork, sector := BuildEntries(z, blocks[b], fork);
      var mish := BuildMish(total, sector, entries);
      mishes := mishes + [mish];
      assert forall k :: 0 <= k < b ==> Describes(z, blocks, before, k) ==> Describes(z, blocks, mishes, k);
      FlatStep(blocks, b);
      ForkJoin(z, Flat(blocks[..b]), blocks[b]);
      total := total + sector;
    }
    assert blocks[..|blocks|] == blocks;
  }

  lemma Nothing(z: Codec)
    ensures ForkOf(z, []) == [] && Sectors([]) == 0
  {
  }

  /** The entries of one block, its stored bytes appended to the fork. */
  method BuildEntries(z: Codec, specs: seq<Spec>, fork: seq<byte>) returns (entries: seq<Entry>, grown: seq<byte>,
                      sector: nat)
    ensures entries == BlockEntries(z, specs, |fork|)
    ensures grown == fork + ForkOf(z, specs) && sector == Sectors(specs)
  {
    hide ForkOf, Sectors, EntriesOf, EntryOf;
    entries, grown, sector := [], fork, 0;
    Nothing(z);
    assert specs[..0] == [] && EntriesOf(z, [], |fork|) == [];
    for k := 0 to |specs|
      invariant entries == EntriesOf(z, specs[..k], |fork|)
      invariant grown == fork + ForkOf(z, specs[..k]) && sector == Sectors(specs[..k])
    {
      var spec := specs[k];
      ghost var pos := |grown|;
      assert specs[..k + 1] == specs[..k] + [spec];
      EntriesSnoc(z, specs[..k], spec, |fork|);
      ForkSnoc(z, specs[..k], spec);
      if spec.kind == Zero {
        entries := entries + [Entry(CHUNK_ZERO, sector, spec.sectors, 0, 0)];
      } else {
        var stored := if spec.kind == Raw then spec.payload else z.compress(spec.payload);
        var code := if spec.kind == Raw then CHUNK_RAW else CHUNK_ZLIB;
        entries := entries + [Entry(code, sector, spec.sectors, |grown|, |stored|)];
        grown := grown + stored;
        Regroup(fork, ForkOf(z, specs[..k]), stored);
      }
      EntryFor(z, spec, sector, pos);
      sector := sector + spec.sectors;
    }
    assert specs[..|specs|] == specs;
    entries := entries + [Entry(CHUNK_TERMINATOR, sector, 0, |grown|, 0)];
  }

  lemma EntriesSnoc(z: Codec, specs: seq<Spec>, last: Spec, pos: nat)
    ensures EntriesOf(z, specs + [last], pos) ==
              EntriesOf(z, specs, pos) + [EntryOf(z, last, Sectors(specs), pos + |ForkOf(z, specs)|)]
  {
    hide EntryOf, Sectors, ForkOf;
    assert (specs + [last])[..|specs|] == specs;
  }

  lemma EntryFor(z: Codec, spec: Spec, sector: nat, pos: nat)
    ensures spec.kind == Zero ==> EntryOf(z, spec, sector, pos) == Entry(CHUNK_ZERO, sector, spec.sectors, 0, 0)
    ensures spec.kind == Raw ==>
              EntryOf(z, spec, sector, pos) == Entry(CHUNK_RAW, sector, spec.sectors, pos, |spec.payload|)
    ensures spec.kind == Zlib ==>
              EntryOf(z, spec, sector, pos) == Entry(CHUNK_ZLIB, sector, spec.sectors, pos, |z.compress(spec.payload)|)
  {
  }

  lemma {:induction false} ChunkAt(z: Codec, specs: seq<Spec>, n: nat)
    requires n < |specs|
    ensures ChunksFrom(z, specs, 0, 0)[n] == ChunkOf(z, specs[n], Sectors(specs[..n]), |ForkOf(z, specs[..n])|)
    decreases |specs|
  {
    hide ChunkOf, Sectors, ForkOf, ChunksFrom;
    var init, last := specs[..|specs| - 1], specs[|specs| - 1];
    assert specs == init + [last];
    ChunksSnoc(z, init, last, 0, 0);
    if n < |init| {
      ChunkAt(z, init, n);
      assert init[..n] == specs[..n];
    } else {
      assert specs[..n] == init;
    }
  }

  /** The chunks tile the disk: each begins where the one before it ends, and the last ends at the sector count. */
  lemma TableTiles(z: Codec, specs: seq<Spec>)
    requires AllValid(specs) && Sectors(specs) < U64
    ensures var table := ChunksFrom(z, specs, 0, 0);
            && Sorted(table)
            && (specs != [] ==>
                  table[0].first == 0 && table[|table| - 1].first + table[|table| - 1].count == Sectors(specs))
            && (forall i :: 1 <= i < |table| ==> table[i].first == table[i - 1].first + table[i - 1].count)
  {
    hide ForkOf, ChunksFrom, Sectors, Spec.Stored;
    var table := ChunksFrom(z, specs, 0, 0);
    forall i | 1 <= i < |table|
      ensures Follows(table, i) && table[i].first == table[i - 1].first + table[i - 1].count
    {
      ChunkAt(z, specs, i - 1);
      ChunkAt(z, specs, i);
      assert specs[..i] == specs[..i - 1] + [specs[i - 1]];
      ForkSnoc(z, specs[..i - 1], specs[i - 1]);
      PrefixBounds(z, specs, i - 1);
    }
    if specs != [] {
      ChunkAt(z, specs, 0);
      Nothing(z);
      assert specs[..0] == [];
      var n := |specs| - 1;
      ChunkAt(z, specs, n);
      assert specs == specs[..n] + [specs[n]];
      ForkSnoc(z, specs[..n], specs[n]);
    }
  }

  lemma {:induction false} DiskJoin(a: seq<Spec>, b: seq<Spec>)
    ensures Disk(a + b) == Disk(a) + Disk(b)
  {
    hide Spec.Content;
    if b == [] {
      assert a + b == a;
    } else {
      var init, last := b[..|b| - 1], b[|b| - 1];
      DiskJoin(a, init);
      assert (a + b)[..|a + b| - 1] == a + init;
      Regroup(Disk(a), Disk(init), last.Content());
    }
  }

  lemma OneSpec(z: Codec, x: Spec)
    ensures ForkOf(z, [x]) == x.Stored(z) && Disk([x]) == x.Content()
  {
    assert [x][..0] == [];
    assert ForkOf(z, []) == [] && Disk([]) == [];
  }

  lemma PartOf(whole: seq<byte>, a: seq<byte>, b: seq<byte>, c: seq<byte>)
    requires whole == a + (b + c)
    ensures |a| + |b| <= |whole| && whole[|a|..|a| + |b|] == b
  {
  }

  /** Stored bytes and disk content of spec n, where the prefix sums say they are. */
  lemma Placed(z: Codec, specs: seq<Spec>, n: nat)
    requires n < |specs| && AllValid(specs)
    ensures var p, st := |ForkOf(z, specs[..n])|, specs[n].Stored(z);
            p + |st| <= |ForkOf(z, specs)| && ForkOf(z, specs)[p..p + |st|] == st
    ensures var d, c := SECTOR * Sectors(specs[..n]), specs[n].Content();
            |c| == SECTOR * specs[n].sectors && d + |c| <= |Disk(specs)| && Disk(specs)[d..d + |c|] == c
  {
    hide ForkOf, Disk, Sectors;
    var a, x, c := specs[..n], specs[n], specs[n + 1..];
    assert specs == a + ([x] + c);
    OneSpec(z, x);
    ForkJoin(z, a, [x] + c);
    ForkJoin(z, [x], c);
    DiskJoin(a, [x] + c);
    DiskJoin([x], c);
    DiskSize(a);
    PartOf(ForkOf(z, specs), ForkOf(z, a), x.Stored(z), ForkOf(z, c));
    PartOf(Disk(specs), Disk(a), x.Content(), Disk(c));
  }

  lemma {:induction false} DiskSize(specs: seq<Spec>)
    requires AllValid(specs)
    ensures |Disk(specs)| == SECTOR * Sectors(specs)
  {
    if specs != [] {
      DiskSize(specs[..|specs| - 1]);
    }
  }

  /** Every sector below the total lies in one of the specs. */
  lemma {:induction false} SectorOwner(specs: seq<Spec>, s: nat) returns (n: nat)
    requires s < Sectors(specs)
    ensures n < |specs| && Sectors(specs[..n]) <= s < Sectors(specs[..n]) + specs[n].sectors
  {
    var init := specs[..|specs| - 1];
    if s < Sectors(init) {
      n := SectorOwner(init, s);
      assert init[..n] == specs[..n];
    } else {
      n := |init|;
    }
  }

  /** One spec's chunk reads back as that spec's content. */
  lemma SpecByte(z: Codec, file: seq<byte>, x: Spec, first: nat, p: nat, v: nat)
    requires Lawful(z) && x.Valid() && Staged(z, x) && p < |file| && p + |x.Stored(z)| <= |file|
    requires file[p..p + |x.Stored(z)|] == x.Stored(z)
    requires first * SECTOR <= v < (first + x.sectors) * SECTOR && first + x.sectors < U64
    ensures Contains(ChunkOf(z, x, first, p), v / SECTOR)
    ensures |x.Content()| == SECTOR * x.sectors
    ensures ChunkByte(z, file, ChunkOf(z, x, first, p), v) == Some(x.Content()[v - first * SECTOR])
  {
    var at := v - first * SECTOR;
    match x.kind
    case Zero =>
    case Raw => assert file[p + at] == file[p..p + |x.payload|][at];
    case Zlib => assert z.inflate(z.compress(x.payload)) == x.payload;
  }

  /** A byte of the disk, read through the table of a file that begins with the data fork. */
  lemma ByteRead(z: Codec, file: seq<byte>, specs: seq<Spec>, v: nat)
    requires Lawful(z) && AllValid(specs) && AllStaged(z, specs) && Sectors(specs) < U64
    requires |ForkOf(z, specs)| < |file| && file[..|ForkOf(z, specs)|] == ForkOf(z, specs)
    requires v < SECTOR * Sectors(specs)
    ensures v < |Disk(specs)| && DiskByte(z, file, ChunksFrom(z, specs, 0, 0), v) == Some(Disk(specs)[v])
  {
    hide ForkOf, ChunksFrom, Sectors, Disk, DiskByte, Sorted, ChunkByte, ChunkOf, Contains, Spec.Stored, Spec.Content,
      Staged, Spec.Valid;
    var table, fork := ChunksFrom(z, specs, 0, 0), ForkOf(z, specs);
    TableTiles(z, specs);
    DiskSize(specs);
    var n := SectorOwner(specs, v / SECTOR);
    ChunkAt(z, specs, n);
    PrefixBounds(z, specs, n);
    Placed(z, specs, n);
    var x, p, first := specs[n], |ForkOf(z, specs[..n])|, Sectors(specs[..n]);
    SubSlice(file, 0, fork, p, |x.Stored(z)|);
    SpecByte(z, file, x, first, p, v);
    DiskByteIs(z, file, table, n, v);
    Pick(Disk(specs), SECTOR * first, x.Content(), v);
  }

  lemma Pick(s: seq<byte>, d: nat, c: seq<byte>, v: nat)
    requires d + |c| <= |s| && s[d..d + |c|] == c && d <= v < d + |c|
    ensures s[v] == c[v - d]
  {
  }

  /** Nothing can be read past the sector count. */
  lemma NothingPastTheEnd(z: Codec, file: seq<byte>, specs: seq<Spec>, v: nat)
    requires AllValid(specs) && Sectors(specs) < U64 && v >= SECTOR * Sectors(specs)
    ensures DiskByte(z, file, ChunksFrom(z, specs, 0, 0), v) == None
  {
    hide ForkOf, ChunksFrom, Sectors, Spec.Stored;
    var table := ChunksFrom(z, specs, 0, 0);
    forall i | 0 <= i < |table|
      ensures !Contains(table[i], v / SECTOR)
    {
      ChunkAt(z, specs, i);
      PrefixBounds(z, specs, i);
    }
  }

  /** Compressed chunks of a built image never share a host offset, so the one-chunk cache cannot mix them up. */
  lemma CacheTells(z: Codec, specs: seq<Spec>)
    requires Lawful(z) && |ForkOf(z, specs)| < 0x7FFF_FFFF_FFFF_FFFF
    ensures KeysTell(ChunksFrom(z, specs, 0, 0))
  {
    hide ForkOf, ChunksFrom, Sectors, Live;
    var table := ChunksFrom(z, specs, 0, 0);
    forall i | 0 <= i < |table| && Live(table[i])
      ensures CacheKey(table[i].host) != EMPTY
    {
      ChunkAt(z, specs, i);
      PrefixBounds(z, specs, i);
    }
    forall i, j | 0 <= i < |table| && 0 <= j < |table| && Live(table[i]) && Live(table[j])
                  && CacheKey(table[i].host) == CacheKey(table[j].host)
      ensures i == j
    {
      LiveIsZlib(table[i]);
      LiveIsZlib(table[j]);
      ChunkAt(z, specs, i);
      ChunkAt(z, specs, j);
      PrefixBounds(z, specs, i);
      PrefixBounds(z, specs, j);
      if i < j {
        ForkGrows(z, specs, i, j);
      } else if j < i {
        ForkGrows(z, specs, j, i);
      }
    }
  }

  lemma LiveIsZlib(c: Chunk)
    requires Live(c)
    ensures c.kind == Zlib
  {
  }

  lemma ForkGrows(z: Codec, specs: seq<Spec>, i: nat, j: nat)
    requires i < j < |specs|
    ensures |ForkOf(z, specs[..i])| + |specs[i].Stored(z)| <= |ForkOf(z, specs[..j])|
  {
    PrefixBounds(z, specs[..j], i);
    assert specs[..j][..i] == specs[..i];
  }

  predicate IsFork(region: seq<byte>, mishes: seq<seq<byte>>) {
    && |region| == 16 + |Resources(mishes)| && region[16..] == Resources(mishes)
    && Holds(region, 0, 4, 16) && Holds(region, 8, 4, |Resources(mishes)|)
  }

  method BuildFork(mishes: seq<seq<byte>>) returns (region: seq<byte>)
    ensures IsFork(region, mishes)
  {
    hide BE;
    var resources: seq<byte> := [];
    for k := 0 to |mishes|
      invariant resources == Resources(mishes[..k])
    {
      assert mishes[..k + 1] == mishes[..k] + [mishes[k]];
      ResourcesAppend(mishes[..k], mishes[k]);
      resources := resources + (BE(4, |mishes[k]|) + mishes[k]);
    }
    assert mishes[..|mishes|] == mishes;
    var head := new byte[16](_ => 0);
    PackBE(head, 0, 4, 16);
    PackBE(head, 8, 4, |resources|);
    region := head[..] + resources;
    assert region[0..4] == head[0..4] && region[8..12] == head[8..12];
  }

  /** The reader's table for a resource fork the builder wrote. */
  lemma ForkParsed(z: Codec, region: seq<byte>, blocks: seq<seq<Spec>>, mishes: seq<seq<byte>>)
    requires IsFork(region, mishes) && |region| <= REGION_CAP && mishes != []
    requires AllDescribed(z, blocks, mishes) && BlocksValid(blocks) && FitsFields(z, blocks)
    ensures ParseFork(region, 0) == if BlocksStaged(z, blocks) then Some(ChunksFrom(z, Flat(blocks), 0, 0)) else None
  {
    hide BE, GetBE, FromBE, ParseMish, Describes, BlocksStaged, FitsFields;
    WidthLimits();
    FieldRead(region, 0, 4, 16);
    FieldRead(region, 8, 4, |Resources(mishes)|);
    forall k | 0 <= k < |mishes|
      ensures |mishes[k]| > 0
    {
      MishLength(z, blocks, mishes, k);
    }
    ForkWalked(region, 16, mishes, 0, []);
    Complete(z, blocks, mishes);
  }

  lemma Complete(z: Codec, blocks: seq<seq<Spec>>, mishes: seq<seq<byte>>)
    requires AllDescribed(z, blocks, mishes) && BlocksValid(blocks) && FitsFields(z, blocks)
    ensures Assemble(mishes, 0, []) == if BlocksStaged(z, blocks) then Some(ChunksFrom(z, Flat(blocks), 0, 0)) else None
  {
    hide FitsFields, Describes, Assemble;
    assert mishes[0..] == mishes && blocks[..0] == [] && Flat([]) == [];
    BlocksAssembled(z, blocks, mishes, 0);
  }

  /** The reader's table for a property list: base64 elements in any quiet markup. */
  lemma PlistParsed(z: Codec, lead: seq<byte>, after: seq<seq<byte>>, blocks: seq<seq<Spec>>, mishes: seq<seq<byte>>)
    requires |after| == |mishes| && Quiet(lead) && QuietBetween(after)
    requires |lead + Elements(DataTexts(mishes), after)| <= REGION_CAP
    requires AllDescribed(z, blocks, mishes) && BlocksValid(blocks) && FitsFields(z, blocks)
    ensures ParsePlist(lead + Elements(DataTexts(mishes), after), 0) ==
            if BlocksStaged(z, blocks) then Some(ChunksFrom(z, Flat(blocks), 0, 0)) else None
  {
    hide DataText, Decode, NoTag, Quiet, FitsFields, Describes, Assemble, ParseData, Elements;
    var texts := DataTexts(mishes);
    var xml := lead + Elements(texts, after);
    forall k | 0 <= k < |mishes|
      ensures NoTag(texts[k]) && Decoded(texts)[k] == mishes[k]
    {
      DataTextNoTag(mishes[k]);
      DataTextDecodes(mishes[k]);
    }
    assert Decoded(texts) == mishes;
    assert xml[0..] == xml;
    PlistWalked(xml, 0, lead, texts, after, 0, []);
    Complete(z, blocks, mishes);
  }

  /** Where the region goes for either path; the other path's fields stay zero. */
  function TrailerFor(fork: nat, region: nat, sectors: nat, useFork: bool): Trailer {
    if useFork then Trailer(0, fork, fork, region, 0, 0, sectors) else Trailer(0, fork, 0, 0, fork, region, sectors)
  }

  /** What opening a built image must give. */
  function Expected(z: Codec, blocks: seq<seq<Spec>>): Option<Opened> {
    if BlocksStaged(z, blocks) then Some(Opened(Sectors(Flat(blocks)), ChunksFrom(z, Flat(blocks), 0, 0))) else None
  }

  /** An image opens to whatever its region parses to. */
  lemma OpensRegion(file: seq<byte>, fork: seq<byte>, region: seq<byte>, koly: seq<byte>, sectors: nat, useFork: bool,
                    table: Option<seq<Chunk>>)
    requires file == fork + region + koly && IsKoly(koly, TrailerFor(|fork|, |region|, sectors, useFork))
    requires region != []
    requires |file| < U64 && sectors * SECTOR < U64
    requires table == if useFork then ParseFork(region, 0) else ParsePlist(region, 0)
    requires table.Some? ==> table.value != [] && Sorted(table.value)
    ensures Open(file) == match table case None => None case Some(cs) => Some(Opened(sectors, cs))
  {
    hide BE, GetBE, ParseFork, ParsePlist, Sorted, IsKoly, ReadTrailer;
    var t := TrailerFor(|fork|, |region|, sectors, useFork);
    assert |koly| == KOLY by { KolyLength(koly, t); }
    TrailerRead(file, fork + region, koly, t);
    assert file[|fork|..|fork| + |region|] == region;
  }

  lemma EndsInMagic(front: seq<byte>, koly: seq<byte>, t: Trailer)
    requires IsKoly(koly, t)
    ensures MagicAt(front + koly, |front|)
  {
    hide Holds;
    assert (front + koly)[|front|..|front| + 4] == koly[..4];
  }

  lemma KolyLength(koly: seq<byte>, t: Trailer)
    requires IsKoly(koly, t)
    ensures |koly| == KOLY
  {
  }

  lemma {:induction false} FlatValid(blocks: seq<seq<Spec>>)
    requires BlocksValid(blocks)
    ensures AllValid(Flat(blocks))
  {
    hide Spec.Valid;
    if blocks != [] {
      FlatValid(blocks[..|blocks| - 1]);
    }
  }

  lemma {:induction false} FlatStaged(z: Codec, blocks: seq<seq<Spec>>)
    requires BlocksStaged(z, blocks)
    ensures AllStaged(z, Flat(blocks))
  {
    hide Staged;
    if blocks != [] {
      FlatStaged(z, blocks[..|blocks| - 1]);
    }
  }

  // ----- sizes -----

  /** Sizes of the mish blocks: a header, an entry for each chunk and the terminator. */
  function BlockSizes(blocks: seq<seq<Spec>>): (r: seq<nat>)
    ensures |r| == |blocks|
  {
    seq(|blocks|, k requires 0 <= k < |blocks| => MISH_HEADER + MISH_ENTRY * (|blocks[k]| + 1))
  }

  /** The size of the region with the chunk tables, from the number of chunks in each block alone. */
  function RegionSize(blocks: seq<seq<Spec>>, useFork: bool): nat {
    if useFork then 16 + 248 * |blocks| + 40 * |Flat(blocks)| else PlistSize(BlockSizes(blocks))
  }

  lemma SameSizes(z: Codec, blocks: seq<seq<Spec>>, mishes: seq<seq<byte>>)
    requires AllDescribed(z, blocks, mishes)
    ensures Sizes(mishes) == BlockSizes(blocks)
  {
    hide Describes;
    forall k | 0 <= k < |blocks|
      ensures Sizes(mishes)[k] == BlockSizes(blocks)[k]
    {
      MishLength(z, blocks, mishes, k);
    }
  }

  lemma TextBounds(n: nat)
    ensures MISH_HEADER + MISH_ENTRY * (n + 1) <= TextSize(MISH_HEADER + MISH_ENTRY * (n + 1)) <= 377 + 60 * n
  {
  }

  /** Numbers below 100000 have at most five digits. */
  lemma FewDigits(k: nat)
    requires k < 100000
    ensures |Decimal(k)| <= 5
  {
    hide Decimal;
    DigitMore(k);
    DigitMore(k / 10);
    DigitMore(k / 10 / 10);
    DigitMore(k / 10 / 10 / 10);
    DigitMore(k / 10 / 10 / 10 / 10);
  }

  lemma DigitMore(k: nat)
    ensures if k < 10 then |Decimal(k)| == 1 else |Decimal(k)| == 1 + |Decimal(k / 10)|
  {
  }

  lemma {:induction false} EntriesBounds(blocks: seq<seq<Spec>>, n: nat)
    requires n <= |blocks|
    ensures 40 * |Flat(blocks[..n])| <= EntriesSize(BlockSizes(blocks), n)
    ensures n <= 100000 ==> EntriesSize(BlockSizes(blocks), n) <= 600 * n + 60 * |Flat(blocks[..n])|
  {
    hide TextSize, Decimal;
    if n == 0 {
      assert blocks[..0] == [];
    } else {
      EntriesBounds(blocks, n - 1);
      FlatStep(blocks, n - 1);
      TextBounds(|blocks[n - 1]|);
      if n <= 100000 {
        FewDigits(n - 1);
      }
    }
  }

  /** A region is at least 40 bytes for each chunk; a property list of up to 100000 blocks takes at most 600 and 60. */
  lemma RegionBounds(blocks: seq<seq<Spec>>, useFork: bool)
    ensures 40 * |Flat(blocks)| <= RegionSize(blocks, useFork)
    ensures |blocks| <= 100000 ==> RegionSize(blocks, useFork) <= 271 + 600 * |blocks| + 60 * |Flat(blocks)|
  {
    hide TextSize, Decimal, EntriesSize;
    EntriesBounds(blocks, |blocks|);
    assert blocks[..|blocks|] == blocks;
  }

  /** Everything the fuzzer can build, eight chunks in at most two blocks, is far inside the limit, by either path. */
  lemma BuilderFits(blocks: seq<seq<Spec>>, useFork: bool)
    requires |blocks| <= 2 && |Flat(blocks)| <= 8
    ensures RegionSize(blocks, useFork) <= 2000 < REGION_CAP
  {
    hide RegionSize, Flat;
    RegionBounds(blocks, useFork);
  }

  lemma {:induction false} ContentBounds(z: Codec, specs: seq<Spec>)
    requires AllValid(specs) && AllStaged(z, specs)
    ensures Sectors(specs) <= MAX_STAGED_SECTORS * |specs| && |ForkOf(z, specs)| <= COMPRESSED_BUF * |specs|
  {
    if specs != [] {
      ContentBounds(z, specs[..|specs| - 1]);
    }
  }

  /** Chunks that can be staged, in a region that can be, make a file of less than 63 bits. */
  lemma FileFits(z: Codec, blocks: seq<seq<Spec>>, useFork: bool)
    requires BlocksValid(blocks) && BlocksStaged(z, blocks) && RegionSize(blocks, useFork) <= REGION_CAP
    ensures FitsFields(z, blocks) && Sectors(Flat(blocks)) * SECTOR < U64
    ensures |ForkOf(z, Flat(blocks))| + RegionSize(blocks, useFork) + KOLY < 0x7FFF_FFFF_FFFF_0000
  {
    hide RegionSize, Flat, Sectors, ForkOf, AllValid, AllStaged;
    RegionBounds(blocks, useFork);
    FlatValid(blocks);
    FlatStaged(z, blocks);
    ContentBounds(z, Flat(blocks));
  }

  /** The whole builder: chunks to file, by either path. The random choices are the caller's. */
  method BuildImage(z: Codec, blocks: seq<seq<Spec>>, useFork: bool) returns (file: seq<byte>)
    requires BlocksValid(blocks) && Flat(blocks) != []
    ensures |file| == |ForkOf(z, Flat(blocks))| + RegionSize(blocks, useFork) + KOLY
    ensures file[..|ForkOf(z, Flat(blocks))|] == ForkOf(z, Flat(blocks)) && MagicAt(file, |file| - KOLY)
    ensures
      && RegionSize(blocks, useFork) <= REGION_CAP
      && |ForkOf(z, Flat(blocks))| + RegionSize(blocks, useFork) + KOLY < U64 ==>
        Open(file) == Expected(z, blocks)
  {
    hide BE, IsFork, IsKoly, AllDescribed, ForkOf, Sectors, Open, ChunksFrom, ParseFork, ParsePlist, Quiet, Elements,
      Opening, Fillers, PlistSize, BlockSizes, Sizes, FitsFields;
    var fork, mishes, total := BuildBlocks(z, blocks);
    assert |mishes| == |blocks| by { SameCount(z, blocks, mishes); }
    var region;
    if useFork {
      region := BuildFork(mishes);
      ForkSize(z, region, blocks, mishes);
    } else {
      region := BuildPlist(mishes);
      PlistSizeIs(mishes);
      SameSizes(z, blocks, mishes);
    }
    var koly := BuildKoly(TrailerFor(|fork|, |region|, total, useFork));
    KolyLength(koly, TrailerFor(|fork|, |region|, total, useFork));
    file := fork + region + koly;
    EndsInMagic(fork + region, koly, TrailerFor(|fork|, |region|, total, useFork));
    if |region| <= REGION_CAP && |file| < U64 {
      FewChunks(z, blocks, useFork);
      RegionNotEmpty(region, mishes, useFork);
      if useFork {
        ForkParsed(z, region, blocks, mishes);
      } else {
        MarkupQuiet(|mishes|);
        PlistParsed(z, Opening(), Fillers(|mishes|), blocks, mishes);
      }
      FlatValid(blocks);
      TableTiles(z, Flat(blocks));
      OpensRegion(file, fork, region, koly, total, useFork, if useFork then ParseFork(region, 0)
        else ParsePlist(region, 0));
    }
  }

  lemma {:induction false} FewSectors(specs: seq<Spec>)
    requires AllValid(specs)
    ensures Sectors(specs) <= MAX_STAGED_SECTORS * |specs|
  {
    if specs != [] {
      FewSectors(specs[..|specs| - 1]);
    }
  }

  /** The limit on the region bounds the number of chunks, and so the sectors. */
  lemma FewChunks(z: Codec, blocks: seq<seq<Spec>>, useFork: bool)
    requires BlocksValid(blocks) && RegionSize(blocks, useFork) <= REGION_CAP && |ForkOf(z, Flat(blocks))| < U64
    ensures FitsFields(z, blocks) && Sectors(Flat(blocks)) * SECTOR < U64
  {
    hide RegionSize, Flat, Sectors, ForkOf, AllValid;
    RegionBounds(blocks, useFork);
    FlatValid(blocks);
    FewSectors(Flat(blocks));
  }

  /** A resource fork takes 16 bytes, and 248 for each block and 40 for each chunk. */
  lemma ForkSize(z: Codec, region: seq<byte>, blocks: seq<seq<Spec>>, mishes: seq<seq<byte>>)
    requires IsFork(region, mishes) && AllDescribed(z, blocks, mishes)
    ensures |region| == 16 + 248 * |blocks| + 40 * |Flat(blocks)|
  {
    hide BE, Describes;
    assert mishes[..|mishes|] == mishes && blocks[..|blocks|] == blocks;
    ResourcesSize(z, blocks, mishes, |blocks|);
  }

  lemma {:induction false} ResourcesSize(z: Codec, blocks: seq<seq<Spec>>, mishes: seq<seq<byte>>, n: nat)
    requires AllDescribed(z, blocks, mishes) && n <= |blocks|
    ensures |Resources(mishes[..n])| == 248 * n + 40 * |Flat(blocks[..n])|
  {
    hide BE, Describes, Resources;
    if n > 0 {
      ResourcesSize(z, blocks, mishes, n - 1);
      assert mishes[..n] == mishes[..n - 1] + [mishes[n - 1]];
      ResourcesAppend(mishes[..n - 1], mishes[n - 1]);
      MishLength(z, blocks, mishes, n - 1);
      FlatStep(blocks, n - 1);
    } else {
      NoResources();
      assert mishes[..0] == [] && blocks[..0] == [];
    }
  }

  lemma NoResources()
    ensures Resources([]) == []
  {
  }

  lemma SameCount(z: Codec, blocks: seq<seq<Spec>>, mishes: seq<seq<byte>>)
    requires AllDescribed(z, blocks, mishes)
    ensures |mishes| == |blocks|
  {
  }

  lemma RegionNotEmpty(region: seq<byte>, mishes: seq<seq<byte>>, useFork: bool)
    requires mishes != []
    requires if useFork then IsFork(region, mishes)
              else region == Opening() + Elements(DataTexts(mishes), Fillers(|mishes|))
    ensures region != []
  {
  }

  /** Reads a range after others, through a table and from whatever holds the file. */
  method ReadAfter(z: Codec, file: seq<byte>, disk: Opened, buffer: seq<byte>, history: seq<(nat, nat)>, off: nat,
                   size: nat)
    returns (r: Option<seq<byte>>)
    requires Sorted(disk.table) && Stageable(disk.table) && |buffer| == MAX_INFLATED
    requires |file| < 0x8000_0000_0000_0000 && Addressable(history) && off + size < U64
    ensures r == ReadFrom(z, file, disk.table, After(z, file, disk.table, Fresh(buffer), history), off, size).0
  {
    hide Sorted, Stageable, ReadFrom, After;
    var table := disk.table;
    var reader := new Reader(z, file, disk.sectors, table, buffer);
    NoRead(z, file, table, Fresh(buffer));
    assert history[..0] == [];
    for k := 0 to |history|
      invariant reader.Valid() && reader.z == z && reader.file == file && reader.table == table
      invariant reader.State() == After(z, file, table, Fresh(buffer), history[..k])
    {
      AfterStep(z, file, table, Fresh(buffer), history, k);
      var earlier := reader.Read(history[k].0, history[k].1);
    }
    assert history[..|history|] == history;
    r := reader.Read(off, size);
  }

  /** Through the table of a built image that is the range of the disk. */
  lemma BuiltRange(z: Codec, file: seq<byte>, specs: seq<Spec>, buffer: seq<byte>, history: seq<(nat, nat)>, off: nat,
                   size: nat)
    requires Lawful(z) && AllValid(specs) && AllStaged(z, specs) && Sectors(specs) < U64
    requires |ForkOf(z, specs)| < |file| < 0x8000_0000_0000_0000 && file[..|ForkOf(z, specs)|] == ForkOf(z, specs)
    requires Sorted(ChunksFrom(z, specs, 0, 0)) && Stageable(ChunksFrom(z, specs, 0, 0))
    requires |buffer| == MAX_INFLATED && Addressable(history) && off + size < U64
    ensures var table := ChunksFrom(z, specs, 0, 0);
            ReadFrom(z, file, table, After(z, file, table, Fresh(buffer), history), off, size).0 ==
            Range(specs, off, size)
  {
    hide ForkOf, Sectors, ChunksFrom, Disk, DiskByte, Lawful, AllValid, AllStaged, Sorted, KeysTell, Stageable, Misled,
      ReadFrom, After, CacheSafe;
    CacheTells(z, specs);
    DiskSize(specs);
    var table := ChunksFrom(z, specs, 0, 0);
    var r := ReadFrom(z, file, table, After(z, file, table, Fresh(buffer), history), off, size).0;
    TellingIsSafe(z, file, table);
    SafeReads(z, file, table, buffer, history, off, size);
    RightAnswer(z, file, table, buffer, history, off, size);
    RangeRead(z, file, specs, off, size);
    if r.Some? && size > 0 {
      assert r.value == Disk(specs)[off..off + size];
    }
  }

  /** What a read of the disk should give: its bytes, or an error past its end. */
  function Range(specs: seq<Spec>, off: nat, size: nat): Option<seq<byte>> {
    if size == 0 then Some([])
    else if off + size <= |Disk(specs)| then Some(Disk(specs)[off..off + size])
    else None
  }

  /**
   Building and reading back: any byte range of the disk, at any split into blocks, by either path, after any other
   reads and with anything in the reader's buffer.
   */
  method RoundTrip(z: Codec, blocks: seq<seq<Spec>>, useFork: bool, buffer: seq<byte>, history: seq<(nat, nat)>,
                   off: nat, size: nat)
    returns (r: Option<seq<byte>>)
    requires Lawful(z) && BlocksValid(blocks) && Flat(blocks) != [] && BlocksStaged(z, blocks)
    requires RegionSize(blocks, useFork) <= REGION_CAP && |buffer| == MAX_INFLATED && Addressable(history)
    requires off + size < U64
    ensures r == Range(Flat(blocks), off, size)
  {
    hide ForkOf, Sectors, Open, ChunksFrom, BlocksStaged, BlocksValid, Lawful, AllValid, AllStaged, RegionSize, Sorted,
      Stageable, Range, ReadFrom, After;
    FileFits(z, blocks, useFork);
    var file := BuildImage(z, blocks, useFork);
    var disk := Open(file);
    FlatValid(blocks);
    FlatStaged(z, blocks);
    OpenedIsReadable(file);
    r := ReadAfter(z, file, disk.value, buffer, history, off, size);
    BuiltRange(z, file, Flat(blocks), buffer, history, off, size);
  }

  lemma AfterStep(z: Codec, file: seq<byte>, table: seq<Chunk>, s: Cache, history: seq<(nat, nat)>, k: nat)
    requires Stageable(table) && Whole(s) && k < |history|
    ensures After(z, file, table, s, history[..k + 1]) ==
            ReadFrom(z, file, table, After(z, file, table, s, history[..k]), history[k].0, history[k].1).1
  {
    hide Stageable, ReadFrom;
    assert history[..k + 1][..k] == history[..k];
  }

  /** What "not misled" says. */
  lemma RightAnswer(z: Codec, file: seq<byte>, table: seq<Chunk>, buffer: seq<byte>, history: seq<(nat, nat)>, off: nat,
                    size: nat)
    requires Stageable(table) && |buffer| == MAX_INFLATED && Addressable(history) && off + size < U64
    requires !Misled(z, file, table, buffer, history, off, size)
    ensures Right(z, file, table, off, size,
              ReadFrom(z, file, table, After(z, file, table, Fresh(buffer), history), off, size).0)
  {
    hide Stageable, ReadFrom, After, DiskByte;
  }

  /** A range is readable exactly when it lies on the disk. */
  lemma RangeRead(z: Codec, file: seq<byte>, specs: seq<Spec>, off: nat, size: nat)
    requires Lawful(z) && AllValid(specs) && AllStaged(z, specs) && Sectors(specs) < U64
    requires |ForkOf(z, specs)| < |file| && file[..|ForkOf(z, specs)|] == ForkOf(z, specs)
    ensures forall v :: 0 <= v < |Disk(specs)| ==>
              DiskByte(z, file, ChunksFrom(z, specs, 0, 0), v) == Some(Disk(specs)[v])
    ensures size > 0 && off + size > |Disk(specs)| ==>
              exists v :: off <= v < off + size && DiskByte(z, file, ChunksFrom(z, specs, 0, 0), v) == None
  {
    hide ForkOf, Sectors, ChunksFrom, Disk, DiskByte, AllValid, AllStaged, Lawful;
    DiskSize(specs);
    forall v | 0 <= v < |Disk(specs)|
      ensures DiskByte(z, file, ChunksFrom(z, specs, 0, 0), v) == Some(Disk(specs)[v])
    {
      ByteRead(z, file, specs, v);
    }
    if size > 0 && off + size > |Disk(specs)| {
      NothingPastTheEnd(z, file, specs, off + size - 1);
    }
  }
}
