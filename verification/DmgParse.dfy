/** What the reader makes of the builder's mish blocks and resource fork. */
module DmgParse {
  import opened Bytes
  import opened Options
  import opened DmgTable
  import opened DmgImage

  /** The table chunk a spec becomes at an absolute sector and fork offset. */
  function ChunkOf(z: Codec, spec: Spec, first: nat, pos: nat): Chunk {
    Chunk(first, spec.sectors, if spec.kind == Zero then 0 else pos, |spec.Stored(z)|, spec.kind)
  }

  function ChunksFrom(z: Codec, specs: seq<Spec>, first: nat, pos: nat): (cs: seq<Chunk>)
    ensures |cs| == |specs|
  {
    if specs == [] then [] else
    var init := specs[..|specs| - 1];
    ChunksFrom(z, init, first, pos) + [ChunkOf(z, specs[|specs| - 1], first + Sectors(init), pos + |ForkOf(z, init)|)]
  }

  /** A compressed chunk the reader has room to stage. */
  predicate Staged(z: Codec, spec: Spec) {
    spec.kind == Zlib ==> |spec.Stored(z)| <= COMPRESSED_BUF
  }

  predicate AllStaged(z: Codec, specs: seq<Spec>) {
    forall k :: 0 <= k < |specs| ==> Staged(z, specs[k])
  }

  lemma EntryParts(e: Entry)
    ensures var b := EntryBytes(e);
            && |b| == 40 && b[0..4] == BE(4, e.code) && b[8..16] == BE(8, e.sector) && b[16..24] == BE(8, e.count)
            && b[24..32] == BE(8, e.offset) && b[32..40] == BE(8, e.length)
  {
    hide BE;
    var b := EntryBytes(e);
    assert b[0..4] == BE(4, e.code);
    assert b[8..16] == BE(8, e.sector);
    assert b[16..24] == BE(8, e.count);
    assert b[24..32] == BE(8, e.offset);
    var front := BE(4, e.code) + BE(4, 0) + BE(8, e.sector) + BE(8, e.count) + BE(8, e.offset);
    SecondPart(front, BE(8, e.length));
  }

  lemma SecondPart(a: seq<byte>, b: seq<byte>)
    ensures (a + b)[|a|..|a| + |b|] == b
  {
  }

  /** The fields of an entry, where the reader looks for them. */
  lemma EntryFields(s: seq<byte>, k: nat, e: Entry)
    requires EntryHeld(s, k, e) && e.Packable()
    ensures var off := MISH_HEADER + MISH_ENTRY * k;
            && GetBE(s, off, 4) == e.code && GetBE(s, off + 8, 8) == e.sector && GetBE(s, off + 16, 8) == e.count
            && GetBE(s, off + 24, 8) == e.offset && GetBE(s, off + 32, 8) == e.length
  {
    hide BE, FromBE, GetBE;
    var off := MISH_HEADER + MISH_ENTRY * k;
    var b := EntryBytes(e);
    WidthLimits();
    EntryParts(e);
    PartRead(s, off, b, 0, 4, e.code);
    PartRead(s, off, b, 8, 8, e.sector);
    PartRead(s, off, b, 16, 8, e.count);
    PartRead(s, off, b, 24, 8, e.offset);
    PartRead(s, off, b, 32, 8, e.length);
  }

  /** One entry of a block is kept as its chunk exactly when it can be staged. */
  lemma EntryParsed(z: Codec, s: seq<byte>, k: nat, spec: Spec, first: nat, sector: nat, pos: nat)
    requires EntryHeld(s, k, EntryOf(z, spec, sector, pos)) && spec.Valid()
    requires first + sector < U64 && pos + |spec.Stored(z)| < U64
    ensures ParseEntry(s, MISH_HEADER + MISH_ENTRY * k, first, 0) ==
            if Staged(z, spec) then Kept(ChunkOf(z, spec, first + sector, pos)) else Refused
  {
    hide GetBE, EntryHeld;
    EntryFields(s, k, EntryOf(z, spec, sector, pos));
  }

  lemma EntriesPrefix(z: Codec, specs: seq<Spec>, pos: nat, n: nat)
    requires n <= |specs|
    ensures EntriesOf(z, specs, pos)[..n] == EntriesOf(z, specs[..n], pos)
    decreases |specs|
  {
    if n < |specs| {
      var init := specs[..|specs| - 1];
      EntriesPrefix(z, init, pos, n);
      assert init[..n] == specs[..n];
    } else {
      assert specs[..n] == specs;
    }
  }

  lemma EntryAt(z: Codec, specs: seq<Spec>, pos: nat, n: nat)
    requires n < |specs|
    ensures EntriesOf(z, specs, pos)[n] == EntryOf(z, specs[n], Sectors(specs[..n]), pos + |ForkOf(z, specs[..n])|)
  {
    EntriesPrefix(z, specs, pos, n + 1);
    assert specs[..n + 1][..n] == specs[..n];
  }

  lemma {:induction false} PrefixBounds(z: Codec, specs: seq<Spec>, n: nat)
    requires n < |specs|
    ensures Sectors(specs[..n]) + specs[n].sectors <= Sectors(specs)
    ensures |ForkOf(z, specs[..n])| + |specs[n].Stored(z)| <= |ForkOf(z, specs)|
    decreases |specs|
  {
    var init := specs[..|specs| - 1];
    if n < |init| {
      PrefixBounds(z, init, n);
      assert init[..n] == specs[..n];
    }
  }

  lemma MishEntry(s: seq<byte>, first: nat, total: nat, entries: seq<Entry>, k: nat)
    requires IsMish(s, first, total, entries) && k < |entries|
    ensures EntryHeld(s, k, entries[k]) && |s| == MISH_HEADER + MISH_ENTRY * |entries|
  {
    hide BE, EntryBytes;
  }

  /** Reading the first n entries of a block. */
  lemma {:induction false} BlockPrefix(z: Codec, s: seq<byte>, specs: seq<Spec>, first: nat, pos: nat, n: nat)
    requires IsMish(s, first, Sectors(specs), BlockEntries(z, specs, pos)) && AllValid(specs) && n <= |specs|
    requires first + Sectors(specs) < U64 && pos + |ForkOf(z, specs)| < U64
    ensures ParsePrefix(s, n, first, 0) ==
            if AllStaged(z, specs[..n]) then Some(ChunksFrom(z, specs[..n], first, pos)) else None
  {
    hide GetBE, BE, EntryBytes, EntryHeld, Sectors, ForkOf, ParseEntry, Staged, IsMish, ChunkOf, EntryOf, Spec.Stored,
      Spec.Valid;
    if n > 0 {
      BlockPrefix(z, s, specs, first, pos, n - 1);
      PrefixBounds(z, specs, n - 1);
      EntryAt(z, specs, pos, n - 1);
      MishEntry(s, first, Sectors(specs), BlockEntries(z, specs, pos), n - 1);
      EntryParsed(z, s, n - 1, specs[n - 1], first, Sectors(specs[..n - 1]), pos + |ForkOf(z, specs[..n - 1])|);
      assert specs[..n][..n - 1] == specs[..n - 1];
      assert AllStaged(z, specs[..n]) <==> AllStaged(z, specs[..n - 1]) && Staged(z, specs[n - 1]);
    }
  }

  /** A whole block: its chunks in order, or a refusal if one is too large; the terminator is dropped. */
  lemma BlockParsed(z: Codec, s: seq<byte>, specs: seq<Spec>, first: nat, pos: nat)
    requires IsMish(s, first, Sectors(specs), BlockEntries(z, specs, pos)) && AllValid(specs)
    requires first + Sectors(specs) < U64 && pos + |ForkOf(z, specs)| < U64
    ensures ParseMish(s, 0) == if AllStaged(z, specs) then Some(ChunksFrom(z, specs, first, pos)) else None
  {
    hide GetBE, BE, EntryBytes, EntryHeld, Sectors, ForkOf, Staged, EntriesOf;
    var n := |specs|;
    BlockPrefix(z, s, specs, first, pos, n);
    assert specs[..n] == specs;
    var last := BlockEntries(z, specs, pos)[n];
    assert EntryHeld(s, n, last);
    EntryFields(s, n, last);
    WidthLimits();
    FieldRead(s, 0, 4, MISH_MAGIC);
    FieldRead(s, 8, 8, first);
    FieldRead(s, 24, 8, 0);
    assert (|s| - MISH_HEADER) / MISH_ENTRY == n + 1;
  }

  function Flat(blocks: seq<seq<Spec>>): seq<Spec> {
    if blocks == [] then [] else Flat(blocks[..|blocks| - 1]) + blocks[|blocks| - 1]
  }

  lemma Regroup<T>(a: seq<T>, b: seq<T>, c: seq<T>)
    ensures a + (b + c) == (a + b) + c
  {
  }

  lemma ForkSnoc(z: Codec, a: seq<Spec>, last: Spec)
    ensures ForkOf(z, a + [last]) == ForkOf(z, a) + last.Stored(z) && Sectors(a + [last]) == Sectors(a) + last.sectors
  {
    hide Spec.Stored;
    assert (a + [last])[..|a|] == a;
  }

  lemma {:induction false} ForkJoin(z: Codec, a: seq<Spec>, b: seq<Spec>)
    ensures ForkOf(z, a + b) == ForkOf(z, a) + ForkOf(z, b)
    ensures Sectors(a + b) == Sectors(a) + Sectors(b)
  {
    if b == [] {
      assert a + b == a;
    } else {
      hide Spec.Stored, Sectors, ForkOf;
      var init, last := b[..|b| - 1], b[|b| - 1];
      ForkJoin(z, a, init);
      ForkSnoc(z, a + init, last);
      ForkSnoc(z, init, last);
      Regroup(a, init, [last]);
      assert b == init + [last];
      Regroup(ForkOf(z, a), ForkOf(z, init), last.Stored(z));
    }
  }

  lemma ChunksSnoc(z: Codec, a: seq<Spec>, last: Spec, first: nat, pos: nat)
    ensures ChunksFrom(z, a + [last], first, pos) ==
            ChunksFrom(z, a, first, pos) + [ChunkOf(z, last, first + Sectors(a), pos + |ForkOf(z, a)|)]
  {
    hide ChunkOf, Sectors, ForkOf;
    assert (a + [last])[..|a|] == a;
  }

  /** Chunks of a later block carry on where the earlier blocks stopped. */
  lemma {:induction false} ChunksJoin(z: Codec, a: seq<Spec>, b: seq<Spec>, first: nat, pos: nat)
    ensures ChunksFrom(z, a + b, first, pos) ==
            ChunksFrom(z, a, first, pos) + ChunksFrom(z, b, first + Sectors(a), pos + |ForkOf(z, a)|)
  {
    hide ChunkOf, Sectors, ForkOf, ChunksFrom;
    if b == [] {
      assert a + b == a;
    } else {
      var init, last := b[..|b| - 1], b[|b| - 1];
      ChunksJoin(z, a, init, first, pos);
      ForkJoin(z, a, init);
      assert a + b == (a + init) + [last] && b == init + [last];
      ChunksSnoc(z, a + init, last, first, pos);
      ChunksSnoc(z, init, last, first + Sectors(a), pos + |ForkOf(z, a)|);
    }
  }

  /** Mish k describes block k, placed after all the blocks before it. */
  predicate Describes(z: Codec, blocks: seq<seq<Spec>>, mishes: seq<seq<byte>>, k: nat)
    requires k < |blocks| && k < |mishes|
  {
    var before := Flat(blocks[..k]);
    IsMish(mishes[k], Sectors(before), Sectors(blocks[k]), BlockEntries(z, blocks[k], |ForkOf(z, before)|))
  }

  predicate AllDescribed(z: Codec, blocks: seq<seq<Spec>>, mishes: seq<seq<byte>>) {
    |mishes| == |blocks| && forall k :: 0 <= k < |blocks| ==> Describes(z, blocks, mishes, k)
  }

  function Resources(mishes: seq<seq<byte>>): seq<byte> {
    if mishes == [] then [] else BE(4, |mishes[0]|) + mishes[0] + Resources(mishes[1..])
  }

  lemma {:induction false} ResourcesAppend(mishes: seq<seq<byte>>, m: seq<byte>)
    ensures Resources(mishes + [m]) == Resources(mishes) + (BE(4, |m|) + m)
  {
    hide BE;
    if mishes == [] {
      assert Resources([m]) == BE(4, |m|) + m + Resources([]);
    } else {
      ResourcesAppend(mishes[1..], m);
      assert (mishes + [m])[1..] == mishes[1..] + [m];
    }
  }

  lemma {:induction false} FlatStep(blocks: seq<seq<Spec>>, k: nat)
    requires k < |blocks|
    ensures Flat(blocks[..k + 1]) == Flat(blocks[..k]) + blocks[k]
  {
    assert blocks[..k + 1][..k] == blocks[..k];
  }

  lemma {:induction false} FlatPrefix(z: Codec, blocks: seq<seq<Spec>>, k: nat)
    requires k <= |blocks|
    ensures Sectors(Flat(blocks[..k])) <= Sectors(Flat(blocks))
    ensures |ForkOf(z, Flat(blocks[..k]))| <= |ForkOf(z, Flat(blocks))|
    ensures |Flat(blocks[..k])| <= |Flat(blocks)|
    decreases |blocks| - k
  {
    hide Sectors, ForkOf;
    if k < |blocks| {
      FlatPrefix(z, blocks, k + 1);
      FlatStep(blocks, k);
      ForkJoin(z, Flat(blocks[..k]), blocks[k]);
    } else {
      assert blocks[..k] == blocks;
    }
  }

  predicate BlocksValid(blocks: seq<seq<Spec>>) {
    forall k :: 0 <= k < |blocks| ==> AllValid(blocks[k])
  }

  predicate BlocksStaged(z: Codec, blocks: seq<seq<Spec>>) {
    forall k :: 0 <= k < |blocks| ==> AllStaged(z, blocks[k])
  }

  /** The sizes the packed fields can hold. */
  predicate FitsFields(z: Codec, blocks: seq<seq<Spec>>) {
    Sectors(Flat(blocks)) < U64 && |ForkOf(z, Flat(blocks))| < U64 && |Flat(blocks)| <= MAX_CHUNKS
  }

  /** The resource at off is mish m, and the rest follows it. */
  lemma ResourceAt(region: seq<byte>, off: nat, m: seq<byte>, rest: seq<byte>)
    requires off <= |region| && region[off..] == BE(4, |m|) + m + rest && |m| < U32
    ensures off + 4 + |m| <= |region| && GetBE(region, off, 4) == |m|
    ensures region[off + 4..off + 4 + |m|] == m && region[off + 4 + |m|..] == rest
  {
    hide BE, GetBE;
    PartsOfTail(region, off, BE(4, |m|), m, rest);
    WidthLimits();
    FieldRead(region, off, 4, |m|);
  }

  lemma PartsOfTail(s: seq<byte>, off: nat, a: seq<byte>, b: seq<byte>, c: seq<byte>)
    requires off <= |s| && s[off..] == a + b + c && |a| == 4
    ensures off + 4 + |b| <= |s|
    ensures s[off..off + 4] == a && s[off + 4..off + 4 + |b|] == b && s[off + 4 + |b|..] == c
  {
    var tail := s[off..];
    assert |tail| == 4 + |b| + |c|;
    ThreeParts(tail, a, b, c);
    SubSlice(s, off, tail, 0, 4);
    SubSlice(s, off, tail, 4, |b|);
    SubSlice(s, off, tail, 4 + |b|, |c|);
  }

  lemma ThreeParts(s: seq<byte>, a: seq<byte>, b: seq<byte>, c: seq<byte>)
    requires s == a + b + c
    ensures s[..|a|] == a && s[|a|..|a| + |b|] == b && s[|a| + |b|..] == c
  {
  }

  /** Block k of a described image, parsed. */
  lemma DescribedParsed(z: Codec, blocks: seq<seq<Spec>>, mishes: seq<seq<byte>>, k: nat)
    requires AllDescribed(z, blocks, mishes) && k < |blocks| && BlocksValid(blocks) && FitsFields(z, blocks)
    ensures var before := Flat(blocks[..k]);
            && |before| + |blocks[k]| <= MAX_CHUNKS
            && ChunksFrom(z, Flat(blocks[..k + 1]), 0, 0) ==
               ChunksFrom(z, before, 0, 0) + ChunksFrom(z, blocks[k], Sectors(before), |ForkOf(z, before)|)
            && ParseMish(mishes[k], 0) == if AllStaged(z, blocks[k])
                                          then Some(ChunksFrom(z, blocks[k], Sectors(before), |ForkOf(z, before)|))
                                            else None
  {
    hide IsMish, BlockEntries, Sectors, ForkOf, ParseMish, ChunksFrom, AllStaged, AllValid;
    var before := Flat(blocks[..k]);
    FlatStep(blocks, k);
    ForkJoin(z, before, blocks[k]);
    FlatPrefix(z, blocks, k + 1);
    ChunksJoin(z, before, blocks[k], 0, 0);
    assert Describes(z, blocks, mishes, k);
    BlockParsed(z, mishes[k], blocks[k], Sectors(before), |ForkOf(z, before)|);
  }

  /** A resource fork yields the table of the blocks it holds. */
  lemma {:induction false} ForkWalked(region: seq<byte>, off: nat, mishes: seq<seq<byte>>, dataFork: nat,
                                      table: seq<Chunk>)
    requires off <= |region| <= REGION_CAP && region[off..] == Resources(mishes)
    requires forall k :: 0 <= k < |mishes| ==> |mishes[k]| > 0
    ensures WalkFork(region, off, |region|, dataFork, table) == Assemble(mishes, dataFork, table)
    decreases |mishes|
  {
    hide BE, FromBE, GetBE, ParseMish;
    if mishes != [] {
      var m, rest := mishes[0], Resources(mishes[1..]);
      assert |region[off..]| == 4 + |m| + |rest|;
      ResourceAt(region, off, m, rest);
      var grown := Extended(table, ParseMish(m, dataFork));
      if grown.Some? {
        ForkWalked(region, off + 4 + |m|, mishes[1..], dataFork, grown.value);
      }
    }
  }

  /** Described blocks give one chunk for each spec, unless a chunk cannot be staged. */
  lemma {:induction false} BlocksAssembled(z: Codec, blocks: seq<seq<Spec>>, mishes: seq<seq<byte>>, k: nat)
    requires AllDescribed(z, blocks, mishes) && k <= |blocks|
    requires BlocksValid(blocks) && BlocksStaged(z, blocks[..k]) && FitsFields(z, blocks)
    ensures Assemble(mishes[k..], 0, ChunksFrom(z, Flat(blocks[..k]), 0, 0)) ==
            if BlocksStaged(z, blocks) then Some(ChunksFrom(z, Flat(blocks), 0, 0)) else None
    decreases |blocks| - k
  {
    hide IsMish, BlockEntries, Sectors, ForkOf, ParseMish, ChunksFrom, AllStaged, AllValid, Describes;
    if k == |blocks| {
      assert mishes[k..] == [] && blocks[..k] == blocks;
    } else {
      assert mishes[k..][0] == mishes[k] && mishes[k..][1..] == mishes[k + 1..];
      DescribedParsed(z, blocks, mishes, k);
      if AllStaged(z, blocks[k]) {
        assert BlocksStaged(z, blocks[..k + 1]);
        BlocksAssembled(z, blocks, mishes, k + 1);
      }
    }
  }

  lemma MishLength(z: Codec, blocks: seq<seq<Spec>>, mishes: seq<seq<byte>>, k: nat)
    requires AllDescribed(z, blocks, mishes) && k < |blocks|
    ensures |mishes[k]| == MISH_HEADER + MISH_ENTRY * (|blocks[k]| + 1)
  {
    hide BE, EntryHeld, Sectors, ForkOf, EntriesOf;
    assert Describes(z, blocks, mishes, k);
  }
}
