/** The DMG reader's chunk table: parsing mish blocks and the resource fork, and looking sectors up. */
module DmgTable {
  import opened Bytes
  import opened Options

  const SECTOR: nat := 512
  const MISH_MAGIC: nat := 0x6D69_7368
  const MISH_HEADER: nat := 204
  const MISH_ENTRY: nat := 40

  const CHUNK_ZERO: nat := 0x0000_0000
  const CHUNK_RAW: nat := 0x0000_0001
  const CHUNK_IGNORE: nat := 0x0000_0002
  const CHUNK_ZLIB: nat := 0x8000_0005
  const CHUNK_COMMENT: nat := 0x7FFF_FFFE
  const CHUNK_TERMINATOR: nat := 0xFFFF_FFFF

  const LENGTHS_MAX: nat := 0x400_0000
  const SECTORCOUNTS_MAX: nat := 0x2_0000
  const MAX_STAGED_SECTORS: nat := 4096
  const COMPRESSED_BUF: nat := 0x21_0000
  const MAX_CHUNKS: nat := 32768
  const REGION_CAP: nat := 0x10_0000

  datatype Kind = Zero | Raw | Zlib

  /** A kept chunk, offsets already absolute. */
  datatype Chunk = Chunk(first: nat, count: nat, host: nat, length: nat, kind: Kind)

  datatype Parsed = Kept(chunk: Chunk) | Dropped | Refused

  /** Some(None) drops the entry silently; None refuses the image. */
  function Classify(code: nat): Option<Option<Kind>> {
    if code == CHUNK_ZERO || code == CHUNK_IGNORE then Some(Some(Zero))
    else if code == CHUNK_RAW then Some(Some(Raw))
    else if code == CHUNK_ZLIB then Some(Some(Zlib))
    else if code == CHUNK_COMMENT || code == CHUNK_TERMINATOR then Some(None)
    else None
  }

  /** Both the emulator's caps and the tighter staging caps. */
  predicate WithinCaps(kind: Kind, count: nat, length: nat) {
    && length <= LENGTHS_MAX
    && (kind != Zero ==> count <= SECTORCOUNTS_MAX && count <= MAX_STAGED_SECTORS && length <= COMPRESSED_BUF)
  }

  function ParseEntry(mish: seq<byte>, off: nat, outOffset: nat, inOffset: nat): Parsed
    requires off + MISH_ENTRY <= |mish|
  {
    match Classify(GetBE(mish, off, 4))
    case None => Refused
    case Some(None) => Dropped
    case Some(Some(kind)) =>
      var c := Chunk(GetBE(mish, off + 8, 8) + outOffset, GetBE(mish, off + 16, 8),
                     GetBE(mish, off + 24, 8) + inOffset, GetBE(mish, off + 32, 8), kind);
      if c.first < U64 && c.host < U64 && WithinCaps(kind, c.count, c.length) then Kept(c) else Refused
  }

  /** The chunks kept from the first n entries. */
  function ParsePrefix(mish: seq<byte>, n: nat, outOffset: nat, inOffset: nat): Option<seq<Chunk>>
    requires MISH_HEADER + MISH_ENTRY * n <= |mish|
  {
    if n == 0 then Some([]) else
    match ParsePrefix(mish, n - 1, outOffset, inOffset)
    case None => None
    case Some(cs) =>
      match ParseEntry(mish, MISH_HEADER + MISH_ENTRY * (n - 1), outOffset, inOffset)
      case Refused => None
      case Dropped => Some(cs)
      case Kept(c) => Some(cs + [c])
  }

  /** A block that is too short or has the wrong magic is skipped, not refused. */
  function ParseMish(mish: seq<byte>, dataFork: nat): Option<seq<Chunk>> {
    if |mish| < MISH_HEADER + MISH_ENTRY || GetBE(mish, 0, 4) != MISH_MAGIC then Some([]) else
    var inOffset := dataFork + GetBE(mish, 24, 8);
    if inOffset >= U64 then None
    else ParsePrefix(mish, (|mish| - MISH_HEADER) / MISH_ENTRY, GetBE(mish, 8, 8), inOffset)
  }

  /** The table with a block's chunks appended. */
  function Extended(table: seq<Chunk>, chunks: Option<seq<Chunk>>): Option<seq<Chunk>> {
    if chunks.Some? && |table| + |chunks.value| <= MAX_CHUNKS then Some(table + chunks.value) else None
  }

  /** The table after a list of blocks, in order. */
  function Assemble(mishes: seq<seq<byte>>, dataFork: nat, table: seq<Chunk>): Option<seq<Chunk>> {
    if mishes == [] then Some(table) else
    match Extended(table, ParseMish(mishes[0], dataFork))
    case None => None
    case Some(grown) => Assemble(mishes[1..], dataFork, grown)
  }

  /** ParsePrefix never shrinks: a refusal or an overflow of the table is final. */
  lemma {:induction false} PrefixGrows(mish: seq<byte>, n: nat, m: nat, outOffset: nat, inOffset: nat)
    requires n <= m && MISH_HEADER + MISH_ENTRY * m <= |mish|
    ensures ParsePrefix(mish, m, outOffset, inOffset).Some? ==>
              && ParsePrefix(mish, n, outOffset, inOffset).Some?
              && |ParsePrefix(mish, n, outOffset, inOffset).value| <= |ParsePrefix(mish, m, outOffset, inOffset).value|
  {
    hide GetBE, ParseEntry;
    if n < m {
      PrefixGrows(mish, n, m - 1, outOffset, inOffset);
    }
  }

  /** Appends the chunks of one mish block to the table, or refuses. */
  method ParseMishBlock(mish: seq<byte>, dataFork: nat, table: seq<Chunk>) returns (r: Option<seq<Chunk>>)
    requires |table| <= MAX_CHUNKS
    ensures r == Extended(table, ParseMish(mish, dataFork))
  {
    hide GetBE, ParseEntry;
    if |mish| < MISH_HEADER + MISH_ENTRY || GetBE(mish, 0, 4) != MISH_MAGIC {
      assert table + [] == table;
      return Some(table);
    }
    var outOffset, inOffset := GetBE(mish, 8, 8), dataFork + GetBE(mish, 24, 8);
    if inOffset >= U64 {
      return None;
    }
    var n := (|mish| - MISH_HEADER) / MISH_ENTRY;
    var off, grown := MISH_HEADER, table;
    for k := 0 to n
      invariant off == MISH_HEADER + MISH_ENTRY * k
      invariant |grown| <= MAX_CHUNKS
      invariant ParsePrefix(mish, k, outOffset, inOffset).Some?
      invariant grown == table + ParsePrefix(mish, k, outOffset, inOffset).value
    {
      PrefixGrows(mish, k + 1, n, outOffset, inOffset);
      match ParseEntry(mish, off, outOffset, inOffset) {
        case Refused => return None;
        case Dropped =>
        case Kept(c) =>
          if |grown| >= MAX_CHUNKS {
            return None;
          }
          grown := grown + [c];
      }
      off := off + MISH_ENTRY;
    }
    return Some(grown);
  }

  /** Resources of the form [u32 size][mish] from off to end, appended to the table. */
  function WalkFork(region: seq<byte>, off: nat, end: nat, dataFork: nat, table: seq<Chunk>): Option<seq<Chunk>>
    requires off <= |region|
    decreases |region| - off
  {
    if off >= end then Some(table)
    else if off + 4 > |region| then None else
    var size := GetBE(region, off, 4);
    if size == 0 || size > end - off || off + 4 + size > |region| then None else
    match Extended(table, ParseMish(region[off + 4..off + 4 + size], dataFork))
    case None => None
    case Some(grown) => WalkFork(region, off + 4 + size, end, dataFork, grown)
  }

  function ParseFork(region: seq<byte>, dataFork: nat): Option<seq<Chunk>> {
    if |region| > REGION_CAP || |region| < 12 then None else
    var start, count := GetBE(region, 0, 4), GetBE(region, 8, 4);
    if start > |region| || count == 0 || start + count > |region| then None
    else WalkFork(region, start, start + count, dataFork, [])
  }

  method ParseResourceFork(region: seq<byte>, dataFork: nat) returns (r: Option<seq<Chunk>>)
    ensures r == ParseFork(region, dataFork)
  {
    hide GetBE, ParseMish;
    if |region| > REGION_CAP || |region| < 12 {
      return None;
    }
    var start, count := GetBE(region, 0, 4), GetBE(region, 8, 4);
    if start > |region| || count == 0 || start + count > |region| {
      return None;
    }
    var off, end, table := start, start + count, [];
    while off < end
      invariant off <= |region| && |table| <= MAX_CHUNKS
      invariant WalkFork(region, off, end, dataFork, table) == ParseFork(region, dataFork)
      decreases |region| - off
    {
      if off + 4 > |region| {
        return None;
      }
      var size := GetBE(region, off, 4);
      if size == 0 || size > end - off {
        return None;
      }
      off := off + 4;
      if off + size > |region| {
        return None;
      }
      var grown := ParseMishBlock(region[off..off + size], dataFork, table);
      if grown.None? {
        return None;
      }
      table, off := grown.value, off + size;
    }
    return Some(table);
  }

  /** Chunks with data are no larger than the staging buffer. */
  predicate Capped(table: seq<Chunk>) {
    forall i :: 0 <= i < |table| && table[i].kind != Zero ==> table[i].count <= MAX_STAGED_SECTORS
  }

  lemma {:induction false} PrefixCapped(mish: seq<byte>, n: nat, outOffset: nat, inOffset: nat)
    requires MISH_HEADER + MISH_ENTRY * n <= |mish|
    ensures var r := ParsePrefix(mish, n, outOffset, inOffset);
            r.Some? ==> Capped(r.value)
  {
    hide GetBE;
    if n > 0 {
      PrefixCapped(mish, n - 1, outOffset, inOffset);
    }
  }

  lemma ExtendedCapped(table: seq<Chunk>, mish: seq<byte>, dataFork: nat)
    requires Capped(table)
    ensures var r := Extended(table, ParseMish(mish, dataFork));
            r.Some? ==> Capped(r.value)
  {
    hide GetBE, ParsePrefix;
    if |mish| >= MISH_HEADER + MISH_ENTRY {
      PrefixCapped(mish, (|mish| - MISH_HEADER) / MISH_ENTRY, GetBE(mish, 8, 8), dataFork + GetBE(mish, 24, 8));
    }
  }

  lemma {:induction false} ForkCapped(region: seq<byte>, off: nat, end: nat, dataFork: nat, table: seq<Chunk>)
    requires off <= |region| && Capped(table)
    ensures var r := WalkFork(region, off, end, dataFork, table);
            r.Some? ==> Capped(r.value)
    decreases |region| - off
  {
    hide GetBE, ParseMish, Capped;
    if off < end && off + 4 <= |region| {
      var size := GetBE(region, off, 4);
      if 0 < size <= end - off && off + 4 + size <= |region| {
        var mish := region[off + 4..off + 4 + size];
        ExtendedCapped(table, mish, dataFork);
        var grown := Extended(table, ParseMish(mish, dataFork));
        if grown.Some? {
          ForkCapped(region, off + 4 + size, end, dataFork, grown.value);
        }
      }
    }
  }

  /** Chunk i - 1 ends, without overflow, before chunk i begins. */
  predicate Follows(table: seq<Chunk>, i: nat)
    requires 1 <= i < |table|
  {
    var end := table[i - 1].first + table[i - 1].count;
    end < U64 && end <= table[i].first
  }

  predicate Sorted(table: seq<Chunk>) {
    forall i :: 1 <= i < |table| ==> Follows(table, i)
  }

  /** Checking neighbours is enough. */
  lemma {:induction false} SortedApart(table: seq<Chunk>, i: nat, j: nat)
    requires Sorted(table) && i < j < |table|
    ensures table[i].first + table[i].count <= table[j].first
  {
    assert Follows(table, j);
    if i + 1 < j {
      SortedApart(table, i, j - 1);
    }
  }

  method VerifySorted(table: seq<Chunk>) returns (ok: bool)
    ensures ok == Sorted(table)
  {
    var i := 1;
    while i < |table|
      invariant 1 <= i
      invariant forall k :: 1 <= k < i && k < |table| ==> Follows(table, k)
    {
      var end := table[i - 1].first + table[i - 1].count;
      if end >= U64 || table[i].first < end {
        assert !Follows(table, i);
        return false;
      }
      i := i + 1;
    }
    return true;
  }

  /** What a lookup says about one sector. */
  datatype Lookup =
    | ZeroSpan(span: nat)
    | RawSpan(host: nat, span: nat)
    | ZlibChunk(host: nat, length: nat, first: nat, count: nat)
    | Gap(span: nat)

  /** 64-bit saturation. */
  function Saturate(x: nat): (r: nat)
    ensures r <= x && r < U64
  {
    if x < U64 then x else U64 - 1
  }

  function End(c: Chunk): nat {
    Saturate(c.first + c.count)
  }

  predicate Contains(c: Chunk, sector: nat) {
    c.first <= sector < End(c)
  }

  function View(c: Chunk, sector: nat): Lookup
    requires Contains(c, sector)
  {
    match c.kind
    case Zero => ZeroSpan(End(c) - sector)
    case Raw => RawSpan(Saturate(c.host + Saturate((sector - c.first) * SECTOR)), End(c) - sector)
    case Zlib => ZlibChunk(c.host, c.length, c.first, c.count)
  }

  /** No chunk begins between a gap's sector and its end, and the end is a chunk's start or the disk's end. */
  predicate GapEnds(table: seq<Chunk>, sectors: nat, sector: nat, span: nat) {
    && (forall i :: 0 <= i < |table| && sector < table[i].first ==> sector + span <= table[i].first)
    && (span > 0 ==> sector + span <= sectors)
    && (sector < sectors && sector + span < sectors ==> exists i :: 0 <= i < |table| && table[i].first == sector + span)
  }

  /** Binary search for the chunk that holds a sector. */
  method ChunkLookup(table: seq<Chunk>, sectors: nat, sector: nat) returns (r: Lookup)
    requires Sorted(table)
    ensures forall i :: 0 <= i < |table| && Contains(table[i], sector) ==> r == View(table[i], sector)
    ensures (forall i :: 0 <= i < |table| ==> !Contains(table[i], sector)) <==> r.Gap?
    ensures r.Gap? ==> GapEnds(table, sectors, sector, r.span)
  {
    var lo, hi := 0, |table|;
    while lo < hi
      invariant 0 <= lo <= hi <= |table|
      invariant forall i :: 0 <= i < lo ==> table[i].first <= sector
      invariant forall i :: hi <= i < |table| ==> sector < table[i].first
    {
      var mid := lo + (hi - lo) / 2;
      if table[mid].first <= sector {
        FirstsAscend(table, mid);
        lo := mid + 1;
      } else {
        FirstsAscend(table, mid);
        hi := mid;
      }
    }
    OnlyTheLast(table, lo, sector);
    if lo > 0 && sector < End(table[lo - 1]) {
      return View(table[lo - 1], sector);
    }
    var next := if lo < |table| then table[lo].first else sectors;
    var ceil := if next > sectors then sectors else next;
    r := Gap(if ceil > sector then ceil - sector else 0);
    if lo < |table| {
      FirstsAscend(table, lo);
    }
  }

  lemma FirstsAscend(table: seq<Chunk>, k: nat)
    requires Sorted(table) && k < |table|
    ensures forall i :: 0 <= i < k ==> table[i].first <= table[k].first
    ensures forall i :: k <= i < |table| ==> table[k].first <= table[i].first
  {
    forall i | 0 <= i < k
      ensures table[i].first <= table[k].first
    {
      SortedApart(table, i, k);
    }
    forall i | k <= i < |table|
      ensures table[k].first <= table[i].first
    {
      if k < i {
        SortedApart(table, k, i);
      }
    }
  }

  /** Of the chunks that begin at or before a sector only the last can hold it. */
  lemma OnlyTheLast(table: seq<Chunk>, lo: nat, sector: nat)
    requires Sorted(table) && lo <= |table|
    requires forall i :: 0 <= i < lo ==> table[i].first <= sector
    requires forall i :: lo <= i < |table| ==> sector < table[i].first
    ensures forall i :: 0 <= i < |table| && i != lo - 1 ==> !Contains(table[i], sector)
  {
    forall i | 0 <= i < |table| && i != lo - 1
      ensures !Contains(table[i], sector)
    {
      if i < lo {
        SortedApart(table, i, lo - 1);
      }
    }
  }
}
