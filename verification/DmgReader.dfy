/** Reading a byte range of the virtual disk through the chunk table, with one inflated chunk cached. */
module DmgReader {
  import opened Bytes
  import opened Options
  import opened DmgTable
  import opened DmgImage

  const MAX_INFLATED: nat := 0x20_0000

  /** A zlib chunk inflated; None if it is out of the file, too large, or not of the size it claims. */
  function Inflated(z: Codec, file: seq<byte>, c: Chunk): Option<seq<byte>> {
    if c.count * SECTOR > MAX_INFLATED || c.length > COMPRESSED_BUF || c.host >= |file|
      || c.host + c.length > |file| then None
    else
      var out := z.inflate(file[c.host..c.host + c.length]);
      if |out| == c.count * SECTOR then Some(out) else None
  }

  /** Byte v of the disk, which lies in chunk c. */
  function ChunkByte(z: Codec, file: seq<byte>, c: Chunk, v: nat): Option<byte>
    requires Contains(c, v / SECTOR)
  {
    match c.kind
    case Zero => Some(0)
    case Raw => var p := c.host + (v - c.first * SECTOR); if p < |file| then Some(file[p]) else None
    case Zlib =>
      match Inflated(z, file, c)
      case None => None
      case Some(out) => Some(out[v - c.first * SECTOR])
  }

  /** Byte v of the disk: the chunk that holds it decides, and a gap cannot be read. */
  ghost function DiskByte(z: Codec, file: seq<byte>, table: seq<Chunk>, v: nat): Option<byte> {
    if i :| 0 <= i < |table| && Contains(table[i], v / SECTOR) then ChunkByte(z, file, table[i], v) else None
  }

  /** At most one chunk of a sorted table holds a sector. */
  lemma DiskByteIs(z: Codec, file: seq<byte>, table: seq<Chunk>, i: nat, v: nat)
    requires Sorted(table) && i < |table| && Contains(table[i], v / SECTOR)
    ensures DiskByte(z, file, table, v) == ChunkByte(z, file, table[i], v)
  {
    hide ChunkByte;
    forall k | 0 <= k < |table| && k != i
      ensures !Contains(table[k], v / SECTOR)
    {
      if k < i {
        SortedApart(table, k, i);
      } else {
        SortedApart(table, i, k);
      }
    }
  }

  lemma GapUnreadable(z: Codec, file: seq<byte>, table: seq<Chunk>, v: nat)
    requires forall i :: 0 <= i < |table| ==> !Contains(table[i], v / SECTOR)
    ensures DiskByte(z, file, table, v) == None
  {
  }

  lemma SpanInChunk(c: Chunk, cur: nat, span: nat, v: nat)
    requires Contains(c, cur / SECTOR) && cur <= v < cur + span && cur + span <= End(c) * SECTOR
    ensures Contains(c, v / SECTOR)
  {
  }

  /** As much of n sectors, less intra bytes, as the request still wants. */
  function Clip(n: nat, intra: nat, remaining: nat): (span: nat)
    requires n > 0 && intra < SECTOR && remaining > 0
    ensures 0 < span <= remaining && span + intra <= n * SECTOR
  {
    var bytes := Saturate(n * SECTOR) - intra;
    if remaining < bytes then remaining else bytes
  }

  // ----- the cache -----

  const EMPTY: nat := U64 - 1

  /** The cache is keyed by host offset with the top bit set. */
  function CacheKey(host: nat): nat {
    if host < 0x8000_0000_0000_0000 then host + 0x8000_0000_0000_0000 else host
  }

  /** One key for the staging buffer; all ones stands for nothing staged. */
  datatype Cache = Cache(key: nat, staging: seq<byte>)

  /** A buffer whose first bytes were overwritten. */
  function Overlay(staging: seq<byte>, out: seq<byte>): (r: seq<byte>)
    requires |out| <= |staging|
    ensures |r| == |staging|
  {
    out + staging[|out|..]
  }

  function AtMost(out: seq<byte>, n: nat): (r: seq<byte>)
    ensures |r| <= n
  {
    if |out| <= n then out else out[..n]
  }

  /** Chunks the staging buffer can hold. */
  predicate Stageable(table: seq<Chunk>) {
    forall i :: 0 <= i < |table| && table[i].kind == Zlib ==> table[i].count * SECTOR <= MAX_INFLATED
  }

  predicate Whole(s: Cache) {
    |s.staging| == MAX_INFLATED
  }

  /** Staging a chunk: a cached key is taken at its word, otherwise the chunk is inflated. */
  function StageOf(z: Codec, file: seq<byte>, c: Chunk, s: Cache): (r: (bool, Cache))
    requires Whole(s) && c.count * SECTOR <= MAX_INFLATED
    ensures Whole(r.1)
  {
    if s.key == CacheKey(c.host) then (true, s)
    else if c.length > COMPRESSED_BUF || c.host >= |file| || c.host + c.length > |file| then (false, s)
    else
      var out := z.inflate(file[c.host..c.host + c.length]);
      var staged := Overlay(s.staging, AtMost(out, c.count * SECTOR));
      if |out| != c.count * SECTOR then (false, Cache(EMPTY, staged)) else (true, Cache(CacheKey(c.host), staged))
  }

  /** How far a read can go on in one chunk. */
  function SpanIn(c: Chunk, cur: nat, remaining: nat): (span: nat)
    requires Contains(c, cur / SECTOR) && remaining > 0
    ensures 0 < span <= remaining
  {
    if c.kind == Zlib then
      var bytes := c.count * SECTOR - (cur - c.first * SECTOR);
      if remaining < bytes then remaining else bytes
    else Clip(End(c) - cur / SECTOR, cur % SECTOR, remaining)
  }

  /** One span of a read that starts in chunk c: the bytes, or None, and the cache afterwards. */
  function SpanOf(z: Codec, file: seq<byte>, c: Chunk, s: Cache, cur: nat,
                  remaining: nat): (r: (Option<seq<byte>>, Cache))
    requires Contains(c, cur / SECTOR) && remaining > 0 && Whole(s)
    requires c.kind == Zlib ==> c.count * SECTOR <= MAX_INFLATED
    ensures Whole(r.1) && (r.0.Some? ==> |r.0.value| == SpanIn(c, cur, remaining))
  {
    var span := SpanIn(c, cur, remaining);
    match c.kind
    case Zero => (Some(Zeros(span)), s)
    case Raw =>
      var at := c.host + (cur - c.first * SECTOR);
      (if at + span <= |file| then Some(file[at..at + span]) else None, s)
    case Zlib =>
      var (ok, t) := StageOf(z, file, c, s);
      var within := cur - c.first * SECTOR;
      (if ok then Some(t.staging[within..within + span]) else None, t)
  }

  /** A read in some state of the cache: span after span until it is complete or one fails. */
  ghost function ReadFrom(z: Codec, file: seq<byte>, table: seq<Chunk>, s: Cache, off: nat,
                          size: nat): (r: (Option<seq<byte>>, Cache))
    requires Stageable(table) && Whole(s)
    ensures Whole(r.1) && (r.0.Some? ==> |r.0.value| == size)
    decreases size
  {
    if size == 0 then (Some([]), s)
    else if i :| 0 <= i < |table| && Contains(table[i], off / SECTOR) then
      var (part, t) := SpanOf(z, file, table[i], s, off, size);
      if part.None? then (None, t) else
      var (rest, u) := ReadFrom(z, file, table, t, off + |part.value|, size - |part.value|);
      (if rest.Some? then Some(part.value + rest.value) else None, u)
    else (None, s)
  }

  /** The cache after a history of reads. */
  ghost function After(z: Codec, file: seq<byte>, table: seq<Chunk>, s: Cache, history: seq<(nat, nat)>): (t: Cache)
    requires Stageable(table) && Whole(s)
    ensures Whole(t)
  {
    if history == [] then s
    else
      var last := history[|history| - 1];
      ReadFrom(z, file, table, After(z, file, table, s, history[..|history| - 1]), last.0, last.1).1
  }

  /** A sorted table has at most one chunk for a sector. */
  lemma Alone(table: seq<Chunk>, sector: nat, i: nat)
    requires Sorted(table) && i < |table| && Contains(table[i], sector)
    ensures forall k :: 0 <= k < |table| && k != i ==> !Contains(table[k], sector)
  {
    forall k | 0 <= k < |table| && k != i
      ensures !Contains(table[k], sector)
    {
      if k < i {
        SortedApart(table, k, i);
      } else {
        SortedApart(table, i, k);
      }
    }
  }

  /** What is left to read once a span was read. */
  ghost function Continue(z: Codec, file: seq<byte>, table: seq<Chunk>, part: Option<seq<byte>>, t: Cache, off: nat,
                          size: nat)
      : (Option<seq<byte>>, Cache)
    requires Stageable(table) && Whole(t) && (part.Some? ==> |part.value| <= size)
  {
    if part.None? then (None, t) else
    var (rest, u) := ReadFrom(z, file, table, t, off + |part.value|, size - |part.value|);
    (if rest.Some? then Some(part.value + rest.value) else None, u)
  }

  /** Only one chunk can be meant. */
  lemma ReadFromChunk(z: Codec, file: seq<byte>, table: seq<Chunk>, s: Cache, off: nat, size: nat, i: nat)
    requires Sorted(table) && Stageable(table) && Whole(s) && size > 0 && i < |table|
    requires Contains(table[i], off / SECTOR)
    ensures var (part, t) := SpanOf(z, file, table[i], s, off, size);
            ReadFrom(z, file, table, s, off, size) == Continue(z, file, table, part, t, off, size)
  {
    hide SpanOf, Stageable, Sorted;
    Alone(table, off / SECTOR, i);
  }

  lemma ReadFromGap(z: Codec, file: seq<byte>, table: seq<Chunk>, s: Cache, off: nat, size: nat)
    requires Stageable(table) && Whole(s) && size > 0 && forall i :: 0 <= i < |table| ==>
              !Contains(table[i], off / SECTOR)
    ensures ReadFrom(z, file, table, s, off, size) == (None, s)
  {
    hide Stageable;
  }

  /** Either way, the read goes on behind the span, or ends with it. */
  lemma ReadGoesOn(z: Codec, file: seq<byte>, table: seq<Chunk>, s: Cache, t: Cache, part: Option<seq<byte>>, off: nat,
                   size: nat)
    requires Sorted(table) && Stageable(table) && Whole(s) && Whole(t) && size > 0
    requires (forall i :: 0 <= i < |table| ==> !Contains(table[i], off / SECTOR)) ==> part.None? && t == s
    requires forall i :: 0 <= i < |table| && Contains(table[i], off / SECTOR) ==>
               (part, t) == SpanOf(z, file, table[i], s, off, size)
    ensures part.Some? ==> 0 < |part.value| <= size
    ensures ReadFrom(z, file, table, s, off, size) == Continue(z, file, table, part, t, off, size)
  {
    hide SpanOf, Stageable, Sorted, ReadFrom, Contains;
    if i: nat :| i < |table| && Contains(table[i], off / SECTOR) {
      SpanNotEmpty(z, file, table, s, off, size, i);
      ReadFromChunk(z, file, table, s, off, size, i);
    } else {
      ReadFromGap(z, file, table, s, off, size);
    }
  }

  lemma SpanNotEmpty(z: Codec, file: seq<byte>, table: seq<Chunk>, s: Cache, off: nat, size: nat, i: nat)
    requires Stageable(table) && Whole(s) && size > 0 && i < |table| && Contains(table[i], off / SECTOR)
    ensures SpanOf(z, file, table[i], s, off, size).0.Some? ==>
              0 < |SpanOf(z, file, table[i], s, off, size).0.value| <= size
  {
    hide StageOf;
    ZlibFits(table, i);
  }

  lemma Joined(out: seq<byte>, part: seq<byte>, rest: Option<seq<byte>>)
    ensures rest.Some? ==> out + (part + rest.value) == out + part + rest.value
  {
  }

  lemma EndOfRead(z: Codec, file: seq<byte>, table: seq<Chunk>, s: Cache, off: nat)
    requires Stageable(table) && Whole(s)
    ensures ReadFrom(z, file, table, s, off, 0) == (Some([]), s)
  {
    hide Stageable;
  }

  lemma NothingBefore(r: Option<seq<byte>>)
    ensures r.Some? ==> [] + r.value == r.value
  {
  }

  // ----- the reader -----

  method ReadRaw(file: seq<byte>, ghost c: Chunk, host: nat, cur: nat, span: nat) returns (r: Option<seq<byte>>)
    requires |file| < 0x8000_0000_0000_0000 && c.kind == Raw && Contains(c, cur / SECTOR) && span > 0
    requires host == Saturate(c.host + Saturate((cur / SECTOR - c.first) * SECTOR))
    ensures var at := c.host + (cur - c.first * SECTOR);
            r == if at + span <= |file| then Some(file[at..at + span]) else None
  {
    var at := Saturate(host + cur % SECTOR);
    var end := Saturate(at + span);
    if at >= |file| || end > |file| {
      return None;
    }
    return Some(file[at..at + span]);
  }

  class Reader {
    const z: Codec
    const file: seq<byte>
    const sectors: nat
    const table: seq<Chunk>
    var key: nat
    var staging: seq<byte>

    /** The buffer comes with whatever it held before. */
    constructor (z: Codec, file: seq<byte>, sectors: nat, table: seq<Chunk>, buffer: seq<byte>)
      requires Sorted(table) && Stageable(table) && |file| < 0x8000_0000_0000_0000 && |buffer| == MAX_INFLATED
      ensures Valid() && this.z == z && this.file == file && this.table == table && State() == Cache(EMPTY, buffer)
    {
      this.z, this.file, this.sectors, this.table := z, file, sectors, table;
      key, staging := EMPTY, buffer;
    }

    ghost predicate Valid()
      reads this
    {
      Sorted(table) && Stageable(table) && |file| < 0x8000_0000_0000_0000 && |staging| == MAX_INFLATED
    }

    function State(): Cache
      reads this
    {
      Cache(key, staging)
    }

    /** Makes the staging buffer hold a chunk, inflating it unless it is cached already. */
    method Stage(c: Chunk) returns (ok: bool)
      requires Valid() && c.kind == Zlib && c.count * SECTOR <= MAX_INFLATED
      modifies this
      ensures Valid() && (ok, State()) == StageOf(z, file, c, old(State()))
    {
      var wanted := CacheKey(c.host);
      if key == wanted {
        return true;
      }
      if c.length > COMPRESSED_BUF || c.host >= |file| || c.host + c.length > |file| {
        return false;
      }
      var out := z.inflate(file[c.host..c.host + c.length]);
      staging := Overlay(staging, AtMost(out, c.count * SECTOR));
      if |out| != c.count * SECTOR {
        key := EMPTY;
        return false;
      }
      key := wanted;
      return true;
    }

    /** One span, from cur to the end of its chunk or of the request; a gap cannot be read. */
    method ReadSpan(cur: nat, remaining: nat) returns (r: Option<seq<byte>>)
      requires Valid() && remaining > 0 && cur + remaining < U64
      modifies this
      ensures Valid()
      ensures (forall i :: 0 <= i < |table| ==> !Contains(table[i], cur / SECTOR)) ==>
                r.None? && State() == old(State())
      ensures forall i :: 0 <= i < |table| && Contains(table[i], cur / SECTOR) ==>
                (r, State()) == SpanOf(z, file, table[i], old(State()), cur, remaining)
    {
      hide StageOf, Sorted, Clip, Saturate, SpanOf, Contains, Stageable;
      var sector, intra := cur / SECTOR, cur % SECTOR;
      var look := ChunkLookup(table, sectors, sector);
      if look.Gap? {
        return None;
      }
      ghost var i: nat :| i < |table| && Contains(table[i], sector);
      ghost var c := table[i];
      Alone(table, sector, i);
      LookTells(c, look, sector);
      ZlibFits(table, i);
      SpanParts(z, file, c, State(), cur, remaining);
      match look {
        case ZeroSpan(n) =>
          r := Some(Zeros(Clip(n, intra, remaining)));
        case RawSpan(host, n) =>
          r := ReadRaw(file, c, host, cur, Clip(n, intra, remaining));
        case ZlibChunk(host, length, first, count) =>
          var ok := Stage(Chunk(first, count, host, length, Zlib));
          if ok {
            var within := cur - first * SECTOR;
            var bytes := count * SECTOR - within;
            r := Some(staging[within..within + if remaining < bytes then remaining else bytes]);
          } else {
            r := None;
          }
      }
    }

    /** A byte range of the disk, whatever the cache holds. */
    method Read(off: nat, size: nat) returns (r: Option<seq<byte>>)
      requires Valid() && off + size < U64
      modifies this
      ensures Valid() && (r, State()) == ReadFrom(z, file, table, old(State()), off, size)
    {
      hide SpanOf, Sorted, Stageable, ReadFrom, Contains;
      var out := [];
      NothingBefore(ReadFrom(z, file, table, State(), off, size).0);
      while |out| < size
        invariant Valid() && |out| <= size
        invariant var (rest, t) := ReadFrom(z, file, table, State(), off + |out|, size - |out|);
                  ReadFrom(z, file, table, old(State()), off, size) ==
                    (if rest.Some? then Some(out + rest.value) else None, t)
        decreases size - |out|
      {
        ghost var s := State();
        var cur, left := off + |out|, size - |out|;
        var part := ReadSpan(cur, left);
        ReadGoesOn(z, file, table, s, State(), part, cur, left);
        if part.None? {
          return None;
        }
        Joined(out, part.value, ReadFrom(z, file, table, State(), cur + |part.value|, left - |part.value|).0);
        out := out + part.value;
      }
      EndOfRead(z, file, table, State(), off + size);
      assert out + [] == out;
      return Some(out);
    }
  }

  lemma ZlibFits(table: seq<Chunk>, i: nat)
    requires Stageable(table) && i < |table|
    ensures table[i].kind == Zlib ==> table[i].count * SECTOR <= MAX_INFLATED
  {
  }

  /** What a lookup says about the chunk it has found. */
  lemma LookTells(c: Chunk, look: Lookup, sector: nat)
    requires Contains(c, sector) && look == View(c, sector)
    ensures !look.Gap? && c.first <= sector < End(c) && End(c) <= c.first + c.count
    ensures look.ZeroSpan? <==> c.kind == Zero
    ensures look.RawSpan? <==> c.kind == Raw
    ensures look.ZlibChunk? ==>
              look == ZlibChunk(c.host, c.length, c.first, c.count)
                && c == Chunk(c.first, c.count, c.host, c.length, Zlib)
    ensures look.ZeroSpan? ==> look == ZeroSpan(End(c) - sector)
    ensures look.RawSpan? ==>
              look == RawSpan(Saturate(c.host + Saturate((sector - c.first) * SECTOR)), End(c) - sector)
  {
  }

  /** A span, kind by kind. */
  lemma SpanParts(z: Codec, file: seq<byte>, c: Chunk, s: Cache, cur: nat, remaining: nat)
    requires Contains(c, cur / SECTOR) && remaining > 0 && Whole(s)
    requires c.kind == Zlib ==> c.count * SECTOR <= MAX_INFLATED
    ensures var n, at := End(c) - cur / SECTOR, c.host + (cur - c.first * SECTOR);
            && n > 0
            && (c.kind == Zero ==>
                  SpanOf(z, file, c, s, cur, remaining) == (Some(Zeros(Clip(n, cur % SECTOR, remaining))), s))
            && (c.kind == Raw ==>
                  var span := Clip(n, cur % SECTOR, remaining);
                  SpanOf(z, file, c, s, cur, remaining) ==
                    (if at + span <= |file| then Some(file[at..at + span]) else None, s))
    ensures c.kind == Zlib ==>
              var (ok, t) := StageOf(z, file, c, s);
              var within, bytes := cur - c.first * SECTOR, c.count * SECTOR - (cur - c.first * SECTOR);
              && 0 <= within && 0 < bytes
              && within + (if remaining < bytes then remaining else bytes) <= |t.staging|
              && SpanOf(z, file, c, s, cur, remaining) ==
                 (if ok then Some(t.staging[within..within + if remaining < bytes then remaining else bytes])
                   else None, t)
  {
    hide StageOf, Clip;
  }

  // ----- when the cache can be trusted -----

  /** Bytes of a chunk that a read with 64-bit offsets can ask for. */
  function Seen(c: Chunk): nat {
    var left := if c.first * SECTOR < U64 - 1 then U64 - 1 - c.first * SECTOR else 0;
    if c.count * SECTOR < left then c.count * SECTOR else left
  }

  /** A zlib chunk some read can come to. */
  predicate Live(c: Chunk) {
    c.kind == Zlib && Seen(c) > 0
  }

  /** The staged bytes do for chunk c. */
  predicate Serves(z: Codec, file: seq<byte>, staged: seq<byte>, c: Chunk) {
    var out := Inflated(z, file, c);
    out.Some? && Seen(c) <= |staged| && Seen(c) <= |out.value| && staged[..Seen(c)] == out.value[..Seen(c)]
  }

  /** No key stands for an empty cache, and a chunk that stages serves every chunk with its key. */
  predicate CacheSafe(z: Codec, file: seq<byte>, table: seq<Chunk>) {
    && (forall i :: 0 <= i < |table| && Live(table[i]) ==> CacheKey(table[i].host) != EMPTY)
    && (forall i, j :: 0 <= i < |table| && 0 <= j < |table| && Live(table[i]) && Live(table[j])
                       && CacheKey(table[i].host) == CacheKey(table[j].host) && Inflated(z, file, table[i]).Some? ==>
          Serves(z, file, Inflated(z, file, table[i]).value, table[j]))
  }

  /** Whatever chunk the key stands for, the staging buffer does for it. */
  ghost predicate Good(z: Codec, file: seq<byte>, table: seq<Chunk>, s: Cache) {
    && Whole(s)
    && forall j :: 0 <= j < |table| && Live(table[j]) && CacheKey(table[j].host) == s.key ==>
       Serves(z, file, s.staging, table[j])
  }

  /** A read is right: it succeeds exactly if every byte can be read, and gives those bytes. */
  ghost predicate Right(z: Codec, file: seq<byte>, table: seq<Chunk>, off: nat, size: nat, r: Option<seq<byte>>) {
    && (r.Some? <==> forall v :: off <= v < off + size ==> DiskByte(z, file, table, v).Some?)
    && (r.Some? ==> |r.value| == size && forall v :: off <= v < off + size ==>
        DiskByte(z, file, table, v) == Some(r.value[v - off]))
  }

  lemma LiveWhenRead(c: Chunk, cur: nat)
    requires c.kind == Zlib && Contains(c, cur / SECTOR) && cur + 1 < U64
    ensures Live(c) && cur - c.first * SECTOR < Seen(c)
  {
  }

  /** Staging keeps the cache good, and succeeds exactly for a chunk that inflates. */
  lemma StageGood(z: Codec, file: seq<byte>, table: seq<Chunk>, s: Cache, i: nat)
    requires CacheSafe(z, file, table) && Good(z, file, table, s) && i < |table| && Live(table[i])
    requires table[i].count * SECTOR <= MAX_INFLATED
    ensures var (ok, t) := StageOf(z, file, table[i], s);
            Good(z, file, table, t) && (ok <==> Inflated(z, file, table[i]).Some?)
              && (ok ==> Serves(z, file, t.staging, table[i]))
  {
    hide Seen;
    var c := table[i];
    var (ok, t) := StageOf(z, file, c, s);
    if ok && s.key != CacheKey(c.host) {
      var out := Inflated(z, file, c).value;
      forall j | 0 <= j < |table| && Live(table[j]) && CacheKey(table[j].host) == t.key
        ensures Serves(z, file, t.staging, table[j])
      {
        assert Serves(z, file, out, table[j]);
        assert t.staging[..Seen(table[j])] == out[..Seen(table[j])];
      }
    }
  }

  /** The bytes of one span, as far as they can be read. */
  predicate SpanRead(z: Codec, file: seq<byte>, c: Chunk, cur: nat, span: nat, r: Option<seq<byte>>) {
    && span > 0 && (forall v :: cur <= v < cur + span ==> Contains(c, v / SECTOR))
    && (r.None? ==> exists v :: cur <= v < cur + span && ChunkByte(z, file, c, v).None?)
    && (r.Some? ==> |r.value| == span && forall v :: cur <= v < cur + span ==>
        ChunkByte(z, file, c, v) == Some(r.value[v - cur]))
  }

  lemma SpanWithin(c: Chunk, cur: nat, remaining: nat)
    requires Contains(c, cur / SECTOR) && remaining > 0 && cur + remaining < U64
    ensures forall v :: cur <= v < cur + SpanIn(c, cur, remaining) ==> Contains(c, v / SECTOR)
  {
    forall v | cur <= v < cur + SpanIn(c, cur, remaining)
      ensures Contains(c, v / SECTOR)
    {
      SpanInChunk(c, cur, SpanIn(c, cur, remaining), v);
    }
  }

  lemma ZlibSpan(z: Codec, file: seq<byte>, c: Chunk, staged: seq<byte>, cur: nat, remaining: nat)
    requires c.kind == Zlib && Contains(c, cur / SECTOR) && remaining > 0 && cur + remaining < U64
    requires |staged| == MAX_INFLATED && c.count * SECTOR <= MAX_INFLATED && Serves(z, file, staged, c)
    ensures var span, within := SpanIn(c, cur, remaining), cur - c.first * SECTOR;
            0 <= within && within + span <= |staged|
              && SpanRead(z, file, c, cur, span, Some(staged[within..within + span]))
  {
    hide Inflated;
    SpanWithin(c, cur, remaining);
    var span, within, out := SpanIn(c, cur, remaining), cur - c.first * SECTOR, Inflated(z, file, c).value;
    assert within + span <= Seen(c);
    forall v | cur <= v < cur + span
      ensures ChunkByte(z, file, c, v) == Some(staged[within..within + span][v - cur])
    {
      var k := v - c.first * SECTOR;
      assert staged[k] == staged[..Seen(c)][k] == out[..Seen(c)][k];
    }
  }

  lemma SpanRight(z: Codec, file: seq<byte>, table: seq<Chunk>, s: Cache, i: nat, cur: nat, remaining: nat)
    requires Stageable(table) && CacheSafe(z, file, table) && Good(z, file, table, s) && i < |table|
    requires Contains(table[i], cur / SECTOR) && remaining > 0 && cur + remaining < U64
    ensures var (part, t) := SpanOf(z, file, table[i], s, cur, remaining);
            Good(z, file, table, t) && SpanRead(z, file, table[i], cur, SpanIn(table[i], cur, remaining), part)
  {
    hide Inflated, StageOf, CacheSafe, Good, Seen, Clip, Serves;
    var c, span := table[i], SpanIn(table[i], cur, remaining);
    GoodIsWhole(z, file, table, s);
    SpanWithin(c, cur, remaining);
    match c.kind
    case Zero =>
    case Raw =>
      var at := c.host + (cur - c.first * SECTOR);
      if at + span > |file| {
        assert ChunkByte(z, file, c, cur + span - 1).None?;
      }
    case Zlib =>
      LiveWhenRead(c, cur);
      StageGood(z, file, table, s, i);
      var (ok, t) := StageOf(z, file, c, s);
      if ok {
        ZlibSpan(z, file, c, t.staging, cur, remaining);
      } else {
        assert ChunkByte(z, file, c, cur).None?;
      }
  }

  lemma SpanOfDisk(z: Codec, file: seq<byte>, table: seq<Chunk>, i: nat, cur: nat, span: nat, r: Option<seq<byte>>)
    requires Sorted(table) && i < |table| && SpanRead(z, file, table[i], cur, span, r)
    ensures r.None? ==> exists v :: cur <= v < cur + span && DiskByte(z, file, table, v).None?
    ensures r.Some? ==> |r.value| == span && forall v :: cur <= v < cur + span ==>
              DiskByte(z, file, table, v) == Some(r.value[v - cur])
  {
    hide ChunkByte, DiskByte, Sorted;
    forall v | cur <= v < cur + span
      ensures DiskByte(z, file, table, v) == ChunkByte(z, file, table[i], v)
    {
      DiskByteIs(z, file, table, i, v);
    }
  }

  /** From a good cache every read is right and leaves the cache good. */
  lemma {:induction false} ReadRight(z: Codec, file: seq<byte>, table: seq<Chunk>, s: Cache, off: nat, size: nat)
    requires Sorted(table) && Stageable(table) && CacheSafe(z, file, table) && Good(z, file, table, s)
    requires off + size < U64
    ensures var (r, t) := ReadFrom(z, file, table, s, off, size);
            Good(z, file, table, t) && Right(z, file, table, off, size, r)
    decreases size
  {
    hide Sorted, CacheSafe, Good, SpanOf, DiskByte, ReadFrom, SpanIn, SpanRead;
    GoodIsWhole(z, file, table, s);
    if size == 0 {
      EndOfRead(z, file, table, s, off);
    } else if i: nat :| i < |table| && Contains(table[i], off / SECTOR) {
      ReadFromChunk(z, file, table, s, off, size, i);
      SpanRight(z, file, table, s, i, off, size);
      var (part, t) := SpanOf(z, file, table[i], s, off, size);
      var span := SpanIn(table[i], off, size);
      SpanOfDisk(z, file, table, i, off, span, part);
      if part.Some? {
        ReadRight(z, file, table, t, off + span, size - span);
        var (rest, u) := ReadFrom(z, file, table, t, off + span, size - span);
        RightJoin(z, file, table, off, size, span, part.value, rest);
      }
    } else {
      ReadFromGap(z, file, table, s, off, size);
      GapUnreadable(z, file, table, off);
    }
  }

  lemma GoodIsWhole(z: Codec, file: seq<byte>, table: seq<Chunk>, s: Cache)
    requires Good(z, file, table, s)
    ensures Whole(s)
  {
    hide Serves;
  }

  lemma RightJoin(z: Codec, file: seq<byte>, table: seq<Chunk>, off: nat, size: nat, span: nat, part: seq<byte>,
                  rest: Option<seq<byte>>)
    requires 0 < span <= size && |part| == span && Right(z, file, table, off + span, size - span, rest)
    requires forall v :: off <= v < off + span ==> DiskByte(z, file, table, v) == Some(part[v - off])
    ensures Right(z, file, table, off, size, if rest.Some? then Some(part + rest.value) else None)
  {
    hide DiskByte;
  }

  /** Reads with 64-bit offsets. */
  predicate Addressable(history: seq<(nat, nat)>) {
    forall k :: 0 <= k < |history| ==> history[k].0 + history[k].1 < U64
  }

  function Fresh(buffer: seq<byte>): Cache {
    Cache(EMPTY, buffer)
  }

  lemma {:induction false} HistoryGood(z: Codec, file: seq<byte>, table: seq<Chunk>, s: Cache, history: seq<(nat, nat)>)
    requires Sorted(table) && Stageable(table) && CacheSafe(z, file, table) && Good(z, file, table, s) && Whole(s)
    requires Addressable(history)
    ensures Good(z, file, table, After(z, file, table, s, history))
  {
    hide Sorted, Stageable, CacheSafe, Good, ReadFrom;
    if history != [] {
      var init, last := history[..|history| - 1], history[|history| - 1];
      HistoryGood(z, file, table, s, init);
      ReadRight(z, file, table, After(z, file, table, s, init), last.0, last.1);
    }
  }

  /** A wrong answer: a buffer, earlier reads and a read that does not get what is on the disk. */
  ghost predicate Misled(z: Codec, file: seq<byte>, table: seq<Chunk>, buffer: seq<byte>, history: seq<(nat, nat)>,
                         off: nat, size: nat)
    requires Stageable(table)
  {
    && |buffer| == MAX_INFLATED && Addressable(history) && off + size < U64
    && !Right(z, file, table, off, size,
       ReadFrom(z, file, table, After(z, file, table, Fresh(buffer), history), off, size).0)
  }

  /** Where the cache is safe no read is ever misled. */
  lemma SafeReads(z: Codec, file: seq<byte>, table: seq<Chunk>, buffer: seq<byte>, history: seq<(nat, nat)>, off: nat,
                  size: nat)
    requires Sorted(table) && Stageable(table) && CacheSafe(z, file, table)
    ensures !Misled(z, file, table, buffer, history, off, size)
  {
    hide Sorted, Stageable, ReadFrom, DiskByte, Right, Inflated, Seen, After;
    if |buffer| == MAX_INFLATED && Addressable(history) && off + size < U64 {
      HistoryGood(z, file, table, Fresh(buffer), history);
      ReadRight(z, file, table, After(z, file, table, Fresh(buffer), history), off, size);
    }
  }

  /** Reading the byte at k of a chunk. */
  lemma OneByte(z: Codec, file: seq<byte>, table: seq<Chunk>, s: Cache, i: nat, k: nat)
    requires Sorted(table) && Stageable(table) && Whole(s) && i < |table| && Live(table[i]) && k < Seen(table[i])
    ensures var (ok, t) := StageOf(z, file, table[i], s);
            ReadFrom(z, file, table, s, table[i].first * SECTOR + k, 1) ==
              (if ok then Some([t.staging[k]]) else None, t)
    ensures DiskByte(z, file, table, table[i].first * SECTOR + k) ==
            match Inflated(z, file, table[i]) case None => None case Some(out) => Some(out[k])
  {
    hide StageOf, Inflated, ReadFrom, DiskByte, Sorted;
    var c := table[i];
    var off := c.first * SECTOR + k;
    ByteInChunk(c, k);
    DiskByteIs(z, file, table, i, off);
    ReadFromChunk(z, file, table, s, off, 1, i);
    var (part, t) := SpanOf(z, file, c, s, off, 1);
    EndOfRead(z, file, table, t, off + 1);
    if part.Some? {
      assert part.value == [t.staging[k]] && part.value + [] == part.value;
    }
  }

  lemma ByteInChunk(c: Chunk, k: nat)
    requires k < Seen(c)
    ensures Contains(c, (c.first * SECTOR + k) / SECTOR) && c.first * SECTOR + k + 1 < U64
  {
  }

  /** The cache once chunk i was read, if it inflates and was not cached. */
  lemma StagedBy(z: Codec, file: seq<byte>, c: Chunk, s: Cache)
    requires Whole(s) && c.count * SECTOR <= MAX_INFLATED && Inflated(z, file, c).Some? && s.key != CacheKey(c.host)
    ensures var (ok, t) := StageOf(z, file, c, s);
            ok && t == Cache(CacheKey(c.host), Overlay(s.staging, Inflated(z, file, c).value))
  {
  }

  /** A buffer of one value. */
  function Filled(x: byte): (r: seq<byte>)
    ensures |r| == MAX_INFLATED && forall k :: 0 <= k < |r| ==> r[k] == x
  {
    seq(MAX_INFLATED, _ => x)
  }

  /** A key that stands for an empty cache gives out what the buffer happens to hold. */
  lemma EmptyKeyMisleads(z: Codec, file: seq<byte>, table: seq<Chunk>, i: nat)
    requires Sorted(table) && Stageable(table) && |file| < 0x8000_0000_0000_0000
    requires i < |table| && Live(table[i]) && CacheKey(table[i].host) == EMPTY
    ensures Misled(z, file, table, Filled(0), [], table[i].first * SECTOR, 1)
  {
    hide Sorted, ReadFrom, DiskByte;
    OneByte(z, file, table, Fresh(Filled(0)), i, 0);
    ByteInChunk(table[i], 0);
    assert DiskByte(z, file, table, table[i].first * SECTOR).None?;
  }

  /** A chunk that does not serve another one with its key misleads a read of it. */
  lemma StaleCacheMisleads(z: Codec, file: seq<byte>, table: seq<Chunk>, i: nat, j: nat) returns (x: byte, k: nat)
    requires Sorted(table) && Stageable(table) && i < |table| && j < |table| && Live(table[i]) && Live(table[j])
    requires CacheKey(table[i].host) == CacheKey(table[j].host) != EMPTY && Inflated(z, file, table[i]).Some?
    requires !Serves(z, file, Inflated(z, file, table[i]).value, table[j])
    ensures k < Seen(table[j])
    ensures Misled(z, file, table, Filled(x), [(table[i].first * SECTOR, 1)], table[j].first * SECTOR + k, 1)
  {
    hide Sorted, ReadFrom, DiskByte, Inflated, StageOf;
    var a, b := Inflated(z, file, table[i]).value, Inflated(z, file, table[j]);
    InflatedSize(z, file, table[i]);
    InflatedSize(z, file, table[j]);
    if b.None? {
      x, k := 0, 0;
    } else if |a| < Seen(table[j]) {
      k := |a|;
      x := if b.value[k] == 0 then 1 else 0;
    } else {
      x := 0;
      k := Differs(a, b.value, Seen(table[j]));
    }
    ByteInChunk(table[i], 0);
    ByteInChunk(table[j], k);
    var s := Fresh(Filled(x));
    OneByte(z, file, table, s, i, 0);
    StagedBy(z, file, table[i], s);
    var history, off := [(table[i].first * SECTOR, 1)], table[j].first * SECTOR + k;
    var t := Cache(CacheKey(table[i].host), Overlay(Filled(x), a));
    OneRead(z, file, table, s, history[0]);
    OneByte(z, file, table, t, j, k);
    Cached(z, file, table[j], t);
    assert !Right(z, file, table, off, 1, Some([t.staging[k]])) by {
      assert DiskByte(z, file, table, off) != Some(t.staging[k]);
    }
  }

  lemma InflatedSize(z: Codec, file: seq<byte>, c: Chunk)
    ensures Inflated(z, file, c).Some? ==> |Inflated(z, file, c).value| == c.count * SECTOR
  {
  }

  lemma Cached(z: Codec, file: seq<byte>, c: Chunk, s: Cache)
    requires Whole(s) && c.count * SECTOR <= MAX_INFLATED && s.key == CacheKey(c.host)
    ensures StageOf(z, file, c, s) == (true, s)
  {
  }

  lemma OneRead(z: Codec, file: seq<byte>, table: seq<Chunk>, s: Cache, read: (nat, nat))
    requires Stageable(table) && Whole(s)
    ensures After(z, file, table, s, [read]) == ReadFrom(z, file, table, s, read.0, read.1).1
  {
    hide Stageable, ReadFrom;
    assert [read][..0] == [];
  }

  lemma Differs(a: seq<byte>, b: seq<byte>, n: nat) returns (k: nat)
    requires n <= |a| && n <= |b| && a[..n] != b[..n]
    ensures k < n && a[k] != b[k]
  {
    k :| 0 <= k < n && a[..n][k] != b[..n][k];
  }

  /** Reads are right whatever was read before exactly if the cache is safe. */
  lemma ReadsAreRightExactly(z: Codec, file: seq<byte>, table: seq<Chunk>)
    requires Sorted(table) && Stageable(table) && |file| < 0x8000_0000_0000_0000
    ensures CacheSafe(z, file, table) <==>
            forall buffer, history, off, size :: !Misled(z, file, table, buffer, history, off, size)
  {
    hide Sorted, Stageable, Misled, Live, Inflated, Serves, CacheKey;
    if CacheSafe(z, file, table) {
      forall buffer, history, off, size
        ensures !Misled(z, file, table, buffer, history, off, size)
      {
        SafeReads(z, file, table, buffer, history, off, size);
      }
    } else if i: nat :| i < |table| && Live(table[i]) && CacheKey(table[i].host) == EMPTY {
      EmptyKeyMisleads(z, file, table, i);
    } else {
      var i, j :| 0 <= i < |table| && 0 <= j < |table| && Live(table[i]) && Live(table[j])
                  && CacheKey(table[i].host) == CacheKey(table[j].host) && Inflated(z, file, table[i]).Some?
                  && !Serves(z, file, Inflated(z, file, table[i]).value, table[j]);
      var x, k := StaleCacheMisleads(z, file, table, i, j);
    }
  }

  // ----- the same, of a table alone -----

  /** A file of a possible size can hold the chunk's data. */
  predicate Holdable(c: Chunk) {
    c.host + 1 < 0x8000_0000_0000_0000 && c.host + c.length < 0x8000_0000_0000_0000 && c.length <= COMPRESSED_BUF
  }

  /** No key stands for an empty cache, and chunks with the same key are the same piece of the file. */
  predicate KeysTell(table: seq<Chunk>) {
    && (forall i :: 0 <= i < |table| && Live(table[i]) ==> CacheKey(table[i].host) != EMPTY)
    && (forall i, j :: 0 <= i < |table| && 0 <= j < |table| && Live(table[i]) && Live(table[j])
                       && CacheKey(table[i].host) == CacheKey(table[j].host) && Holdable(table[i]) ==>
          table[i].host == table[j].host && table[i].length == table[j].length && table[i].count == table[j].count)
  }

  lemma TellingIsSafe(z: Codec, file: seq<byte>, table: seq<Chunk>)
    requires KeysTell(table) && |file| < 0x8000_0000_0000_0000
    ensures CacheSafe(z, file, table)
  {
    hide CacheKey;
    forall i, j | 0 <= i < |table| && 0 <= j < |table| && Live(table[i]) && Live(table[j])
                  && CacheKey(table[i].host) == CacheKey(table[j].host) && Inflated(z, file, table[i]).Some?
      ensures Serves(z, file, Inflated(z, file, table[i]).value, table[j])
    {
      assert Holdable(table[i]);
    }
  }

  /** A codec and a file in which chunk i inflates and a different chunk with its key does not. */
  lemma NotToldApart(table: seq<Chunk>, i: nat, j: nat) returns (z: Codec, file: seq<byte>)
    requires Stageable(table) && i < |table| && j < |table| && Live(table[i]) && Live(table[j])
    requires CacheKey(table[i].host) == CacheKey(table[j].host) && Holdable(table[i])
    requires !(table[i].host == table[j].host && table[i].length == table[j].length && table[i].count == table[j].count)
    ensures |file| < 0x8000_0000_0000_0000 && !CacheSafe(z, file, table)
  {
    var c, d := table[i], table[j];
    var out := Zeros(c.count * SECTOR);
    z := Codec((x: seq<byte>) => x, (x: seq<byte>) => if |x| == c.length then out else []);
    file := Zeros(if c.length == 0 then c.host + 1 else c.host + c.length);
    assert Inflated(z, file, c) == Some(out);
    assert Inflated(z, file, d).None?;
  }

  /** Every image with this table can be read whatever was read before exactly if the keys tell its chunks apart. */
  lemma TableDecides(table: seq<Chunk>)
    requires Stageable(table)
    ensures KeysTell(table) <==> forall z, file :: |file| < 0x8000_0000_0000_0000 ==> CacheSafe(z, file, table)
  {
    hide Live, CacheKey, Inflated, Serves, Stageable, Holdable;
    if KeysTell(table) {
      forall z, file | |file| < 0x8000_0000_0000_0000
        ensures CacheSafe(z, file, table)
      {
        TellingIsSafe(z, file, table);
      }
    } else if i: nat :| i < |table| && Live(table[i]) && CacheKey(table[i].host) == EMPTY {
      assert !CacheSafe(Codec(x => x, x => x), [], table);
    } else {
      var i, j :| 0 <= i < |table| && 0 <= j < |table| && Live(table[i]) && Live(table[j])
                  && CacheKey(table[i].host) == CacheKey(table[j].host) && Holdable(table[i])
                  && !(table[i].host == table[j].host && table[i].length == table[j].length
                     && table[i].count == table[j].count);
      var z, file := NotToldApart(table, i, j);
    }
  }

  /**
   A table the reader accepts and a read it gets wrong: two chunks at one offset of the file, of one sector and of two.
   On an empty cache the second cannot be read; once the first is cached, its data is given out for the second.
   */
  lemma OneOffsetTwoSizes(z: Codec, file: seq<byte>)
    requires 0 < |file| < 0x8000_0000_0000_0000 && |z.inflate(file[0..1])| == SECTOR
    ensures var table := [Chunk(0, 1, 0, 1, Zlib), Chunk(1, 2, 0, 1, Zlib)];
            && Sorted(table) && Stageable(table) && !KeysTell(table)
            && Misled(z, file, table, Filled(0), [(0, 1)], 512, 1)
            && !Misled(z, file, table, Filled(0), [], 512, 1)
  {
    hide ReadFrom, DiskByte, After;
    var table := [Chunk(0, 1, 0, 1, Zlib), Chunk(1, 2, 0, 1, Zlib)];
    var s := Fresh(Filled(0));
    var t := Cache(CacheKey(0), Overlay(Filled(0), z.inflate(file[0..1])));
    assert Follows(table, 1);
    assert Inflated(z, file, table[0]).Some? && Inflated(z, file, table[1]).None?;
    OneByte(z, file, table, s, 0, 0);
    StagedBy(z, file, table[0], s);
    OneRead(z, file, table, s, (0, 1));
    OneByte(z, file, table, t, 1, 0);
    OneByte(z, file, table, s, 1, 0);
    NoRead(z, file, table, s);
    assert DiskByte(z, file, table, 512).None?;
    assert !KeysTell(table) by {
      assert Live(table[0]) && Live(table[1]);
    }
  }

  lemma NoRead(z: Codec, file: seq<byte>, table: seq<Chunk>, s: Cache)
    requires Stageable(table) && Whole(s)
    ensures After(z, file, table, s, []) == s
  {
  }
}
