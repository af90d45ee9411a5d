/** The DMG builder: data fork, mish blocks, resource fork and koly trailer from a list of chunks. */
module DmgImage {
  import opened Bytes
  import opened Options
  import opened DmgTable

  /** zlib, known only by its inverse law. */
  datatype Codec = Codec(compress: seq<byte> -> seq<byte>, inflate: seq<byte> -> seq<byte>)

  ghost predicate Lawful(z: Codec) {
    forall x :: z.inflate(z.compress(x)) == x && |z.compress(x)| > 0
  }

  /** One chunk to be built; a zero chunk has no payload. */
  datatype Spec = Spec(kind: Kind, sectors: nat, payload: seq<byte>)
  {
    predicate Valid() {
      1 <= sectors <= MAX_STAGED_SECTORS && |payload| == if kind == Zero then 0 else SECTOR * sectors
    }

    /** What the disk holds where this chunk lies. */
    function Content(): seq<byte> {
      if kind == Zero then Zeros(SECTOR * sectors) else payload
    }

    /** What goes into the data fork. */
    function Stored(z: Codec): seq<byte> {
      match kind
      case Zero => []
      case Raw => payload
      case Zlib => z.compress(payload)
    }
  }

  function Zeros(n: nat): (s: seq<byte>)
    ensures |s| == n
  {
    seq(n, _ => 0)
  }

  predicate AllValid(specs: seq<Spec>) {
    forall k :: 0 <= k < |specs| ==> specs[k].Valid()
  }

  function Sectors(specs: seq<Spec>): nat {
    if specs == [] then 0 else Sectors(specs[..|specs| - 1]) + specs[|specs| - 1].sectors
  }

  function ForkOf(z: Codec, specs: seq<Spec>): seq<byte> {
    if specs == [] then [] else ForkOf(z, specs[..|specs| - 1]) + specs[|specs| - 1].Stored(z)
  }

  /** The disk a list of chunks stands for. */
  function Disk(specs: seq<Spec>): seq<byte> {
    if specs == [] then [] else Disk(specs[..|specs| - 1]) + specs[|specs| - 1].Content()
  }

  /** An entry as packed: code, sector within the block, sector count, fork offset, stored length. */
  datatype Entry = Entry(code: nat, sector: nat, count: nat, offset: nat, length: nat)
  {
    predicate Packable() { code < U32 && sector < U64 && count < U64 && offset < U64 && length < U64 }
  }

  function Code(kind: Kind): nat {
    match kind
    case Zero => CHUNK_ZERO
    case Raw => CHUNK_RAW
    case Zlib => CHUNK_ZLIB
  }

  function EntryOf(z: Codec, spec: Spec, sector: nat, pos: nat): Entry {
    Entry(Code(spec.kind), sector, spec.sectors, if spec.kind == Zero then 0 else pos, |spec.Stored(z)|)
  }

  /** Entries of a block whose stored bytes begin at pos in the data fork. */
  function EntriesOf(z: Codec, specs: seq<Spec>, pos: nat): (es: seq<Entry>)
    ensures |es| == |specs|
  {
    if specs == [] then [] else
    var init := specs[..|specs| - 1];
    EntriesOf(z, init, pos) + [EntryOf(z, specs[|specs| - 1], Sectors(init), pos + |ForkOf(z, init)|)]
  }

  function BlockEntries(z: Codec, specs: seq<Spec>, pos: nat): seq<Entry> {
    EntriesOf(z, specs, pos) + [Entry(CHUNK_TERMINATOR, Sectors(specs), 0, pos + |ForkOf(z, specs)|, 0)]
  }

  function EntryBytes(e: Entry): (s: seq<byte>)
    ensures |s| == MISH_ENTRY
  {
    BE(4, e.code) + BE(4, 0) + BE(8, e.sector) + BE(8, e.count) + BE(8, e.offset) + BE(8, e.length)
  }

  predicate IsMish(s: seq<byte>, first: nat, total: nat, entries: seq<Entry>) {
    && |s| == MISH_HEADER + MISH_ENTRY * |entries|
    && MishFields(s, first, total, |entries|)
    && forall k :: 0 <= k < |entries| ==> EntryHeld(s, k, entries[k])
  }

  predicate EntryHeld(s: seq<byte>, k: nat, e: Entry) {
    var off := MISH_HEADER + MISH_ENTRY * k;
    off + MISH_ENTRY <= |s| && s[off..off + MISH_ENTRY] == EntryBytes(e)
  }

  method PackPlace(header: array<byte>, first: nat, total: nat)
    requires header.Length == MISH_HEADER
    modifies header
    ensures Holds(header[..], 0, 4, MISH_MAGIC) && Holds(header[..], 4, 4, 1)
    ensures Holds(header[..], 8, 8, first) && Holds(header[..], 16, 8, total)
  {
    hide BE;
    PackBE(header, 0, 4, MISH_MAGIC);
    PackBE(header, 4, 4, 1);
    PackBE(header, 8, 8, first);
    PackBE(header, 16, 8, total);
  }

  method PackCounts(header: array<byte>, n: nat)
    requires header.Length == MISH_HEADER
    modifies header
    ensures Holds(header[..], 24, 8, 0) && Holds(header[..], 32, 4, 1) && Holds(header[..], 36, 4, n)
    ensures Holds(header[..], 200, 4, n)
    ensures forall p :: 0 <= p < 24 ==> header[p] == old(header[p])
  {
    hide BE;
    PackBE(header, 24, 8, 0);
    PackBE(header, 32, 4, 1);
    PackBE(header, 36, 4, n);
    PackBE(header, 200, 4, n);
  }

  predicate MishFields(s: seq<byte>, first: nat, total: nat, n: nat) {
    && Holds(s, 0, 4, MISH_MAGIC) && Holds(s, 4, 4, 1) && Holds(s, 8, 8, first) && Holds(s, 16, 8, total)
    && Holds(s, 24, 8, 0) && Holds(s, 32, 4, 1) && Holds(s, 36, 4, n) && Holds(s, 200, 4, n)
  }

  lemma FieldsKept(a: seq<byte>, b: seq<byte>, first: nat, total: nat, n: nat)
    requires MishFields(a, first, total, n) && |b| >= MISH_HEADER && forall p :: 0 <= p < MISH_HEADER ==> b[p] == a[p]
    ensures MishFields(b, first, total, n)
  {
    hide BE, Holds;
    HoldsInside(a, 200, 4, n);
    HoldsStill(a, b, 0, 4, MISH_MAGIC);
    HoldsStill(a, b, 4, 4, 1);
    HoldsStill(a, b, 8, 8, first);
    HoldsStill(a, b, 16, 8, total);
    HoldsStill(a, b, 24, 8, 0);
    HoldsStill(a, b, 32, 4, 1);
    HoldsStill(a, b, 36, 4, n);
    HoldsStill(a, b, 200, 4, n);
  }

  lemma HoldsInside(s: seq<byte>, off: nat, n: nat, v: nat)
    requires Holds(s, off, n, v)
    ensures off + n <= |s|
  {
    hide BE;
  }

  lemma EntriesKept(s: seq<byte>, t: seq<byte>, entries: seq<Entry>, k: nat)
    requires k <= |entries| && |s| == MISH_HEADER + MISH_ENTRY * k && forall i :: 0 <= i < k ==>
              EntryHeld(s, i, entries[i])
    ensures forall i :: 0 <= i < k ==> EntryHeld(s + t, i, entries[i])
  {
    hide EntryBytes;
    forall i | 0 <= i < k
      ensures EntryHeld(s + t, i, entries[i])
    {
      var off := MISH_HEADER + MISH_ENTRY * i;
      assert EntryHeld(s, i, entries[i]);
      assert (s + t)[off..off + MISH_ENTRY] == s[off..off + MISH_ENTRY];
    }
  }

  method BuildMish(first: nat, total: nat, entries: seq<Entry>) returns (r: seq<byte>)
    ensures IsMish(r, first, total, entries)
  {
    hide BE, EntryBytes, Holds, EntryHeld;
    var header := new byte[MISH_HEADER](_ => 0);
    PackPlace(header, first, total);
    ghost var placed := header[..];
    PackCounts(header, |entries|);
    HoldsStill(placed, header[..], 0, 4, MISH_MAGIC);
    HoldsStill(placed, header[..], 4, 4, 1);
    HoldsStill(placed, header[..], 8, 8, first);
    HoldsStill(placed, header[..], 16, 8, total);
    r := header[..];
    ghost var start := r;
    for k := 0 to |entries|
      invariant |r| == MISH_HEADER + MISH_ENTRY * k
      invariant forall p :: 0 <= p < MISH_HEADER ==> r[p] == start[p]
      invariant forall i :: 0 <= i < k ==> EntryHeld(r, i, entries[i])
    {
      EntriesKept(r, EntryBytes(entries[k]), entries, k);
      LastEntry(r, k, entries[k]);
      r := r + EntryBytes(entries[k]);
    }
    FieldsKept(start, r, first, total, |entries|);
  }

  lemma LastEntry(s: seq<byte>, k: nat, e: Entry)
    requires |s| == MISH_HEADER + MISH_ENTRY * k
    ensures EntryHeld(s + EntryBytes(e), k, e)
  {
    hide EntryBytes;
  }
}
