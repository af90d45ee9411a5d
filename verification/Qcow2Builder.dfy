/** A minimal qcow2 image built around given content, and a reader that follows its tables. */
module Qcow2Builder {
  import opened Bytes
  import opened Options
  import FreeClusters

  const CLUSTER: nat := 65536
  const L2_ENTRIES: nat := 8192
  const REFBLOCK_ENTRIES: nat := 32768
  const REFTABLE_OFFSET: nat := 72  // right behind the header, not on a cluster boundary
  const MAGIC: nat := 0x514649FB

  /** Where everything goes, for a given virtual size. */
  datatype Geometry = Geometry(virtualSize: nat)
  {
    function L2Tables(): nat { (virtualSize + L2_ENTRIES * CLUSTER - 1) / (L2_ENTRIES * CLUSTER) }

    function DataClusters(): nat { (virtualSize + CLUSTER - 1) / CLUSTER }

    function Refblock(): nat { 2 + L2Tables() }

    function DataStart(): nat { Refblock() + 1 }

    function Total(): nat { DataStart() + DataClusters() }

    /** Every field fits where it is packed. */
    predicate Packable() { Total() * CLUSTER < U64 && L2Tables() < U32 }
  }

  function HeaderBytes(g: Geometry): seq<byte> {
    BE(4, MAGIC) + BE(4, 2) + BE(8, 0) + BE(4, 0) + BE(4, 16) + BE(8, g.virtualSize) + BE(4, 0) + BE(4, g.L2Tables())
    + BE(8, CLUSTER) + BE(8, REFTABLE_OFFSET) + BE(4, 1) + BE(4, 0) + BE(8, 0)
  }

  /** Packs the field that follows what has been packed so far. */
  method PackNext(image: array<byte>, pos: nat, n: nat, v: nat, ghost done: seq<byte>) returns (ghost more: seq<byte>)
    requires pos + n <= image.Length && image[..pos] == done
    modifies image
    ensures more == done + BE(n, v) && image[..pos + n] == more
    ensures forall p :: pos + n <= p < image.Length ==> image[p] == old(image[p])
  {
    PackBE(image, pos, n, v);
    more := done + BE(n, v);
    assert image[..pos] == done;
    assert image[..pos + n] == image[..pos] + image[pos..pos + n];
  }

  method WriteHeader(image: array<byte>, g: Geometry)
    requires image.Length >= CLUSTER
    modifies image
    ensures image[..72] == HeaderBytes(g)
    ensures forall p :: 72 <= p < image.Length ==> image[p] == old(image[p])
  {
    hide BE, Geometry.L2Tables;
    PackBE(image, 0, 4, MAGIC);
    ghost var h := BE(4, MAGIC);
    h := PackNext(image, 4, 4, 2, h);
    h := PackNext(image, 8, 8, 0, h);
    h := PackNext(image, 16, 4, 0, h);
    h := PackNext(image, 20, 4, 16, h);
    h := PackNext(image, 24, 8, g.virtualSize, h);
    h := PackNext(image, 32, 4, 0, h);
    h := PackNext(image, 36, 4, g.L2Tables(), h);
    h := PackNext(image, 40, 8, CLUSTER, h);
    h := PackNext(image, 48, 8, REFTABLE_OFFSET, h);
    h := PackNext(image, 56, 4, 1, h);
    h := PackNext(image, 60, 4, 0, h);
    h := PackNext(image, 64, 8, 0, h);
  }

  lemma TablesCoverData(g: Geometry)
    ensures g.DataClusters() <= L2_ENTRIES * g.L2Tables()
    ensures g.L2Tables() > 0 ==> L2_ENTRIES * (g.L2Tables() - 1) < g.DataClusters()
    ensures g.virtualSize <= g.DataClusters() * CLUSTER
  {
  }

  /** A big-endian table entry, 8 bytes each. */
  predicate Words(image: seq<byte>, base: nat, n: nat, first: nat) {
    base + 8 * n <= |image| && forall k :: 0 <= k < n ==>
      image[base + 8 * k..base + 8 * k + 8] == BE(8, (first + k) * CLUSTER)
  }

  lemma WordsKept(a: seq<byte>, b: seq<byte>, base: nat, n: nat, first: nat)
    requires Words(a, base, n, first) && |a| == |b|
    requires forall p :: base <= p < base + 8 * n ==> b[p] == a[p]
    ensures Words(b, base, n, first)
  {
    forall k | 0 <= k < n
      ensures b[base + 8 * k..base + 8 * k + 8] == BE(8, (first + k) * CLUSTER)
    {
      assert b[base + 8 * k..base + 8 * k + 8] == a[base + 8 * k..base + 8 * k + 8];
    }
  }

  /** Adds entry n to a table of n entries. */
  method PackWord(image: array<byte>, base: nat, n: nat, first: nat)
    requires Words(image[..], base, n, first) && base + 8 * n + 8 <= image.Length
    modifies image
    ensures Words(image[..], base, n + 1, first)
    ensures forall p :: 0 <= p < base + 8 * n || base + 8 * n + 8 <= p < image.Length ==> image[p] == old(image[p])
  {
    hide BE;
    ghost var before := image[..];
    PackBE(image, base + 8 * n, 8, (first + n) * CLUSTER);
    WordsKept(before, image[..], base, n, first);
  }

  method WriteL1(image: array<byte>, g: Geometry)
    requires image.Length == g.Total() * CLUSTER
    modifies image
    ensures Words(image[..], CLUSTER, g.L2Tables(), 2)
    ensures forall p :: 0 <= p < CLUSTER || CLUSTER + 8 * g.L2Tables() <= p < image.Length ==> image[p] == old(image[p])
  {
    hide BE, Geometry.L2Tables, Geometry.DataClusters;
    for i := 0 to g.L2Tables()
      invariant Words(image[..], CLUSTER, i, 2)
      invariant forall p :: 0 <= p < CLUSTER || CLUSTER + 8 * i <= p < image.Length ==> image[p] == old(image[p])
    {
      PackWord(image, CLUSTER, i, 2);
    }
  }

  /** The L2 tables lie one behind the other, so entry j of table i is word i * 8192 + j. */
  method WriteL2(image: array<byte>, g: Geometry)
    requires image.Length == g.Total() * CLUSTER
    modifies image
    ensures Words(image[..], 2 * CLUSTER, g.DataClusters(), g.DataStart())
    ensures forall p :: 0 <= p < 2 * CLUSTER || 2 * CLUSTER + 8 * g.DataClusters() <= p < image.Length ==>
              image[p] == old(image[p])
  {
    hide BE, Words, Geometry.L2Tables, Geometry.DataClusters;
    TablesCoverData(g);
    ghost var n := 0;
    assert Words(image[..], 2 * CLUSTER, 0, g.DataStart()) by { NoWords(image[..], 2 * CLUSTER, g.DataStart()); }
    for i := 0 to g.L2Tables()
      invariant n == if i * L2_ENTRIES <= g.DataClusters() then i * L2_ENTRIES else g.DataClusters()
      invariant Words(image[..], 2 * CLUSTER, n, g.DataStart())
      invariant forall p :: 0 <= p < 2 * CLUSTER || 2 * CLUSTER + 8 * n <= p < image.Length ==>
                image[p] == old(image[p])
    {
      for j := 0 to L2_ENTRIES
        invariant n == if i * L2_ENTRIES + j <= g.DataClusters() then i * L2_ENTRIES + j else g.DataClusters()
        invariant Words(image[..], 2 * CLUSTER, n, g.DataStart())
        invariant forall p :: 0 <= p < 2 * CLUSTER || 2 * CLUSTER + 8 * n <= p < image.Length ==>
                  image[p] == old(image[p])
      {
        var dataIdx := i * L2_ENTRIES + j;
        if dataIdx >= g.DataClusters() {
          break;
        }
        PackWord(image, (2 + i) * CLUSTER + 8 * j - 8 * dataIdx, dataIdx, g.DataStart());
        n := n + 1;
      }
    }
  }

  lemma NoWords(image: seq<byte>, base: nat, first: nat)
    requires base <= |image|
    ensures Words(image, base, 0, first)
  {
  }

  /** Every covered cluster gets the 16-bit refcount 1. */
  method WriteRefblock(image: array<byte>, g: Geometry)
    requires image.Length == g.Total() * CLUSTER
    modifies image
    ensures forall c :: 0 <= c < g.Total() && c < REFBLOCK_ENTRIES ==>
              image[g.Refblock() * CLUSTER + 2 * c] == 0 && image[g.Refblock() * CLUSTER + 2 * c + 1] == 1
    ensures forall p :: 0 <= p < g.Refblock() * CLUSTER || g.DataStart() * CLUSTER <= p < image.Length ==>
              image[p] == old(image[p])
  {
    hide Geometry.L2Tables, Geometry.DataClusters;
    var base := g.Refblock() * CLUSTER;
    var covered := if g.Total() < REFBLOCK_ENTRIES then g.Total() else REFBLOCK_ENTRIES;
    assert BE(2, 1) == [0, 1] by { assert BE(1, 0) == [0]; }
    for c := 0 to covered
      invariant forall k :: 0 <= k < c ==> image[base + 2 * k] == 0 && image[base + 2 * k + 1] == 1
      invariant forall p :: 0 <= p < base || base + 2 * c <= p < image.Length ==> image[p] == old(image[p])
    {
      PackBE(image, base + 2 * c, 2, 1);
      assert image[base + 2 * c..base + 2 * c + 2][0] == 0 && image[base + 2 * c..base + 2 * c + 2][1] == 1;
    }
  }

  /** Copies the content, cluster by cluster; what lies past its end stays zero. */
  method WriteData(image: array<byte>, g: Geometry, content: seq<byte>)
    requires image.Length == g.Total() * CLUSTER
    requires forall p :: g.DataStart() * CLUSTER <= p < image.Length ==> image[p] == 0
    modifies image
    ensures forall p :: g.DataStart() * CLUSTER <= p < image.Length ==>
              image[p] == if p - g.DataStart() * CLUSTER < |content| then content[p - g.DataStart() * CLUSTER] else 0
    ensures forall p :: 0 <= p < g.DataStart() * CLUSTER ==> image[p] == old(image[p])
  {
    hide Geometry.L2Tables, Geometry.DataClusters;
    var base := g.DataStart() * CLUSTER;
    for i := 0 to g.DataClusters()
      invariant forall p :: base <= p < image.Length ==>
                  image[p] == if p < base + i * CLUSTER && p - base < |content| then content[p - base] else 0
      invariant forall p :: 0 <= p < base ==> image[p] == old(image[p])
    {
      var src := i * CLUSTER;
      var remaining := if |content| - src < CLUSTER then |content| - src else CLUSTER;
      if remaining > 0 {
        ghost var before := image[..];
        for k := 0 to remaining
          invariant forall p :: 0 <= p < image.Length ==>
                    image[p] == if base + src <= p < base + src + k then content[p - base] else before[p]
        {
          image[base + src + k] := content[src + k];
        }
      }
    }
  }

  /** Everything about the finished image, region by region. */
  ghost predicate Built(image: seq<byte>, g: Geometry, content: seq<byte>) {
    && |image| == g.Total() * CLUSTER
    && image[..72] == HeaderBytes(g)
    && image[72..80] == BE(8, g.Refblock() * CLUSTER)
    && (forall p :: 80 <= p < CLUSTER ==> image[p] == 0)
    && (g.L2Tables() <= L2_ENTRIES ==> Words(image, CLUSTER, g.L2Tables(), 2))
    && Words(image, 2 * CLUSTER, g.DataClusters(), g.DataStart())
    && (forall c :: 0 <= c < g.Total() && c < REFBLOCK_ENTRIES ==>
          image[g.Refblock() * CLUSTER + 2 * c] == 0 && image[g.Refblock() * CLUSTER + 2 * c + 1] == 1)
    && (forall p :: g.DataStart() * CLUSTER <= p < |image| ==>
          image[p] == if p - g.DataStart() * CLUSTER < |content| then content[p - g.DataStart() * CLUSTER] else 0)
  }

  /** Header, refcount table and refcount block. */
  method WriteRefcounts(image: array<byte>, g: Geometry)
    requires image.Length == g.Total() * CLUSTER
    modifies image
    ensures image[..72] == HeaderBytes(g) && image[72..80] == BE(8, g.Refblock() * CLUSTER)
    ensures forall c :: 0 <= c < g.Total() && c < REFBLOCK_ENTRIES ==>
              image[g.Refblock() * CLUSTER + 2 * c] == 0 && image[g.Refblock() * CLUSTER + 2 * c + 1] == 1
    ensures forall p :: 80 <= p < g.Refblock() * CLUSTER || g.DataStart() * CLUSTER <= p < image.Length ==>
              image[p] == old(image[p])
  {
    hide BE, HeaderBytes, Geometry.L2Tables, Geometry.DataClusters;
    WriteHeader(image, g);
    PackBE(image, REFTABLE_OFFSET, 8, g.Refblock() * CLUSTER);
    ghost var before := image[..];
    WriteRefblock(image, g);
    assert image[..72] == before[..72] && image[72..80] == before[72..80];
  }

  /** The L1 table, then the L2 tables; an L1 table of more than one cluster is overrun by the first L2 table. */
  method WriteTables(image: array<byte>, g: Geometry)
    requires image.Length == g.Total() * CLUSTER
    modifies image
    ensures g.L2Tables() <= L2_ENTRIES ==> Words(image[..], CLUSTER, g.L2Tables(), 2)
    ensures Words(image[..], 2 * CLUSTER, g.DataClusters(), g.DataStart())
    ensures forall p :: 0 <= p < CLUSTER || g.Refblock() * CLUSTER <= p < image.Length ==> image[p] == old(image[p])
  {
    hide BE, Words, Geometry.L2Tables, Geometry.DataClusters;
    TablesCoverData(g);
    WriteL1(image, g);
    ghost var withL1 := image[..];
    WriteL2(image, g);
    if g.L2Tables() <= L2_ENTRIES {
      WordsKept(withL1, image[..], CLUSTER, g.L2Tables(), 2);
    }
  }

  method BuildImage(virtualSize: nat, content: seq<byte>) returns (image: array<byte>)
    ensures fresh(image) && Built(image[..], Geometry(virtualSize), content)
  {
    hide BE, HeaderBytes, Words, Geometry.L2Tables, Geometry.DataClusters;
    var g := Geometry(virtualSize);
    TablesCoverData(g);
    image := new byte[g.Total() * CLUSTER](_ => 0);
    WriteRefcounts(image, g);
    ghost var refcounts := image[..];
    WriteTables(image, g);
    ghost var tables := image[..];
    WriteData(image, g, content);
    assert image[..72] == refcounts[..72] && image[72..80] == refcounts[72..80];
    if g.L2Tables() <= L2_ENTRIES {
      WordsKept(tables, image[..], CLUSTER, g.L2Tables(), 2);
    }
    WordsKept(tables, image[..], 2 * CLUSTER, g.DataClusters(), g.DataStart());
  }

  // ----- the reader -----

  function L1Size(image: seq<byte>): nat
    requires |image| >= 72
  {
    GetBE(image, 36, 4)
  }

  /** L1 entry i, found through the header. */
  function L1Entry(image: seq<byte>, i: nat): nat
    requires |image| >= 72 && GetBE(image, 40, 8) + 8 * i + 8 <= |image|
  {
    GetBE(image, GetBE(image, 40, 8) + 8 * i, 8)
  }

  function WordAt(image: seq<byte>, off: nat): nat
    requires off + 8 <= |image|
  {
    GetBE(image, off, 8)
  }

  lemma HeaderFields(image: seq<byte>, g: Geometry, content: seq<byte>)
    requires Built(image, g, content) && g.Packable()
    ensures GetBE(image, 24, 8) == g.virtualSize && L1Size(image) == g.L2Tables()
    ensures GetBE(image, 40, 8) == CLUSTER && GetBE(image, 48, 8) == REFTABLE_OFFSET
    ensures GetBE(image, 4, 4) == 2 && GetBE(image, 20, 4) == 16 && GetBE(image, 56, 4) == 1
    ensures WordAt(image, REFTABLE_OFFSET) == g.Refblock() * CLUSTER
  {
    hide BE, Words, Geometry.L2Tables, Geometry.DataClusters;
    TablesCoverData(g);
    var h := HeaderBytes(g);
    assert h[24..32] == BE(8, g.virtualSize) && h[36..40] == BE(4, g.L2Tables()) && h[40..48] == BE(8, CLUSTER)
      && h[48..56] == BE(8, REFTABLE_OFFSET);
    assert image[24..32] == image[..72][24..32] && image[36..40] == image[..72][36..40];
    assert image[40..48] == image[..72][40..48] && image[48..56] == image[..72][48..56];
    assert h[4..8] == BE(4, 2) && h[20..24] == BE(4, 16) && h[56..60] == BE(4, 1);
    assert image[4..8] == image[..72][4..8] && image[20..24] == image[..72][20..24];
    assert image[56..60] == image[..72][56..60];
    WidthLimits();
    BERoundTrip(4, 2);
    BERoundTrip(4, 16);
    BERoundTrip(4, 1);
    BERoundTrip(8, g.virtualSize);
    BERoundTrip(4, g.L2Tables());
    BERoundTrip(8, CLUSTER);
    BERoundTrip(8, REFTABLE_OFFSET);
    BERoundTrip(8, g.Refblock() * CLUSTER);
  }

  lemma WordsRead(image: seq<byte>, base: nat, n: nat, first: nat, k: nat)
    requires Words(image, base, n, first) && k < n && (first + n) * CLUSTER < U64
    ensures WordAt(image, base + 8 * k) == (first + k) * CLUSTER
  {
    WidthLimits();
    BERoundTrip(8, (first + k) * CLUSTER);
  }

  /** The magic is the four bytes that every reader looks for. */
  lemma MagicBytes(image: seq<byte>, g: Geometry, content: seq<byte>)
    requires Built(image, g, content)
    ensures image[..4] == FreeClusters.MAGIC
  {
    hide BE, HeaderBytes, Words, Geometry.L2Tables, Geometry.DataClusters;
    MagicSpelled();
    MagicFirst(image, g);
  }

  lemma MagicSpelled()
    ensures BE(4, MAGIC) == [0x51, 0x46, 0x49, 0xFB]
  {
    assert BE(1, 0x51) == [0x51];
    assert BE(2, 0x5146) == BE(1, 0x51) + [0x46];
    assert BE(3, 0x514649) == BE(2, 0x5146) + [0x49];
    assert BE(4, MAGIC) == BE(3, 0x514649) + [0xFB];
  }

  lemma MagicFirst(image: seq<byte>, g: Geometry)
    requires |image| >= 72 && image[..72] == HeaderBytes(g)
    ensures image[..4] == BE(4, MAGIC)
  {
    hide BE, Geometry.L2Tables;
    assert HeaderBytes(g)[..4] == BE(4, MAGIC);
    assert image[..4] == image[..72][..4];
  }

  /**
   The byte that a reader who knows the format sees at virtual offset v. Magic and version are checked, and the cluster
   size is the header's; a table entry that is zero maps nothing.
   */
  function GuestByte(image: seq<byte>, v: nat): Option<byte> {
    if |image| < 72 || image[..4] != FreeClusters.MAGIC || !(2 <= GetBE(image, 4, 4) <= 3) then None else
    var bits := GetBE(image, 20, 4);
    if !(9 <= bits <= 21) || v >= GetBE(image, 24, 8) then None else
    var cs := FreeClusters.Pow2(bits);
    ReadThrough(image, cs, cs / 8, v)
  }

  /** L1, then L2, then the data cluster, for a given cluster size and number of entries per table. */
  function ReadThrough(image: seq<byte>, cs: nat, entries: nat, v: nat): Option<byte>
    requires |image| >= 72
  {
    if cs == 0 || entries == 0 then None else
    var i, j := v / cs / entries, v / cs % entries;
    if i >= L1Size(image) || GetBE(image, 40, 8) + 8 * i + 8 > |image| then None else
    var table := L1Entry(image, i);
    if table == 0 then Some(0) else
    if table + 8 * j + 8 > |image| then None else
    var data := WordAt(image, table + 8 * j);
    if data == 0 then Some(0) else
    if data + v % cs >= |image| then None else Some(image[data + v % cs])
  }

  lemma ClusterIs16Bits()
    ensures FreeClusters.Pow2(16) == CLUSTER
  {
    assert FreeClusters.Pow2(4) == 16 && FreeClusters.Pow2(8) == 256 && FreeClusters.Pow2(12) == 4096;
  }

  /** A reader gets the content, zero past its end, and nothing past the virtual size. */
  lemma GuestSeesContent(image: seq<byte>, g: Geometry, content: seq<byte>, v: nat)
    requires Built(image, g, content) && g.Packable() && g.L2Tables() <= L2_ENTRIES
    ensures GuestByte(image, v) ==
            if v >= g.virtualSize then None else Some(if v < |content| then content[v] else 0)
  {
    hide BE, FromBE, HeaderBytes, Words, Geometry.L2Tables, Geometry.DataClusters, FreeClusters.Pow2, ReadThrough,
      GetBE;
    HeaderFields(image, g, content);
    MagicBytes(image, g, content);
    ClusterIs16Bits();
    TablesCoverData(g);
    if v < g.virtualSize {
      ReadsContent(image, g, content, v);
    }
  }

  lemma ReadsContent(image: seq<byte>, g: Geometry, content: seq<byte>, v: nat)
    requires Built(image, g, content) && g.Packable() && g.L2Tables() <= L2_ENTRIES && v < g.virtualSize
    ensures ReadThrough(image, CLUSTER, L2_ENTRIES, v) == Some(if v < |content| then content[v] else 0)
  {
    hide BE, FromBE, HeaderBytes, Words, Geometry.L2Tables, Geometry.DataClusters;
    HeaderFields(image, g, content);
    TablesCoverData(g);
    var k := v / CLUSTER;
    var i, j := k / L2_ENTRIES, k % L2_ENTRIES;
    assert k == i * L2_ENTRIES + j && k < g.DataClusters() && i < g.L2Tables();
    WordsRead(image, CLUSTER, g.L2Tables(), 2, i);
    WordsRead(image, 2 * CLUSTER, g.DataClusters(), g.DataStart(), k);
  }

  /** The L1 table is right exactly while it fits its one cluster: entry 8192 has already been overwritten. */
  lemma L1TableIntact(image: seq<byte>, g: Geometry, content: seq<byte>)
    requires Built(image, g, content) && g.Packable()
    ensures (forall i :: 0 <= i < g.L2Tables() ==> WordAt(image, CLUSTER + 8 * i) == (2 + i) * CLUSTER) <==>
              g.L2Tables() <= L2_ENTRIES
  {
    hide BE, FromBE, HeaderBytes, Words, Geometry.L2Tables, Geometry.DataClusters;
    TablesCoverData(g);
    if g.L2Tables() <= L2_ENTRIES {
      forall i | 0 <= i < g.L2Tables()
        ensures WordAt(image, CLUSTER + 8 * i) == (2 + i) * CLUSTER
      {
        WordsRead(image, CLUSTER, g.L2Tables(), 2, i);
      }
    } else {
      WordsRead(image, 2 * CLUSTER, g.DataClusters(), g.DataStart(), 0);
      assert WordAt(image, CLUSTER + 8 * L2_ENTRIES) != (2 + L2_ENTRIES) * CLUSTER;
    }
  }

  // ----- refcounts -----

  /** The refcount recorded for a cluster: table, then block; an absent block counts as zero. */
  function RecordedRefcount(image: seq<byte>, c: nat): Option<nat> {
    if |image| < 72 then None else
    var slot := GetBE(image, 48, 8) + 8 * (c / REFBLOCK_ENTRIES);
    if slot + 8 > |image| then None else
    var block := WordAt(image, slot);
    var at := block + 2 * (c % REFBLOCK_ENTRIES);
    if block == 0 then Some(0) else if at + 2 > |image| then None else Some(GetBE(image, at, 2))
  }

  lemma ZeroWord(s: seq<byte>)
    requires forall k :: 0 <= k < |s| ==> s[k] == 0
    ensures FromBE(s) == 0
  {
  }

  lemma RefcountOf(image: seq<byte>, g: Geometry, content: seq<byte>, c: nat)
    requires Built(image, g, content) && g.Packable() && g.L2Tables() <= L2_ENTRIES && c < g.Total()
    ensures RecordedRefcount(image, c) == Some(if c < REFBLOCK_ENTRIES then 1 else 0)
  {
    hide BE, FromBE, HeaderBytes, Words, Geometry.L2Tables, Geometry.DataClusters;
    HeaderFields(image, g, content);
    TablesCoverData(g);
    if c < REFBLOCK_ENTRIES {
      var at := g.Refblock() * CLUSTER + 2 * c;
      assert image[at..at + 2] == [0, 1];
      assert FromBE([0, 1]) == 1 by { OneInTwoBytes(); }
    } else {
      ZeroWord(image[REFTABLE_OFFSET + 8 * (c / REFBLOCK_ENTRIES)..REFTABLE_OFFSET + 8 * (c / REFBLOCK_ENTRIES) + 8]);
    }
  }

  lemma OneInTwoBytes()
    ensures FromBE([0, 1]) == 1
  {
    var s: seq<byte> := [0, 1];
    assert s[..1] == [0];
    assert FromBE(s[..1]) == 0;
  }

  /** All clusters the metadata points at: header, L1 table, L2 tables, refcount block, data, in table order. */
  function References(image: seq<byte>, tables: nat, clusters: nat): (r: seq<nat>)
    requires |image| >= 72 && GetBE(image, 40, 8) + 8 * tables <= |image| && GetBE(image, 48, 8) + 8 <= |image|
    requires 2 * CLUSTER + 8 * clusters <= |image|
  {
    [0, GetBE(image, 40, 8) / CLUSTER]
    + seq(tables, i requires 0 <= i < tables => L1Entry(image, i) / CLUSTER)
    + [WordAt(image, GetBE(image, 48, 8)) / CLUSTER]
    + seq(clusters, k requires 0 <= k < clusters => WordAt(image, 2 * CLUSTER + 8 * k) / CLUSTER)
  }

  /**
   Every cluster of the file is referenced exactly once, in order, so the recorded counts are right while one block
   covers them.
   */
  lemma EveryClusterReferencedOnce(image: seq<byte>, g: Geometry, content: seq<byte>)
    requires Built(image, g, content) && g.Packable() && g.L2Tables() <= L2_ENTRIES
    ensures |image| >= 72 && GetBE(image, 40, 8) + 8 * g.L2Tables() <= |image| && GetBE(image, 48, 8) + 8 <= |image|
    ensures References(image, g.L2Tables(), g.DataClusters()) == seq(g.Total(), c => c)
    ensures (forall c :: 0 <= c < g.Total() ==> RecordedRefcount(image, c) == Some(1)) <==>
              g.Total() <= REFBLOCK_ENTRIES
  {
    hide BE, FromBE, HeaderBytes, Words, RecordedRefcount, Geometry.L2Tables, Geometry.DataClusters;
    HeaderFields(image, g, content);
    TablesCoverData(g);
    forall i | 0 <= i < g.L2Tables()
      ensures L1Entry(image, i) / CLUSTER == 2 + i
    {
      WordsRead(image, CLUSTER, g.L2Tables(), 2, i);
    }
    forall k | 0 <= k < g.DataClusters()
      ensures WordAt(image, 2 * CLUSTER + 8 * k) / CLUSTER == g.DataStart() + k
    {
      WordsRead(image, 2 * CLUSTER, g.DataClusters(), g.DataStart(), k);
    }
    forall c | 0 <= c < g.Total()
      ensures RecordedRefcount(image, c) == Some(if c < REFBLOCK_ENTRIES then 1 else 0)
    {
      RefcountOf(image, g, content, c);
    }
    if g.Total() > REFBLOCK_ENTRIES {
      assert RecordedRefcount(image, REFBLOCK_ENTRIES) != Some(1);
    }
  }

  // ----- the built image under the free-cluster walk -----

  lemma BuiltHeader(image: seq<byte>, g: Geometry, content: seq<byte>)
    requires Built(image, g, content) && g.Packable()
    ensures FreeClusters.ParseHeader(image) == Some(FreeClusters.Geometry(16, REFTABLE_OFFSET, 1))
  {
    hide BE, FromBE, HeaderBytes, Words, Geometry.L2Tables, Geometry.DataClusters, FreeClusters.Pow2;
    HeaderFields(image, g, content);
    MagicBytes(image, g, content);
    ClusterIs16Bits();
    var header := image[..104];
    assert header[..4] == image[..4] && header[4..8] == image[4..8] && header[20..24] == image[20..24];
    assert header[48..56] == image[48..56] && header[56..60] == image[56..60];
  }

  /** Rows of the refcount table: the one block, then nothing as far as the file needs rows. */
  lemma BlockRows(image: seq<byte>, g: Geometry, content: seq<byte>, slot: nat)
    requires Built(image, g, content) && g.Packable() && g.L2Tables() <= L2_ENTRIES
    requires slot * REFBLOCK_ENTRIES < g.Total()
    ensures slot < 8183 && WordAt(image, REFTABLE_OFFSET + 8 * slot) == if slot == 0 then g.Refblock() * CLUSTER else 0
  {
    hide BE, FromBE, HeaderBytes, Words, Geometry.L2Tables, Geometry.DataClusters;
    HeaderFields(image, g, content);
    TablesCoverData(g);
    if slot > 0 {
      ZeroWord(image[REFTABLE_OFFSET + 8 * slot..REFTABLE_OFFSET + 8 * slot + 8]);
    }
  }

  lemma MaskKeeps(n: nat)
    requires n * CLUSTER < 0x100_0000_0000_0000
    ensures FreeClusters.MaskOffset(n * CLUSTER) == n * CLUSTER && FreeClusters.MaskOffset(0) == 0
  {
    FreeClusters.MaskOfParts(0, n * 128, 0);
    FreeClusters.MaskOfParts(0, 0, 0);
  }

  /** Its free clusters are those that the one refcount block does not reach. */
  lemma BuiltFree(image: seq<byte>, g: Geometry, content: seq<byte>)
    requires Built(image, g, content) && g.Packable() && g.L2Tables() <= L2_ENTRIES
    ensures FreeClusters.FreeOf(image).Some? && FreeClusters.FreeOf(image).value.0 == CLUSTER
    ensures forall c: nat :: c in FreeClusters.FreeOf(image).value.1 <==> REFBLOCK_ENTRIES <= c < g.Total()
    ensures FreeClusters.FreeOf(image).value.1 == {} <==> g.Total() <= REFBLOCK_ENTRIES
  {
    hide BE, FromBE, HeaderBytes, Words, Geometry.L2Tables, Geometry.DataClusters, FreeClusters.Pow2,
      FreeClusters.MaskOffset, FreeClusters.ParseHeader, FreeClusters.IsFree, FreeClusters.BadSlot, Built;
    BuiltHeader(image, g, content);
    ClusterIs16Bits();
    var fg := FreeClusters.Geometry(16, REFTABLE_OFFSET, 1);
    BuiltSize(image, g, content);
    assert FreeClusters.TotalClusters(fg, |image|) == g.Total();
    forall slot: nat
      ensures !FreeClusters.BadSlot(image, fg, slot)
    {
      NoBadRow(image, g, content, slot);
    }
    forall c: nat | c < g.Total()
      ensures FreeClusters.IsFree(image, fg, c) <==> c >= REFBLOCK_ENTRIES
    {
      FreeBeyond(image, g, content, c);
    }
    if g.Total() > REFBLOCK_ENTRIES {
      assert REFBLOCK_ENTRIES in FreeClusters.FreeOf(image).value.1;
    }
  }

  lemma BuiltSize(image: seq<byte>, g: Geometry, content: seq<byte>)
    requires Built(image, g, content)
    ensures |image| == g.Total() * CLUSTER && g.Total() >= 3
  {
    hide BE, HeaderBytes, Words, Geometry.L2Tables, Geometry.DataClusters;
  }

  lemma NoBadRow(image: seq<byte>, g: Geometry, content: seq<byte>, slot: nat)
    requires Built(image, g, content) && g.Packable() && g.L2Tables() <= L2_ENTRIES
    ensures var fg := FreeClusters.Geometry(16, REFTABLE_OFFSET, 1);
            fg.tableOffset + fg.TableSize() <= |image| && !FreeClusters.BadSlot(image, fg, slot)
  {
    hide BE, FromBE, HeaderBytes, Words, Geometry.L2Tables, Geometry.DataClusters, FreeClusters.Pow2,
      FreeClusters.MaskOffset;
    ClusterIs16Bits();
    TablesCoverData(g);
    if slot * REFBLOCK_ENTRIES < g.Total() {
      BlockRows(image, g, content, slot);
      MaskKeeps(g.Refblock());
    }
  }

  lemma FreeBeyond(image: seq<byte>, g: Geometry, content: seq<byte>, c: nat)
    requires Built(image, g, content) && g.Packable() && g.L2Tables() <= L2_ENTRIES && c < g.Total()
    ensures var fg := FreeClusters.Geometry(16, REFTABLE_OFFSET, 1);
            && fg.tableOffset + fg.TableSize() <= |image|
            && (FreeClusters.IsFree(image, fg, c) <==> c >= REFBLOCK_ENTRIES)
  {
    hide BE, FromBE, HeaderBytes, Words, Geometry.L2Tables, Geometry.DataClusters, FreeClusters.Pow2,
      FreeClusters.MaskOffset;
    ClusterIs16Bits();
    TablesCoverData(g);
    BlockRows(image, g, content, c / REFBLOCK_ENTRIES);
    MaskKeeps(g.Refblock());
  }
}
