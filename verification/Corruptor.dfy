/** The metadata corruptor: what each corruption class does to the stored counts, references and COPIED flags. */
module Corruptor {
  import opened Bytes
  import opened Options
  import opened FreeClusters
  import opened Qcow2Metadata

  predicate ChangedOnly(f: seq<byte>, g: seq<byte>, at: nat, n: nat) {
    |f| == |g| && forall p :: 0 <= p < |f| && !(at <= p < at + n) ==> g[p] == f[p]
  }

  lemma FieldKept(f: seq<byte>, g: seq<byte>, at: nat, n: nat, off: nat, k: nat)
    requires ChangedOnly(f, g, at, n) && off + k <= |f| && Apart(at, n, off, k)
    ensures GetBE(g, off, k) == GetBE(f, off, k)
  {
    assert g[off..off + k] == f[off..off + k];
  }

  /** The header and both top-level tables read the same. */
  predicate SameTables(f: seq<byte>, g: seq<byte>, h: Header) {
    && |f| == |g| && WellFormed(f, h) && WellFormed(g, h)
    && (forall i :: 0 <= i < h.l1Size ==> TableAt(g, h, i) == TableAt(f, h, i))
    && (forall s :: 0 <= s < SlotCount(|f|, h) ==> BlockAt(g, h, s) == BlockAt(f, h, s))
  }

  /** A change inside one L2 table or refcount block leaves the way to all of them alone. */
  lemma TablesKept(f: seq<byte>, g: seq<byte>, h: Header, base: nat, at: nat, n: nat)
    requires WellFormed(f, h) && OwnCluster(f, h, base)
    requires ChangedOnly(f, g, at, n) && base <= at && at + n <= base + h.ClusterSize()
    ensures SameTables(f, g, h)
  {
    hide GetBE, Pow2, FromBE;
    assert Apart(at, n, 0, 104);
    FieldKept(f, g, at, n, 20, 4);
    FieldKept(f, g, at, n, 36, 4);
    FieldKept(f, g, at, n, 40, 8);
    FieldKept(f, g, at, n, 48, 8);
    FieldKept(f, g, at, n, 56, 4);
    assert g[..4] == f[..4];
    assert ReadHeader(g) == Some(h);
    forall i | 0 <= i < h.l1Size
      ensures TableAt(g, h, i) == TableAt(f, h, i)
    {
      FieldKept(f, g, at, n, h.l1Offset + 8 * i, 8);
    }
    forall s | 0 <= s < SlotCount(|f|, h)
      ensures BlockAt(g, h, s) == BlockAt(f, h, s)
    {
      FieldKept(f, g, at, n, h.tableOffset + 8 * s, 8);
    }
  }

  /** L2 entry j of the first table set to v. */
  function WithL2(f: seq<byte>, h: Header, j: nat, v: nat): seq<byte>
    requires WellFormed(f, h) && h.l1Size > 0 && TableAt(f, h, 0) != 0 && j < h.PerTable()
  {
    Splice(f, TableAt(f, h, 0) + 8 * j, BE(8, v))
  }

  lemma L2Written(f: seq<byte>, h: Header, j: nat, v: nat)
    requires WellFormed(f, h) && h.l1Size > 0 && TableAt(f, h, 0) != 0 && j < h.PerTable() && v < U64
    ensures SameTables(f, WithL2(f, h, j, v), h)
    ensures L2Entry(WithL2(f, h, j, v), h, 0, j) == v
    ensures forall i, k :: 0 <= i < h.l1Size && 0 <= k < h.PerTable() && (i != 0 || k != j) ==>
              L2Entry(WithL2(f, h, j, v), h, i, k) == L2Entry(f, h, i, k)
    ensures forall c :: 0 <= c < Clusters(|f|, h) ==> StoredCount(WithL2(f, h, j, v), h, c) == StoredCount(f, h, c)
  {
    hide GetBE, Pow2, FromBE, BE, Splice, MaskOffset, Clusters, SlotCount, Slot, Place, TableAt, BlockAt;
    var at := TableAt(f, h, 0) + 8 * j;
    var g := WithL2(f, h, j, v);
    assert ChangedOnly(f, g, at, 8);
    TablesKept(f, g, h, TableAt(f, h, 0), at, 8);
    WidthLimits();
    GetBEPut(f, at, 8, v);
    forall i, k | 0 <= i < h.l1Size && 0 <= k < h.PerTable() && (i != 0 || k != j)
      ensures L2Entry(g, h, i, k) == L2Entry(f, h, i, k)
    {
      if TableAt(f, h, i) != 0 {
        EntriesApart(f, h, 0, j, i, k);
        FieldKept(f, g, at, 8, TableAt(f, h, i) + 8 * k, 8);
      }
    }
    forall c | 0 <= c < Clusters(|f|, h)
      ensures StoredCount(g, h, c) == StoredCount(f, h, c)
    {
      if HasBlock(f, h, c) {
        CountOutsideTables(f, h, 0, j, c);
        FieldKept(f, g, at, 8, CountAt(f, h, c), 2);
      }
    }
  }

  /** The count of cluster c set to v. */
  function WithCount(f: seq<byte>, h: Header, c: nat, v: nat): seq<byte>
    requires WellFormed(f, h) && c < Clusters(|f|, h) && HasBlock(f, h, c)
  {
    Splice(f, CountAt(f, h, c), BE(2, v))
  }

  lemma CountWritten(f: seq<byte>, h: Header, c: nat, v: nat)
    requires WellFormed(f, h) && c < Clusters(|f|, h) && HasBlock(f, h, c) && v < U16
    ensures SameTables(f, WithCount(f, h, c, v), h)
    ensures StoredCount(WithCount(f, h, c, v), h, c) == v
    ensures forall d :: 0 <= d < Clusters(|f|, h) && d != c ==>
              StoredCount(WithCount(f, h, c, v), h, d) == StoredCount(f, h, d)
    ensures forall i, k :: 0 <= i < h.l1Size && 0 <= k < h.PerTable() ==>
              L2Entry(WithCount(f, h, c, v), h, i, k) == L2Entry(f, h, i, k)
  {
    hide GetBE, Pow2, FromBE, BE, Splice, MaskOffset, Clusters, SlotCount, Slot, Place, TableAt, BlockAt;
    var at := CountAt(f, h, c);
    var g := WithCount(f, h, c, v);
    assert ChangedOnly(f, g, at, 2);
    TablesKept(f, g, h, BlockAt(f, h, Slot(|f|, h, c)), at, 2);
    WidthLimits();
    GetBEPut(f, at, 2, v);
    forall i, k | 0 <= i < h.l1Size && 0 <= k < h.PerTable()
      ensures L2Entry(g, h, i, k) == L2Entry(f, h, i, k)
    {
      if TableAt(f, h, i) != 0 {
        CountOutsideTables(f, h, i, k, c);
        FieldKept(f, g, at, 2, TableAt(f, h, i) + 8 * k, 8);
      }
    }
    forall d | 0 <= d < Clusters(|f|, h) && d != c
      ensures StoredCount(g, h, d) == StoredCount(f, h, d)
    {
      if HasBlock(f, h, d) {
        CountsApart(f, h, c, d);
        FieldKept(f, g, at, 2, CountAt(f, h, d), 2);
      }
    }
  }
}
