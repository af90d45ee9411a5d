/** Which clusters of a qcow2 file have refcount zero, by walking its refcount table and blocks. */
module FreeClusters {
  import opened Bytes
  import opened Options

  const MAGIC: seq<byte> := [0x51, 0x46, 0x49, 0xFB]
  const OFFSET_BITS: nat := 0x100_0000_0000_0000

  function Pow2(n: nat): (r: nat)
    ensures r >= 1
  {
    if n == 0 then 1 else 2 * Pow2(n - 1)
  }

  /** Bits 9 to 55 of a table entry. */
  function MaskOffset(entry: nat): nat {
    entry % OFFSET_BITS / 512 * 512
  }

  /** What the walk needs from the header. */
  datatype Geometry = Geometry(clusterBits: nat, tableOffset: nat, tableClusters: nat)
  {
    function ClusterSize(): nat { Pow2(clusterBits) }

    function TableSize(): nat { tableClusters * ClusterSize() }

    /** 16-bit counts: two bytes each. */
    function PerBlock(): nat { ClusterSize() * 8 / 16 }
  }

  /** The header of a file the walk can handle. */
  function ParseHeader(file: seq<byte>): (r: Option<Geometry>)
    ensures r.Some? ==> 9 <= r.value.clusterBits <= 21 && r.value.tableOffset + r.value.TableSize() <= |file|
  {
    var header := if |file| < 104 then file else file[..104];
    if |header| < 72 || header[..4] != MAGIC then None else
    var bits := GetBE(header, 20, 4);
    if !(9 <= bits <= 21) then None
    else if GetBE(header, 4, 4) >= 3 && |header| < 100 then None
    else if GetBE(header, 4, 4) >= 3 && GetBE(header, 96, 4) != 4 then None
    else
      var g := Geometry(bits, GetBE(header, 48, 8), GetBE(header, 56, 4));
      if g.tableOffset == 0 || g.tableOffset + g.TableSize() > |file| then None else Some(g)
  }

  lemma BlockSize(g: Geometry)
    requires g.clusterBits >= 9
    ensures g.PerBlock() >= 256 && 2 * g.PerBlock() == g.ClusterSize()
  {
    Pow2At9(g.clusterBits);
  }

  lemma {:induction false} Pow2At9(n: nat)
    requires n >= 9
    ensures Pow2(n) >= 512 && Pow2(n) % 2 == 0 && Pow2(n) % 8 == 0
  {
    if n == 9 {
      assert Pow2(3) == 8 && Pow2(6) == 64;
    } else {
      Pow2At9(n - 1);
    }
  }

  function Slots(g: Geometry): nat { g.TableSize() / 8 }

  /** Number of clusters in the file, a partial last one included. */
  function TotalClusters(g: Geometry, size: nat): nat {
    (size + g.ClusterSize() - 1) / g.ClusterSize()
  }

  function BlockOffset(file: seq<byte>, g: Geometry, slot: nat): nat
    requires g.tableOffset + g.TableSize() <= |file| && slot < Slots(g)
  {
    MaskOffset(GetBE(file, g.tableOffset + 8 * slot, 8))
  }

  /** A slot the walk reads whose block lies outside the file. */
  predicate BadSlot(file: seq<byte>, g: Geometry, slot: nat)
    requires g.tableOffset + g.TableSize() <= |file|
  {
    && slot < Slots(g) && slot * g.PerBlock() < TotalClusters(g, |file|)
    && BlockOffset(file, g, slot) != 0 && BlockOffset(file, g, slot) + g.ClusterSize() > |file|
  }

  /** The recorded 16-bit count of cluster k of a slot is zero (no block: all zero). */
  predicate ZeroCount(file: seq<byte>, g: Geometry, slot: nat, k: nat)
    requires g.tableOffset + g.TableSize() <= |file| && slot < Slots(g) && k < g.PerBlock() && g.clusterBits >= 9
  {
    BlockSize(g);
    var at := BlockOffset(file, g, slot);
    at == 0 || (at + g.ClusterSize() <= |file| && file[at + 2 * k] == 0 && file[at + 2 * k + 1] == 0)
  }

  /** Cluster c of the file is covered by the table and has count zero. */
  predicate IsFree(file: seq<byte>, g: Geometry, c: nat)
    requires g.tableOffset + g.TableSize() <= |file| && g.clusterBits >= 9
  {
    BlockSize(g);
    c < TotalClusters(g, |file|) && c / g.PerBlock() < Slots(g)
      && ZeroCount(file, g, c / g.PerBlock(), c % g.PerBlock())
  }

  /** Cluster size and the free clusters; None if the header or some block the walk needs is unusable. */
  ghost function FreeOf(file: seq<byte>): Option<(nat, set<nat>)> {
    match ParseHeader(file)
    case None => None
    case Some(g) =>
      if exists slot: nat :: BadSlot(file, g, slot) then None
      else Some((g.ClusterSize(), set c | 0 <= c < TotalClusters(g, |file|) && IsFree(file, g, c)))
  }

  /** The k-th cluster of a slot, seen from its own index. */
  lemma ClusterOfSlot(file: seq<byte>, g: Geometry, slot: nat, k: nat)
    requires g.tableOffset + g.TableSize() <= |file| && g.clusterBits >= 9 && slot < Slots(g) && k < g.PerBlock()
    requires slot * g.PerBlock() + k < TotalClusters(g, |file|)
    ensures IsFree(file, g, slot * g.PerBlock() + k) <==> ZeroCount(file, g, slot, k)
  {
    hide ZeroCount, Slots, TotalClusters;
    DivModUnique(slot, g.PerBlock(), k);
  }

  /** Adds the free clusters of one slot. */
  method AddSlot(file: seq<byte>, g: Geometry, slot: nat, free: set<nat>) returns (r: set<nat>)
    requires g.tableOffset + g.TableSize() <= |file| && g.clusterBits >= 9 && slot < Slots(g)
    requires slot * g.PerBlock() < TotalClusters(g, |file|) && !BadSlot(file, g, slot)
    requires forall c: nat :: c in free <==> c < slot * g.PerBlock() && IsFree(file, g, c)
    ensures forall c: nat :: c in r <==> c < (slot + 1) * g.PerBlock() && IsFree(file, g, c)
  {
    hide Slots, IsFree;
    BlockSize(g);
    var base := slot * g.PerBlock();
    var covered := if g.PerBlock() <= TotalClusters(g, |file|) - base then g.PerBlock()
      else TotalClusters(g, |file|) - base;
    var at := BlockOffset(file, g, slot);
    r := free;
    for k := 0 to covered
      invariant forall c: nat :: c in r <==> c < base + k && IsFree(file, g, c)
    {
      ClusterOfSlot(file, g, slot, k);
      if at == 0 || (file[at + 2 * k] == 0 && file[at + 2 * k + 1] == 0) {
        r := r + {base + k};
      }
    }
    assert (slot + 1) * g.PerBlock() == base + g.PerBlock();
    assert covered < g.PerBlock() ==> forall c: nat :: c >= base + covered ==> !IsFree(file, g, c) by {
      NothingPastTheEnd(file, g);
    }
  }

  lemma NothingPastTheEnd(file: seq<byte>, g: Geometry)
    requires g.tableOffset + g.TableSize() <= |file| && g.clusterBits >= 9
    ensures forall c: nat :: c >= TotalClusters(g, |file|) ==> !IsFree(file, g, c)
    ensures forall c: nat :: IsFree(file, g, c) ==> c / g.PerBlock() < Slots(g)
  {
    BlockSize(g);
  }

  /** At the end of the table or of the file nothing is left to find. */
  lemma WalkComplete(file: seq<byte>, g: Geometry, slot: nat)
    requires g.tableOffset + g.TableSize() <= |file| && g.clusterBits >= 9
    requires slot == Slots(g) || slot * g.PerBlock() >= TotalClusters(g, |file|)
    ensures forall c: nat :: IsFree(file, g, c) ==> c < slot * g.PerBlock() && c < TotalClusters(g, |file|)
    ensures forall s: nat :: s >= slot ==> !BadSlot(file, g, s)
  {
    hide Slots, TotalClusters, Geometry.PerBlock, Geometry.TableSize, ZeroCount, BlockOffset;
    BlockSize(g);
    forall c: nat | IsFree(file, g, c)
      ensures c < slot * g.PerBlock()
    {
      if slot == Slots(g) {
        BelowProduct(c, g.PerBlock(), slot);
      }
    }
    forall s: nat | s >= slot
      ensures !BadSlot(file, g, s)
    {
      MulMono(slot, s, g.PerBlock());
    }
  }

  method FindFreeClusters(file: seq<byte>) returns (r: Option<(nat, set<nat>)>)
    ensures r == FreeOf(file)
  {
    hide IsFree, BlockOffset, Slots, TotalClusters, Geometry.PerBlock, Geometry.TableSize;
    var header := ParseHeader(file);
    if header.None? {
      return None;
    }
    var g := header.value;
    var free: set<nat> := {};
    var slot := 0;
    while slot < Slots(g)
      invariant slot <= Slots(g)
      invariant forall s: nat :: s < slot ==> !BadSlot(file, g, s)
      invariant forall c: nat :: c in free <==> c < slot * g.PerBlock() && IsFree(file, g, c)
    {
      var base := slot * g.PerBlock();
      if base >= TotalClusters(g, |file|) {
        break;
      }
      var at := BlockOffset(file, g, slot);
      if at != 0 && at + g.ClusterSize() > |file| {
        assert BadSlot(file, g, slot);
        return None;
      }
      free := AddSlot(file, g, slot, free);
      slot := slot + 1;
    }
    WalkComplete(file, g, slot);
    assert free == set c | 0 <= c < TotalClusters(g, |file|) && IsFree(file, g, c);
    return Some((g.ClusterSize(), free));
  }

  /** Bits 9 to 55, whatever the eight above and the nine below. */
  lemma MaskOfParts(high: nat, offset: nat, low: nat)
    requires high < 256 && offset < 0x8000_0000_0000 && low < 512
    ensures MaskOffset(high * 0x100_0000_0000_0000 + offset * 512 + low) == offset * 512
  {
    var entry := high * 0x100_0000_0000_0000 + offset * 512 + low;
    assert entry % OFFSET_BITS == offset * 512 + low;
    assert (offset * 512 + low) / 512 == offset;
  }

  /** Other files are refused: wrong magic, odd cluster sizes, other count widths, a table past the end. */
  lemma ForeignFilesRefused(file: seq<byte>)
    requires ParseHeader(file).Some?
    ensures |file| >= 72 && file[..4] == [0x51, 0x46, 0x49, 0xFB] && 9 <= GetBE(file, 20, 4) <= 21
    ensures GetBE(file, 4, 4) >= 3 ==> |file| >= 100 && GetBE(file, 96, 4) == 4
    ensures var at, n := GetBE(file, 48, 8), GetBE(file, 56, 4);
            at > 0 && at + n * Pow2(GetBE(file, 20, 4)) <= |file|
  {
    hide FromBE, Pow2;
    var header := if |file| < 104 then file else file[..104];
    assert header[..4] == file[..4] && header[4..8] == file[4..8] && header[20..24] == file[20..24];
    assert header[48..56] == file[48..56] && header[56..60] == file[56..60];
    if |file| >= 100 {
      assert header[96..100] == file[96..100];
    }
  }
}
