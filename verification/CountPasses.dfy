/** The two repair passes over the refcount blocks of a file: correct every count, or only free leaked clusters. */
module CountPasses {
  import opened Bytes
  import opened Options
  import opened FreeClusters
  import opened Qcow2Metadata
  import opened Corruptor
  import opened ImageBytes
  import opened ClusterBitmap
  import opened CheckWalk
  import RefcountBlock
  import Repair

  lemma TableOutsideBlock(f: seq<byte>, h: Header, i: nat, j: nat, s: nat)
    requires WellFormed(f, h) && s < SlotCount(|f|, h) && i < h.l1Size && j < h.PerTable()
    requires BlockAt(f, h, s) != 0 && TableAt(f, h, i) != 0
    ensures Apart(BlockAt(f, h, s), h.ClusterSize(), TableAt(f, h, i) + 8 * j, 8)
  {
    hide BlockAt, Clusters, SlotCount, TableAt, OwnCluster;
  }

  lemma CountOutsideBlock(f: seq<byte>, h: Header, c: nat, s: nat)
    requires WellFormed(f, h) && c < Clusters(|f|, h) && s < SlotCount(|f|, h) && Slot(|f|, h, c) != s
    requires HasBlock(f, h, c) && BlockAt(f, h, s) != 0
    ensures Apart(BlockAt(f, h, s), h.ClusterSize(), CountAt(f, h, c), 2)
  {
    hide BlockAt, Slot, Place, Clusters, SlotCount, TableAt, OwnCluster;
  }

  /** Replacing one refcount block changes the counts kept there and nothing else. */
  lemma BlockWritten(f: seq<byte>, h: Header, s: nat, block: seq<byte>)
    requires WellFormed(f, h) && s < SlotCount(|f|, h) && BlockAt(f, h, s) != 0 && |block| == h.ClusterSize()
    requires BlockAt(f, h, s) + |block| <= |f|
    ensures var g := Splice(f, BlockAt(f, h, s), block);
            && SameTables(f, g, h) && SameEntries(f, g, h)
            && forall c :: 0 <= c < Clusters(|f|, h) ==>
                 StoredCount(g, h, c) == if Slot(|f|, h, c) == s then GetBE(block, 2 * Place(h, c), 2)
                   else StoredCount(f, h, c)
  {
    hide GetBE, Pow2, FromBE, BE, Splice, MaskOffset, Clusters, SlotCount, Slot, Place, TableAt, BlockAt;
    var at := BlockAt(f, h, s);
    var g := Splice(f, at, block);
    assert ChangedOnly(f, g, at, |block|);
    TablesKept(f, g, h, at, at, |block|);
    forall i, k | 0 <= i < h.l1Size && 0 <= k < h.PerTable()
      ensures L2Entry(g, h, i, k) == L2Entry(f, h, i, k)
    {
      if TableAt(f, h, i) != 0 {
        TableOutsideBlock(f, h, i, k, s);
        FieldKept(f, g, at, |block|, TableAt(f, h, i) + 8 * k, 8);
      }
    }
    forall c | 0 <= c < Clusters(|f|, h)
      ensures StoredCount(g, h, c) == if Slot(|f|, h, c) == s then GetBE(block, 2 * Place(h, c), 2)
                else StoredCount(f, h, c)
    {
      if Slot(|f|, h, c) == s {
        InsideSplice(f, at, block, 2 * Place(h, c), 2);
      } else if HasBlock(f, h, c) {
        CountOutsideBlock(f, h, c, s);
        FieldKept(f, g, at, |block|, CountAt(f, h, c), 2);
      }
    }
  }

  lemma BlockOutsideBlock(f: seq<byte>, h: Header, s: nat, t: nat, k: nat)
    requires WellFormed(f, h) && s < SlotCount(|f|, h) && t < SlotCount(|f|, h) && s != t && k < h.PerBlock()
    requires BlockAt(f, h, s) != 0 && BlockAt(f, h, t) != 0
    ensures Apart(BlockAt(f, h, s), h.ClusterSize(), BlockAt(f, h, t) + 2 * k, 2)
  {
    hide BlockAt, Clusters, SlotCount, TableAt, OwnCluster;
  }

  /** The same for every entry of every block, those past the last cluster included. */
  lemma BlockEntriesWritten(f: seq<byte>, h: Header, s: nat, block: seq<byte>)
    requires WellFormed(f, h) && s < SlotCount(|f|, h) && BlockAt(f, h, s) != 0 && |block| == h.ClusterSize()
    requires BlockAt(f, h, s) + |block| <= |f|
    ensures var g := Splice(f, BlockAt(f, h, s), block);
            && SameTables(f, g, h) && KeptOutsideBlocks(f, g, h)
            && forall t, k :: 0 <= t < SlotCount(|f|, h) && BlockAt(f, h, t) != 0 && 0 <= k < h.PerBlock() ==>
                 BlockCount(g, h, t, k) == if t == s then GetBE(block, 2 * k, 2) else BlockCount(f, h, t, k)
  {
    hide GetBE, Pow2, FromBE, BE, Splice, MaskOffset, Clusters, SlotCount, TableAt, BlockAt;
    var at := BlockAt(f, h, s);
    var g := Splice(f, at, block);
    assert ChangedOnly(f, g, at, |block|);
    TablesKept(f, g, h, at, at, |block|);
    forall t, k | 0 <= t < SlotCount(|f|, h) && BlockAt(f, h, t) != 0 && 0 <= k < h.PerBlock()
      ensures BlockCount(g, h, t, k) == if t == s then GetBE(block, 2 * k, 2) else BlockCount(f, h, t, k)
    {
      if t == s {
        InsideSplice(f, at, block, 2 * k, 2);
      } else {
        BlockOutsideBlock(f, h, s, t, k);
        FieldKept(f, g, at, |block|, BlockAt(f, h, t) + 2 * k, 2);
      }
    }
  }

  lemma InsideSplice(f: seq<byte>, at: nat, t: seq<byte>, k: nat, n: nat)
    requires at + |t| <= |f| && k + n <= |t|
    ensures GetBE(Splice(f, at, t), at + k, n) == GetBE(t, k, n)
  {
    hide FromBE;
    SubSlice(Splice(f, at, t), at, t, k, n);
  }

  /** A 16-bit entry is the two bytes the corruptor writes. */
  lemma EntryIsField(block: seq<byte>, k: nat)
    requires k < RefcountBlock.Capacity(|block|, 16)
    ensures 2 * k + 2 <= |block| && RefcountBlock.Entry(block, 16, k) == GetBE(block, 2 * k, 2)
  {
  }

  /** What a pass makes of the count of a cluster. */
  type CountRule = (nat, nat) -> nat

  /** The correcting pass writes one for a marked cluster and zero for any other. */
  function Recount(bits: seq<byte>): CountRule {
    (c: nat, count: nat) => if Test(bits, c) then 1 else 0
  }

  /** The leaks pass zeroes the count of a cluster that is not marked. */
  function Free(bits: seq<byte>): CountRule {
    (c: nat, count: nat) => if Test(bits, c) then count else 0
  }

  ghost predicate BlockRuled(before: seq<byte>, after: seq<byte>, rule: CountRule, first: nat) {
    && |after| == |before|
    && forall k :: 0 <= k && 2 * k + 2 <= |before| ==>
       GetBE(after, 2 * k, 2) == rule(first + k, GetBE(before, 2 * k, 2))
  }

  /** Corrects a staged block against the bitmap; says whether anything changed. */
  method CorrectBlock(block: array<byte>, bits: seq<byte>, first: nat) returns (changed: bool)
    requires block.Length % 2 == 0
    modifies block
    ensures BlockRuled(old(block[..]), block[..], Recount(bits), first)
    ensures !changed ==> block[..] == old(block[..])
  {
    hide RefcountBlock.Entry, Repair.Corrected, Repair.Changes, GetBE, Test;
    ghost var before := block[..];
    var entries := block.Length / 2;
    var computed := (j: nat) => Some(if Test(bits, first + j) then 1 else 0);
    var r := Repair.CorrectRefcounts(block, entries, 16, computed);
    assert RefcountBlock.Capacity(block.Length, 16) == entries;
    forall k | 0 <= k && 2 * k + 2 <= block.Length
      ensures GetBE(block[..], 2 * k, 2) == Recount(bits)(first + k, GetBE(before, 2 * k, 2))
    {
      Repair.CorrectedEntry(before, 16, computed, entries, k);
      EntryIsField(block[..], k);
    }
    changed := r.value != Repair.NOTHING;
    if !changed {
      Repair.NothingCorrected(before, 16, computed, entries);
    }
  }

  /** Frees the leaked clusters of a staged block; says how many. */
  method ReclaimBlock(block: array<byte>, bits: seq<byte>, first: nat) returns (reclaimed: nat)
    requires block.Length % 2 == 0
    modifies block
    ensures BlockRuled(old(block[..]), block[..], Free(bits), first)
    ensures reclaimed == 0 ==> block[..] == old(block[..])
  {
    hide RefcountBlock.Entry, Repair.Reclaimed, Repair.LeakCount, GetBE, Test;
    ghost var before := block[..];
    var entries := block.Length / 2;
    var referenced := (j: nat) => Test(bits, first + j);
    var r := Repair.ReclaimLeaks(block, entries, 16, referenced);
    assert RefcountBlock.Capacity(block.Length, 16) == entries;
    forall k | 0 <= k && 2 * k + 2 <= block.Length
      ensures GetBE(block[..], 2 * k, 2) == Free(bits)(first + k, GetBE(before, 2 * k, 2))
    {
      Repair.ReclaimedEntry(before, 16, referenced, entries, k);
      EntryIsField(block[..], k);
      EntryIsField(before, k);
    }
    reclaimed := r.value;
    if reclaimed == 0 {
      Repair.NothingReclaimed(before, 16, referenced, entries);
    }
  }

  /** Header and L1 table, byte for byte. */
  predicate SameTop(f: seq<byte>, g: seq<byte>, h: Header) {
    && |f| == |g| && 104 <= |f| && h.l1Offset + 8 * h.l1Size <= |f|
    && g[..104] == f[..104] && g[h.l1Offset..h.l1Offset + 8 * h.l1Size] == f[h.l1Offset..h.l1Offset + 8 * h.l1Size]
  }

  /** Every entry of the blocks in the first n rows is what the rule says, every other one is as it was. */
  ghost predicate BlocksRuled(f: seq<byte>, g: seq<byte>, h: Header, rule: CountRule, n: nat)
    requires SameTables(f, g, h) && TablesReadable(f, h)
  {
    forall s, k :: 0 <= s < SlotCount(|f|, h) && BlockAt(f, h, s) != 0 && 0 <= k < h.PerBlock() ==>
      BlockCount(g, h, s, k) ==
        if s < n then rule(Times(s, h.PerBlock()) + k, BlockCount(f, h, s, k)) else BlockCount(f, h, s, k)
  }

  /** Counts in the first n rows are what the rule says; every byte outside the refcount blocks is as it was. */
  ghost predicate Progress(f: seq<byte>, g: seq<byte>, h: Header, rule: CountRule, n: nat) {
    && SameTables(f, g, h) && SameEntries(f, g, h) && SameTop(f, g, h)
    && BlocksRuled(f, g, h, rule, n) && KeptOutsideBlocks(f, g, h)
    && forall c :: 0 <= c < Clusters(|f|, h) ==>
         StoredCount(g, h, c) == if HasBlock(f, h, c) && Slot(|f|, h, c) < n then rule(c, StoredCount(f, h, c))
           else StoredCount(f, h, c)
  }

  lemma SlotOf(size: nat, h: Header, c: nat, s: nat)
    requires h.PerBlock() > 0 && c < Clusters(size, h) && Slot(size, h, c) == s
    ensures c == Times(s, h.PerBlock()) + Place(h, c)
  {
    hide Clusters, SlotCount;
    WholeAndRest(c, h.PerBlock());
  }

  /** What a staged block says about its clusters. */
  lemma BlockRead(f: seq<byte>, h: Header, c: nat, s: nat)
    requires WellFormed(f, h) && c < Clusters(|f|, h) && Slot(|f|, h, c) == s && BlockAt(f, h, s) != 0
    requires BlockAt(f, h, s) + h.ClusterSize() <= |f|
    ensures StoredCount(f, h, c) == GetBE(f[BlockAt(f, h, s)..BlockAt(f, h, s) + h.ClusterSize()], 2 * Place(h, c), 2)
  {
    hide FromBE, Clusters, SlotCount, BlockAt, TableAt, Pow2, Slot, Place;
    var at := BlockAt(f, h, s);
    SubSlice(f, at, f[at..at + h.ClusterSize()], 2 * Place(h, c), 2);
  }

  lemma OneBlockMore(f: seq<byte>, g: seq<byte>, h: Header, rule: CountRule, s: nat, block: seq<byte>)
    requires Progress(f, g, h, rule, s) && s < SlotCount(|f|, h) && BlockAt(g, h, s) != 0
    requires BlockAt(g, h, s) + h.ClusterSize() <= |g|
    requires BlockRuled(g[BlockAt(g, h, s)..BlockAt(g, h, s) + h.ClusterSize()], block, rule, Times(s, h.PerBlock()))
    ensures |block| == h.ClusterSize() && Progress(f, Splice(g, BlockAt(g, h, s), block), h, rule, s + 1)
  {
    hide GetBE, Pow2, Splice, Clusters, SlotCount, Slot, Place, TableAt, BlockAt, Times, OwnCluster, Apart, L2Entry,
      StoredCount, WellFormed, BlockCount, BlocksRuled, KeptOutsideBlocks;
    AtLeastNine(f, h);
    AtLeastNine(g, h);
    var now := Splice(g, BlockAt(g, h, s), block);
    BlockWritten(g, h, s, block);
    OneBlockRuled(f, g, h, rule, s, block);
    TopKept(g, h, s, block);
    forall c | 0 <= c < Clusters(|f|, h)
      ensures StoredCount(now, h, c) == if HasBlock(f, h, c)
                && Slot(|f|, h, c) < s + 1 then rule(c, StoredCount(f, h, c)) else StoredCount(f, h, c)
    {
      if Slot(|f|, h, c) == s {
        SlotOf(|f|, h, c, s);
        BlockRead(g, h, c, s);
      }
    }
  }

  lemma OneBlockRuled(f: seq<byte>, g: seq<byte>, h: Header, rule: CountRule, s: nat, block: seq<byte>)
    requires SameTables(f, g, h) && TablesReadable(f, h) && TablesReadable(g, h) && s < SlotCount(|f|, h)
    requires BlocksRuled(f, g, h, rule, s) && KeptOutsideBlocks(f, g, h) && BlockAt(g, h, s) != 0
    requires BlockAt(g, h, s) + h.ClusterSize() <= |g|
    requires BlockRuled(g[BlockAt(g, h, s)..BlockAt(g, h, s) + h.ClusterSize()], block, rule, Times(s, h.PerBlock()))
    ensures var now := Splice(g, BlockAt(g, h, s), block);
            && |block| == h.ClusterSize() && SameTables(f, now, h)
            && BlocksRuled(f, now, h, rule, s + 1) && KeptOutsideBlocks(f, now, h)
  {
    hide GetBE, Pow2, Splice, Clusters, SlotCount, TableAt, BlockAt, Times, WellFormed, BlockCount, InBlocks;
    var at, now := BlockAt(g, h, s), Splice(g, BlockAt(g, h, s), block);
    BlockEntriesWritten(g, h, s, block);
    forall p | 0 <= p < |f| && !InBlocks(f, h, p)
      ensures now[p] == f[p]
    {
      SameRegions(f, g, h, p);
    }
    forall t, k | 0 <= t < SlotCount(|f|, h) && BlockAt(f, h, t) != 0 && 0 <= k < h.PerBlock()
      ensures BlockCount(now, h, t, k) ==
              if t < s + 1 then rule(Times(t, h.PerBlock()) + k, BlockCount(f, h, t, k)) else BlockCount(f, h, t, k)
    {
      assert BlockCount(g, h, t, k) ==
        if t < s then rule(Times(t, h.PerBlock()) + k, BlockCount(f, h, t, k)) else BlockCount(f, h, t, k);
      if t == s {
        EntryRead(g, h, s, k);
      }
    }
  }

  lemma EntryRead(f: seq<byte>, h: Header, s: nat, k: nat)
    requires WellFormed(f, h) && s < SlotCount(|f|, h) && BlockAt(f, h, s) != 0 && k < h.PerBlock()
    requires BlockAt(f, h, s) + h.ClusterSize() <= |f|
    ensures 2 * k + 2 <= h.ClusterSize()
    ensures BlockCount(f, h, s, k) == GetBE(f[BlockAt(f, h, s)..BlockAt(f, h, s) + h.ClusterSize()], 2 * k, 2)
  {
    hide FromBE, Clusters, SlotCount, BlockAt, TableAt, Pow2;
    var at := BlockAt(f, h, s);
    SubSlice(f, at, f[at..at + h.ClusterSize()], 2 * k, 2);
  }

  lemma TopKept(f: seq<byte>, h: Header, s: nat, block: seq<byte>)
    requires WellFormed(f, h) && s < SlotCount(|f|, h) && BlockAt(f, h, s) != 0 && |block| == h.ClusterSize()
    requires BlockAt(f, h, s) + |block| <= |f|
    ensures SameTop(f, Splice(f, BlockAt(f, h, s), block), h)
  {
    hide Clusters, SlotCount, TableAt, BlockAt, Pow2, GetBE, Splice;
    assert Apart(BlockAt(f, h, s), h.ClusterSize(), 0, 104);
    assert Apart(BlockAt(f, h, s), h.ClusterSize(), h.l1Offset, 8 * h.l1Size);
  }

  lemma NoBlockMore(f: seq<byte>, g: seq<byte>, h: Header, rule: CountRule, s: nat)
    requires Progress(f, g, h, rule, s) && s < SlotCount(|f|, h) && BlockAt(g, h, s) == 0
    ensures Progress(f, g, h, rule, s + 1)
  {
    hide GetBE, Pow2, Clusters, SlotCount, Slot, Place, TableAt, BlockAt, WellFormed, L2Entry, StoredCount, BlockCount,
      KeptOutsideBlocks;
  }

  lemma BlockInside(f: seq<byte>, h: Header, s: nat)
    requires WellFormed(f, h) && s < SlotCount(|f|, h) && BlockAt(f, h, s) != 0
    ensures BlockAt(f, h, s) + h.ClusterSize() <= |f|
  {
    hide BlockAt, Clusters, SlotCount, TableAt, Apart;
  }

  lemma EvenCluster(f: seq<byte>, h: Header)
    requires TablesReadable(f, h)
    ensures h.ClusterSize() % 2 == 0
  {
    Pow2At9(h.clusterBits);
  }

  lemma NothingRuled(f: seq<byte>, h: Header, rule: CountRule)
    requires WellFormed(f, h)
    ensures Progress(f, f, h, rule, 0)
  {
    hide WellFormed, L2Entry, StoredCount, TableAt, BlockAt, BlockCount, InBlocks;
    AtLeastNine(f, h);
  }

  lemma StillWellFormed(f: seq<byte>, g: seq<byte>, h: Header, rule: CountRule, n: nat)
    requires Progress(f, g, h, rule, n)
    ensures WellFormed(g, h) && |g| == |f|
  {
    hide WellFormed, L2Entry, StoredCount, TableAt, BlockAt, BlocksRuled, KeptOutsideBlocks;
  }

  /** Every count kept in a row of the table is what the rule makes of it. */
  ghost predicate Ruled(f: seq<byte>, g: seq<byte>, h: Header, rule: CountRule) {
    Progress(f, g, h, rule, Rows(|f|, h))
  }

  /** The correcting pass over every refcount block of the file, in place. */
  method CorrectCounts(file: array<byte>, h: Header, bits: seq<byte>)
    requires WellFormed(file[..], h)
    modifies file
    ensures Ruled(old(file[..]), file[..], h, Recount(bits))
  {
    hide GetBE, Pow2, Splice, Clusters, SlotCount, TableAt, BlockAt, Times, OwnCluster, Apart, L2Entry, StoredCount,
      Progress, WellFormed, Rows, BlockRuled;
    ghost var f, rule := file[..], Recount(bits);
    AtLeastNine(f, h);
    RowsInTable(f, h);
    EvenCluster(f, h);
    NothingRuled(f, h, rule);
    for s := 0 to Rows(file.Length, h)
      invariant Progress(f, file[..], h, rule, s) && WellFormed(file[..], h)
    {
      ghost var g := file[..];
      AtLeastNine(g, h);
      var at := BlockAt(file[..], h, s);
      if at == 0 {
        NoBlockMore(f, g, h, rule, s);
      } else {
        BlockInside(g, h, s);
        var block := Copy(file, at, h.ClusterSize());
        var changed := CorrectBlock(block, bits, Times(s, h.PerBlock()));
        OneBlockMore(f, g, h, rule, s, block[..]);
        if changed {
          Store(file, at, block[..]);
        } else {
          SpliceSame(g, at, h.ClusterSize());
        }
        StillWellFormed(f, file[..], h, rule, s + 1);
      }
    }
  }

  /** The leaks pass; says how many clusters it has freed. */
  method ReclaimCounts(file: array<byte>, h: Header, bits: seq<byte>) returns (total: nat)
    requires WellFormed(file[..], h)
    modifies file
    ensures Ruled(old(file[..]), file[..], h, Free(bits))
    ensures total == 0 ==> file[..] == old(file[..])
  {
    hide GetBE, Pow2, Splice, Clusters, SlotCount, TableAt, BlockAt, Times, OwnCluster, Apart, L2Entry, StoredCount,
      Progress, WellFormed, Rows, BlockRuled;
    ghost var f, rule := file[..], Free(bits);
    AtLeastNine(f, h);
    RowsInTable(f, h);
    EvenCluster(f, h);
    NothingRuled(f, h, rule);
    total := 0;
    for s := 0 to Rows(file.Length, h)
      invariant Progress(f, file[..], h, rule, s) && WellFormed(file[..], h)
      invariant total == 0 ==> file[..] == f
    {
      ghost var g := file[..];
      AtLeastNine(g, h);
      var at := BlockAt(file[..], h, s);
      if at == 0 {
        NoBlockMore(f, g, h, rule, s);
      } else {
        BlockInside(g, h, s);
        var block := Copy(file, at, h.ClusterSize());
        var reclaimed := ReclaimBlock(block, bits, Times(s, h.PerBlock()));
        OneBlockMore(f, g, h, rule, s, block[..]);
        if reclaimed > 0 {
          Store(file, at, block[..]);
          total := total + reclaimed;
        } else {
          SpliceSame(g, at, h.ClusterSize());
        }
        StillWellFormed(f, file[..], h, rule, s + 1);
      }
    }
  }

  lemma SpliceSame(f: seq<byte>, at: nat, n: nat)
    requires at + n <= |f|
    ensures Splice(f, at, f[at..at + n]) == f
  {
  }

  method Copy(file: array<byte>, at: nat, n: nat) returns (buffer: array<byte>)
    requires at + n <= file.Length
    ensures fresh(buffer) && buffer[..] == file[at..at + n]
  {
    buffer := new byte[n](k requires 0 <= k < n reads file => file[at + k]);
  }
}
