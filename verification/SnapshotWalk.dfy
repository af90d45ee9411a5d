/**
 The references of an L1 tree in walk order, the snapshot updates driven by them, and what they do to COPIED flags.
 */
module SnapshotWalk {
  import opened Bytes
  import opened Options
  import opened FreeClusters
  import opened Qcow2Metadata
  import opened CopiedFlags
  import opened SnapshotRefcount
  import RefcountBlock

  /** Where the count of a host offset is staged; None if it is not. */
  type Locator = nat -> Option<nat>

  /** Clusters visited so far, and whether the walk came to something that was not staged. */
  datatype Visits = Visits(refs: seq<nat>, gap: bool)
  {
    function Visit(locate: Locator, offset: nat): Visits {
      if gap then this
      else match locate(offset) case None => Visits(refs, true) case Some(c) => Visits(refs + [c], false)
    }
  }

  /** The data clusters of the first n entries of a table. */
  function VisitTable(v: Visits, table: seq<byte>, extended: bool, bits: nat, locate: Locator, n: nat): Visits
    requires n <= Entries(|table|, extended)
  {
    if n == 0 then v else
    var before := VisitTable(v, table, extended, bits, locate, n - 1);
    match HostOffset(EntryOf(table, extended, n - 1), bits)
    case None => before
    case Some(offset) => before.Visit(locate, offset)
  }

  /** One L1 slot: the data clusters of its table, then the table's own cluster. */
  function VisitSlot(v: Visits, entry: nat, table: seq<byte>, staged: bool, extended: bool, bits: nat,
                     locate: Locator): Visits {
    if v.gap || MaskOffset(entry) == 0 then v
    else if !staged then Visits(v.refs, true)
    else VisitTable(v, table, extended, bits, locate, Entries(|table|, extended)).Visit(locate, MaskOffset(entry))
  }

  /** The first n slots of a tree. */
  function VisitTree(l1: seq<byte>, tables: seq<seq<byte>>, staged: set<nat>, extended: bool, bits: nat,
                     locate: Locator, n: nat): Visits
    requires n <= Entries(|l1|, false) == |tables|
  {
    if n == 0 then Visits([], false)
    else VisitSlot(VisitTree(l1, tables, staged, extended, bits, locate, n - 1),
                   EntryOf(l1, false, n - 1), tables[n - 1], n - 1 in staged, extended, bits, locate)
  }

  method ListTable(v: Visits, table: seq<byte>, extended: bool, bits: nat, locate: Locator) returns (r: Visits)
    requires !v.gap
    ensures r == VisitTable(v, table, extended, bits, locate, Entries(|table|, extended))
  {
    hide Entries, EntryOf, HostOffset;
    r := v;
    for k := 0 to Entries(|table|, extended)
      invariant r == VisitTable(v, table, extended, bits, locate, k)
    {
      var host := HostOffset(EntryOf(table, extended, k), bits);
      if host.Some? {
        r := r.Visit(locate, host.value);
      }
    }
  }

  /** The walk over a whole tree; it stops at the first table or count that is not staged. */
  method ListTree(l1: seq<byte>, tables: seq<seq<byte>>, staged: set<nat>, extended: bool, bits: nat,
                  locate: Locator) returns (r: Visits)
    requires Entries(|l1|, false) == |tables|
    ensures r == VisitTree(l1, tables, staged, extended, bits, locate, |tables|)
  {
    hide Entries, EntryOf, HostOffset, MaskOffset, VisitTable;
    r := Visits([], false);
    for i := 0 to |tables|
      invariant r == VisitTree(l1, tables, staged, extended, bits, locate, i) && !r.gap
    {
      var entry := EntryOf(l1, false, i);
      if MaskOffset(entry) == 0 {
        continue;
      }
      if i !in staged {
        r := Visits(r.refs, true);
        GapStays(l1, tables, staged, extended, bits, locate, i + 1, |tables|);
        return;
      }
      r := ListTable(r, tables[i], extended, bits, locate);
      r := r.Visit(locate, MaskOffset(entry));
      if r.gap {
        GapStays(l1, tables, staged, extended, bits, locate, i + 1, |tables|);
        return;
      }
    }
  }

  lemma {:induction false} GapStays(l1: seq<byte>, tables: seq<seq<byte>>, staged: set<nat>, extended: bool, bits: nat,
                                    locate: Locator, n: nat, m: nat)
    requires n <= m <= Entries(|l1|, false) == |tables| && VisitTree(l1, tables, staged, extended, bits, locate, n).gap
    ensures VisitTree(l1, tables, staged, extended, bits, locate, m) ==
              VisitTree(l1, tables, staged, extended, bits, locate, n)
    decreases m
  {
    hide Entries, EntryOf, HostOffset, MaskOffset, VisitTable;
    if n < m {
      GapStays(l1, tables, staged, extended, bits, locate, n, m - 1);
    }
  }

  /** What an update reports: the outcome over the counts, or that something was not staged. */
  datatype Answer = Counted(outcome: SnapshotRefcount.Outcome) | NotStaged | NoClusterSize

  /** The update over a tree. Everything visited before a gap is still checked first. */
  function TreeUpdated(blocks: seq<byte>, width: nat, v: Visits, dir: Direction): (seq<byte>, Answer)
    requires Staged(blocks, width, v.refs)
  {
    if !v.gap then
      var (b, o) := Updated(blocks, width, v.refs, dir);
      (b, Counted(o))
    else (blocks, if Checks(blocks, width, v.refs, dir) then NotStaged else Counted(Refusal(dir)))
  }

  /** Every staged count lies in the blocks. */
  ghost predicate InBlocks(blocks: seq<byte>, width: nat, locate: Locator) {
    && RefcountBlock.Supported(width) && |blocks| % 8 == 0
    && forall offset: nat :: locate(offset).Some? ==> locate(offset).value < RefcountBlock.Capacity(|blocks|, width)
  }

  lemma {:induction false} TableVisitsStaged(blocks: seq<byte>, width: nat, v: Visits, table: seq<byte>, extended: bool,
                                             bits: nat, locate: Locator, n: nat)
    requires n <= Entries(|table|, extended) && InBlocks(blocks, width, locate) && Staged(blocks, width, v.refs)
    ensures Staged(blocks, width, VisitTable(v, table, extended, bits, locate, n).refs)
  {
    hide Entries, EntryOf, HostOffset, RefcountBlock.Capacity;
    if n > 0 {
      TableVisitsStaged(blocks, width, v, table, extended, bits, locate, n - 1);
    }
  }

  lemma {:induction false} TreeVisitsStaged(blocks: seq<byte>, width: nat, l1: seq<byte>, tables: seq<seq<byte>>,
                                            staged: set<nat>, extended: bool, bits: nat, locate: Locator, n: nat)
    requires n <= Entries(|l1|, false) == |tables| && InBlocks(blocks, width, locate)
    ensures Staged(blocks, width, VisitTree(l1, tables, staged, extended, bits, locate, n).refs)
  {
    hide Entries, EntryOf, HostOffset, RefcountBlock.Capacity, MaskOffset, VisitTable;
    if n > 0 {
      TreeVisitsStaged(blocks, width, l1, tables, staged, extended, bits, locate, n - 1);
      var v := VisitTree(l1, tables, staged, extended, bits, locate, n - 1);
      TableVisitsStaged(blocks, width, v, tables[n - 1], extended, bits, locate, Entries(|tables[n - 1]|, extended));
    }
  }

  /** Creating or deleting a snapshot: walk the tree, check, apply. */
  method UpdateTree(blocks: array<byte>, width: nat, l1: seq<byte>, tables: seq<seq<byte>>, staged: set<nat>,
                    extended: bool, bits: nat, locate: Locator, dir: Direction) returns (r: Answer)
    requires Entries(|l1|, false) == |tables| && InBlocks(blocks[..], width, locate)
    modifies blocks
    ensures bits == 0 ==> r.NoClusterSize? && blocks[..] == old(blocks[..])
    ensures bits > 0 ==>
              var v := VisitTree(l1, tables, staged, extended, bits, locate, |tables|);
              && Staged(old(blocks[..]), width, v.refs)
              && (blocks[..], r) == TreeUpdated(old(blocks[..]), width, v, dir)
  {
    hide Entries, VisitTree, RefcountBlock.Capacity, Updated, Checks, InBlocks, Staged;
    if bits == 0 {
      return NoClusterSize;
    }
    TreeVisitsStaged(blocks[..], width, l1, tables, staged, extended, bits, locate, |tables|);
    var v := ListTree(l1, tables, staged, extended, bits, locate);
    if v.gap {
      var ok := CheckAll(blocks[..], width, v.refs, dir);
      return if ok then NotStaged else Counted(Refusal(dir));
    }
    var o := UpdateRefcounts(blocks, width, v.refs, dir);
    return Counted(o);
  }

  /** The checking pass over one side of a swap. */
  function SideChecked(blocks: seq<byte>, width: nat, v: Visits, dir: Direction): Answer
    requires Staged(blocks, width, v.refs)
  {
    if !Checks(blocks, width, v.refs, dir) then Counted(Refusal(dir)) else if v.gap then NotStaged else Counted(Done)
  }

  /** Switching trees: both sides checked, outgoing first, then both applied. */
  function TreeSwapped(blocks: seq<byte>, width: nat, from: Visits, to: Visits): (seq<byte>, Answer)
    requires Staged(blocks, width, from.refs) && Staged(blocks, width, to.refs)
  {
    if SideChecked(blocks, width, from, Decrement) !=
      Counted(Done) then (blocks, SideChecked(blocks, width, from, Decrement))
    else if SideChecked(blocks, width, to, Increment) !=
      Counted(Done) then (blocks, SideChecked(blocks, width, to, Increment))
    else
      var (b, o) := Swapped(blocks, width, from.refs, to.refs);
      (b, Counted(o))
  }

  method CheckSide(blocks: seq<byte>, width: nat, v: Visits, dir: Direction) returns (r: Answer)
    requires Staged(blocks, width, v.refs)
    ensures r == SideChecked(blocks, width, v, dir)
  {
    hide Checks, Staged;
    var ok := CheckAll(blocks, width, v.refs, dir);
    return if !ok then Counted(Refusal(dir)) else if v.gap then NotStaged else Counted(Done);
  }

  /** Both sides of a swap, once they have been listed. */
  method SwapListed(blocks: array<byte>, width: nat, from: Visits, to: Visits) returns (r: Answer)
    requires Staged(blocks[..], width, from.refs) && Staged(blocks[..], width, to.refs)
    modifies blocks
    ensures (blocks[..], r) == TreeSwapped(old(blocks[..]), width, from, to)
  {
    hide Checks, Staged, Swapped;
    r := CheckSide(blocks[..], width, from, Decrement);
    if r != Counted(Done) {
      return;
    }
    r := CheckSide(blocks[..], width, to, Increment);
    if r != Counted(Done) {
      return;
    }
    var o := SwapRefcounts(blocks, width, from.refs, to.refs);
    return Counted(o);
  }

  /** A tree as it is staged: its L1 table, its L2 tables, and which of them are at hand. */
  datatype Tree = Tree(l1: seq<byte>, tables: seq<seq<byte>>, staged: set<nat>)
  {
    predicate Valid() { Entries(|l1|, false) == |tables| }

    function Listed(extended: bool, bits: nat, locate: Locator): Visits
      requires Valid()
    {
      VisitTree(l1, tables, staged, extended, bits, locate, |tables|)
    }
  }

  /** Applying a snapshot: walk both trees, check both, then apply both. */
  method SwapTrees(blocks: array<byte>, width: nat, from: Tree, to: Tree, extended: bool, bits: nat, locate: Locator)
    returns (r: Answer)
    requires from.Valid() && to.Valid() && InBlocks(blocks[..], width, locate)
    modifies blocks
    ensures bits == 0 ==> r.NoClusterSize? && blocks[..] == old(blocks[..])
    ensures bits > 0 ==>
              var v, w := from.Listed(extended, bits, locate), to.Listed(extended, bits, locate);
              && Staged(old(blocks[..]), width, v.refs) && Staged(old(blocks[..]), width, w.refs)
              && (blocks[..], r) == TreeSwapped(old(blocks[..]), width, v, w)
  {
    hide Entries, VisitTree, RefcountBlock.Capacity, Swapped, Checks, InBlocks, Staged, TreeSwapped;
    if bits == 0 {
      return NoClusterSize;
    }
    TreeVisitsStaged(blocks[..], width, from.l1, from.tables, from.staged, extended, bits, locate, |from.tables|);
    TreeVisitsStaged(blocks[..], width, to.l1, to.tables, to.staged, extended, bits, locate, |to.tables|);
    var v := ListTree(from.l1, from.tables, from.staged, extended, bits, locate);
    var w := ListTree(to.l1, to.tables, to.staged, extended, bits, locate);
    r := SwapListed(blocks, width, v, w);
  }

  // ----- what is visited -----

  /** The count of an offset is staged and was visited. */
  predicate Visited(refs: seq<nat>, locate: Locator, offset: nat) {
    locate(offset).Some? && locate(offset).value in refs
  }

  lemma {:induction false} TableAllVisited(v: Visits, table: seq<byte>, extended: bool, bits: nat, locate: Locator,
                                           n: nat, k: nat)
    requires n <= Entries(|table|, extended) && k < n && !VisitTable(v, table, extended, bits, locate, n).gap
    ensures var host := HostOffset(EntryOf(table, extended, k), bits);
            host.Some? ==> Visited(VisitTable(v, table, extended, bits, locate, n).refs, locate, host.value)
  {
    hide Entries, EntryOf, HostOffset;
    if k < n - 1 {
      TableAllVisited(v, table, extended, bits, locate, n - 1, k);
    }
  }

  lemma {:induction false} TableKeepsVisits(v: Visits, table: seq<byte>, extended: bool, bits: nat, locate: Locator,
                                            n: nat)
    requires n <= Entries(|table|, extended)
    ensures var r := VisitTable(v, table, extended, bits, locate, n);
            (v.gap ==> r.gap) && forall c :: c in v.refs ==> c in r.refs
  {
    hide Entries, EntryOf, HostOffset;
    if n > 0 {
      TableKeepsVisits(v, table, extended, bits, locate, n - 1);
    }
  }

  /** A complete walk has visited every table and every cluster that an entry refers to. */
  lemma {:induction false} TreeAllVisited(l1: seq<byte>, tables: seq<seq<byte>>, staged: set<nat>, extended: bool,
                                          bits: nat, locate: Locator, n: nat, i: nat)
    requires n <= Entries(|l1|, false) == |tables| && i < n
    requires !VisitTree(l1, tables, staged, extended, bits, locate, n).gap
    requires MaskOffset(EntryOf(l1, false, i)) != 0
    ensures i in staged
    ensures var refs := VisitTree(l1, tables, staged, extended, bits, locate, n).refs;
            && Visited(refs, locate, MaskOffset(EntryOf(l1, false, i)))
            && forall k :: 0 <= k < Entries(|tables[i]|, extended) ==>
                 var host := HostOffset(EntryOf(tables[i], extended, k), bits);
                 host.Some? ==> Visited(refs, locate, host.value)
  {
    hide Entries, EntryOf, HostOffset, MaskOffset, VisitTable;
    var v, t := VisitTree(l1, tables, staged, extended, bits, locate, n - 1), tables[n - 1];
    var m := Entries(|t|, extended);
    TableKeepsVisits(v, t, extended, bits, locate, m);
    if i < n - 1 {
      TreeAllVisited(l1, tables, staged, extended, bits, locate, n - 1, i);
    } else {
      forall k | 0 <= k < m
        ensures var host := HostOffset(EntryOf(t, extended, k), bits);
                host.Some? ==> Visited(VisitTable(v, t, extended, bits, locate, m).refs, locate, host.value)
      {
        TableAllVisited(v, t, extended, bits, locate, m, k);
      }
    }
  }

  // ----- a snapshot shares every cluster -----

  /** The staged counts as the flag walk asks for them. */
  function CountsAt(blocks: seq<byte>, width: nat, locate: Locator): nat -> Option<nat>
    requires RefcountBlock.Supported(width)
  {
    (offset: nat) =>
      match locate(offset)
      case None => None
      case Some(c) => if c < RefcountBlock.Capacity(|blocks|, width) then Some(RefcountBlock.Entry(blocks, width, c))
        else None
  }

  /** After one more reference to everything visited, a visited cluster that was in use is shared. */
  lemma SharedNow(blocks: seq<byte>, width: nat, refs: seq<nat>, locate: Locator, offset: nat)
    requires Staged(blocks, width, refs) && Updated(blocks, width, refs, Increment).1.Done?
    requires Visited(refs, locate, offset)
    requires forall c :: c in refs ==>
              c < RefcountBlock.Capacity(|blocks|, width) && RefcountBlock.Entry(blocks, width, c) > 0
    ensures var count := CountsAt(Updated(blocks, width, refs, Increment).0, width, locate)(offset);
            count.Some? && count.value > 1
  {
    hide RefcountBlock.Entry, RefcountBlock.Capacity, RefcountBlock.Values;
    FailureIsNotAlwaysClean(blocks, width, refs, Increment);
    ApplyCounts(blocks, width, refs, Increment);
  }

  /**
   Creating a snapshot and then reconciling the flags of the same tree: the flag walk succeeds, and no entry of the tree
   that has a cluster or a table still claims to be its only owner.
   */
  lemma SnapshotSharesAll(blocks: seq<byte>, width: nat, l0: seq<byte>, c0: seq<seq<byte>>, staged: set<nat>,
                          extended: bool, bits: nat, locate: Locator, l1: seq<byte>, c: seq<seq<byte>>, i: nat)
    requires Entries(|l0|, false) == |c0| && i < |c0| && bits > 0
    requires var v := VisitTree(l0, c0, staged, extended, bits, locate, |c0|);
             && !v.gap && Staged(blocks, width, v.refs) && Updated(blocks, width, v.refs, Increment).1.Done?
             && (forall r :: r in v.refs ==>
                 r < RefcountBlock.Capacity(|blocks|, width) && RefcountBlock.Entry(blocks, width, r) > 0)
             && var view := View(bits, extended, CountsAt(Updated(blocks, width, v.refs, Increment).0, width, locate));
                Walked(l0, c0, l1, c, view, |c0|)
    ensures |l1| == |l0| && (MaskOffset(EntryOf(l1, false, i)) != 0 ==> !Copied(EntryOf(l1, false, i)))
    ensures MaskOffset(EntryOf(l0, false, i)) != 0 ==>
              forall k :: 0 <= k < Entries(|c[i]|, extended) ==> !Copied(EntryOf(c[i], extended, k))
  {
    hide Entries, EntryOf, HostOffset, MaskOffset, VisitTree, RefcountBlock.Entry, RefcountBlock.Capacity, Updated,
      Walked, Copied, CountsAt;
    var v := VisitTree(l0, c0, staged, extended, bits, locate, |c0|);
    var view := View(bits, extended, CountsAt(Updated(blocks, width, v.refs, Increment).0, width, locate));
    TreeIsReady(blocks, width, l0, c0, staged, extended, bits, locate);
    TreeAgrees(l0, c0, l1, c, staged, view, i);
    if MaskOffset(EntryOf(l0, false, i)) != 0 {
      TreeAllVisited(l0, c0, staged, extended, bits, locate, |c0|, i);
      SharedNow(blocks, width, v.refs, locate, MaskOffset(EntryOf(l0, false, i)));
      SameSize(l0, c0, l1, c, view, i);
      forall k | 0 <= k < Entries(|c[i]|, extended)
        ensures !Copied(EntryOf(c[i], extended, k))
      {
        TableHosts(l0, c0, l1, c, view, i, k);
        assert Agrees(EntryOf(c[i], extended, k), view);
        var host := HostOffset(EntryOf(c0[i], extended, k), bits);
        if host.Some? {
          SharedNow(blocks, width, v.refs, locate, host.value);
        }
      }
    }
  }

  lemma SameSize(l0: seq<byte>, c0: seq<seq<byte>>, l1: seq<byte>, c: seq<seq<byte>>, view: View, i: nat)
    requires Walked(l0, c0, l1, c, view, |c0|) && i < |c0|
    ensures |c| == |c0| && |c[i]| == |c0[i]|
  {
    hide EntryOf, Fixed, MaskOffset;
  }

  /** The flag walk leaves the host offset of every entry alone. */
  lemma TableHosts(l0: seq<byte>, c0: seq<seq<byte>>, l1: seq<byte>, c: seq<seq<byte>>, view: View, i: nat, k: nat)
    requires Walked(l0, c0, l1, c, view, |c0|) && i < |c0| && |c| == |c0| && |c[i]| == |c0[i]|
    requires k < Entries(|c0[i]|, view.extended)
    ensures HostOffset(EntryOf(c[i], view.extended, k), view.bits) ==
              HostOffset(EntryOf(c0[i], view.extended, k), view.bits)
  {
    hide Entries, EntryOf, Fixed, MaskOffset, HostOffset, Cleared, Qcow2Metadata.Flagged;
    var t, rule := c0[i], view.L2();
    var e := EntryOf(t, view.extended, k);
    L2RuleIsFlagRule(view.bits, view.counts);
    EntryBound(t, view.extended, k);
    if MaskOffset(EntryOf(l0, false, i)) != 0 {
      FixedEntry(t, view.extended, rule, Entries(|t|, view.extended), k);
      assert Cleared(e) == Marked(e, false);
      forall on
        ensures HostOffset(Marked(e, on), view.bits) == HostOffset(e, view.bits)
      {
        MarkedKeepsRest(e, on, view.bits);
      }
    }
  }

  /** A tree that the update could walk can be walked for its flags. */
  lemma TreeIsReady(blocks: seq<byte>, width: nat, l0: seq<byte>, c0: seq<seq<byte>>, staged: set<nat>, extended: bool,
                    bits: nat, locate: Locator)
    requires Entries(|l0|, false) == |c0|
    requires var v := VisitTree(l0, c0, staged, extended, bits, locate, |c0|);
             && !v.gap && Staged(blocks, width, v.refs) && Updated(blocks, width, v.refs, Increment).1.Done?
             && (forall r :: r in v.refs ==>
                 r < RefcountBlock.Capacity(|blocks|, width) && RefcountBlock.Entry(blocks, width, r) > 0)
    ensures var v := VisitTree(l0, c0, staged, extended, bits, locate, |c0|);
            AllReady(l0, c0, staged, View(bits, extended,
              CountsAt(Updated(blocks, width, v.refs, Increment).0, width, locate)))
  {
    hide Entries, EntryOf, HostOffset, MaskOffset, VisitTree, RefcountBlock.Entry, RefcountBlock.Capacity, Updated,
      CountsAt, Cleared, Qcow2Metadata.Flagged;
    var v := VisitTree(l0, c0, staged, extended, bits, locate, |c0|);
    var view := View(bits, extended, CountsAt(Updated(blocks, width, v.refs, Increment).0, width, locate));
    forall i | 0 <= i < |c0|
      ensures Ready(EntryOf(l0, false, i), c0[i], i in staged, view)
    {
      if MaskOffset(EntryOf(l0, false, i)) != 0 {
        TreeAllVisited(l0, c0, staged, extended, bits, locate, |c0|, i);
        SharedNow(blocks, width, v.refs, locate, MaskOffset(EntryOf(l0, false, i)));
        forall k | 0 <= k < Entries(|c0[i]|, extended)
          ensures !Blocked(c0[i], extended, view.L2(), k)
        {
          var host := HostOffset(EntryOf(c0[i], extended, k), bits);
          if host.Some? {
            SharedNow(blocks, width, v.refs, locate, host.value);
          }
        }
      }
    }
  }

  // ----- how often a cluster is listed -----

  /** Entry k of a table has its count at c. */
  predicate CountedAt(table: seq<byte>, extended: bool, bits: nat, locate: Locator, k: nat, c: nat)
    requires k < Entries(|table|, extended)
  {
    var host := HostOffset(EntryOf(table, extended, k), bits);
    host.Some? && locate(host.value) == Some(c)
  }

  ghost function EntriesAt(table: seq<byte>, extended: bool, bits: nat, locate: Locator, n: nat, c: nat): set<nat>
    requires n <= Entries(|table|, extended)
  {
    set k: nat | k < n && CountedAt(table, extended, bits, locate, k, c)
  }

  lemma CountOne(refs: seq<nat>, x: nat, c: nat)
    ensures Count(refs + [x], c) == Count(refs, c) + if x == c then 1 else 0
  {
    assert (refs + [x])[..|refs|] == refs;
  }

  /** A table adds to the count of c one reference for each of its entries there. */
  lemma {:induction false} TableCounts(v: Visits, table: seq<byte>, extended: bool, bits: nat, locate: Locator, n: nat,
                                       c: nat)
    requires n <= Entries(|table|, extended) && !VisitTable(v, table, extended, bits, locate, n).gap
    ensures !v.gap
    ensures Count(VisitTable(v, table, extended, bits, locate, n).refs, c) ==
            Count(v.refs, c) + |EntriesAt(table, extended, bits, locate, n, c)|
  {
    hide Entries, EntryOf, HostOffset, Count, EntriesAt;
    EntriesAtStep(table, extended, bits, locate, n, c);
    if n > 0 {
      TableCounts(v, table, extended, bits, locate, n - 1, c);
      var w := VisitTable(v, table, extended, bits, locate, n - 1);
      var host := HostOffset(EntryOf(table, extended, n - 1), bits);
      if host.Some? {
        CountOne(w.refs, locate(host.value).value, c);
      }
    }
  }

  lemma EntriesAtStep(table: seq<byte>, extended: bool, bits: nat, locate: Locator, n: nat, c: nat)
    requires n <= Entries(|table|, extended)
    ensures |EntriesAt(table, extended, bits, locate, n, c)| ==
            if n == 0 then 0
            else |EntriesAt(table, extended, bits, locate, n - 1, c)| +
                 if CountedAt(table, extended, bits, locate, n - 1, c) then 1 else 0
  {
    hide Entries, CountedAt;
    var now := EntriesAt(table, extended, bits, locate, n, c);
    if n > 0 {
      var before := EntriesAt(table, extended, bits, locate, n - 1, c);
      assert now == if CountedAt(table, extended, bits, locate, n - 1, c) then before + {n - 1} else before;
    } else {
      assert now == {};
    }
  }

  /** L2 entries of the first n slots whose count is at c. */
  ghost function TreeEntriesAt(l1: seq<byte>, tables: seq<seq<byte>>, extended: bool, bits: nat, locate: Locator,
                               n: nat, c: nat): set<(nat, nat)>
    requires n <= Entries(|l1|, false) == |tables|
  {
    set i: nat, k: nat | i < n && MaskOffset(EntryOf(l1, false, i)) != 0 && k < Entries(|tables[i]|, extended)
      && CountedAt(tables[i], extended, bits, locate, k, c) :: (i, k)
  }

  /** L2 tables of the first n slots whose count is at c. */
  ghost function TreeTablesAt(l1: seq<byte>, locate: Locator, n: nat, c: nat): set<nat>
    requires n <= Entries(|l1|, false)
  {
    set i: nat | i < n && MaskOffset(EntryOf(l1, false, i)) != 0 && locate(MaskOffset(EntryOf(l1, false, i))) == Some(c)
  }

  ghost function Paired(i: nat, s: set<nat>): set<(nat, nat)> {
    set k | k in s :: (i, k)
  }

  lemma {:induction false} PairedSize(i: nat, s: set<nat>)
    ensures |Paired(i, s)| == |s|
    decreases |s|
  {
    if s == {} {
      assert Paired(i, s) == {};
    } else {
      var x :| x in s;
      PairedSize(i, s - {x});
      assert Paired(i, s) == Paired(i, s - {x}) + {(i, x)};
    }
  }

  lemma SlotEntries(l1: seq<byte>, tables: seq<seq<byte>>, extended: bool, bits: nat, locate: Locator, n: nat, c: nat)
    requires 0 < n <= Entries(|l1|, false) == |tables|
    ensures TreeEntriesAt(l1, tables, extended, bits, locate, n, c) ==
            TreeEntriesAt(l1, tables, extended, bits, locate, n - 1, c) +
            if MaskOffset(EntryOf(l1, false, n - 1)) == 0 then {}
            else Paired(n - 1,
                        EntriesAt(tables[n - 1], extended, bits, locate, Entries(|tables[n - 1]|, extended), c))
  {
    hide Entries, EntryOf, MaskOffset, CountedAt;
  }

  lemma SlotTables(l1: seq<byte>, locate: Locator, n: nat, c: nat)
    requires 0 < n <= Entries(|l1|, false)
    ensures TreeTablesAt(l1, locate, n, c) ==
            TreeTablesAt(l1, locate, n - 1, c) +
            if MaskOffset(EntryOf(l1, false, n - 1)) != 0 && locate(MaskOffset(EntryOf(l1, false, n - 1))) == Some(c)
            then {n - 1} else {}
  {
    hide Entries, EntryOf, MaskOffset;
  }

  /** What one slot adds to the sizes of both sets. */
  lemma SlotSizes(l1: seq<byte>, tables: seq<seq<byte>>, extended: bool, bits: nat, locate: Locator, n: nat, c: nat)
    requires 0 < n <= Entries(|l1|, false) == |tables|
    ensures var offset := MaskOffset(EntryOf(l1, false, n - 1));
            && |TreeEntriesAt(l1, tables, extended, bits, locate, n, c)| ==
               |TreeEntriesAt(l1, tables, extended, bits, locate, n - 1, c)| +
               (if offset == 0 then 0
                else |EntriesAt(tables[n - 1], extended, bits, locate, Entries(|tables[n - 1]|, extended), c)|)
            && |TreeTablesAt(l1, locate, n, c)| ==
               |TreeTablesAt(l1, locate, n - 1, c)| + if offset != 0 && locate(offset) == Some(c) then 1 else 0
  {
    hide Entries, EntryOf, MaskOffset, CountedAt, EntriesAt;
    SlotEntries(l1, tables, extended, bits, locate, n, c);
    SlotTables(l1, locate, n, c);
    PairedSize(n - 1, EntriesAt(tables[n - 1], extended, bits, locate, Entries(|tables[n - 1]|, extended), c));
  }

  /** What one slot adds to the count of c. */
  lemma SlotCounts(v: Visits, entry: nat, table: seq<byte>, staged: bool, extended: bool, bits: nat, locate: Locator,
                   c: nat)
    requires !VisitSlot(v, entry, table, staged, extended, bits, locate).gap
    ensures var offset := MaskOffset(entry);
            Count(VisitSlot(v, entry, table, staged, extended, bits, locate).refs, c) ==
            Count(v.refs, c) +
            if offset == 0 then 0
            else |EntriesAt(table, extended, bits, locate, Entries(|table|, extended), c)| +
                 if locate(offset) == Some(c) then 1 else 0
  {
    hide Entries, EntryOf, MaskOffset, HostOffset, VisitTable, EntriesAt, Count;
    if MaskOffset(entry) != 0 {
      var p := Entries(|table|, extended);
      var w := VisitTable(v, table, extended, bits, locate, p);
      TableCounts(v, table, extended, bits, locate, p, c);
      CountOne(w.refs, locate(MaskOffset(entry)).value, c);
    }
  }

  /** A complete walk lists a cluster exactly as often as tables and entries refer to it. */
  lemma {:induction false} TreeCounts(l1: seq<byte>, tables: seq<seq<byte>>, staged: set<nat>, extended: bool,
                                      bits: nat, locate: Locator, n: nat, c: nat)
    requires n <= Entries(|l1|, false) == |tables|
    requires !VisitTree(l1, tables, staged, extended, bits, locate, n).gap
    ensures Count(VisitTree(l1, tables, staged, extended, bits, locate, n).refs, c) ==
            |TreeEntriesAt(l1, tables, extended, bits, locate, n, c)| + |TreeTablesAt(l1, locate, n, c)|
  {
    hide Entries, EntryOf, MaskOffset, EntriesAt, Count, VisitSlot, TreeEntriesAt, TreeTablesAt;
    if n > 0 {
      var v, entry := VisitTree(l1, tables, staged, extended, bits, locate, n - 1), EntryOf(l1, false, n - 1);
      NoGapBefore(v, entry, tables[n - 1], n - 1 in staged, extended, bits, locate);
      TreeCounts(l1, tables, staged, extended, bits, locate, n - 1, c);
      SlotSizes(l1, tables, extended, bits, locate, n, c);
      SlotCounts(v, entry, tables[n - 1], n - 1 in staged, extended, bits, locate, c);
    } else {
      NothingAt(l1, tables, staged, extended, bits, locate, c);
    }
  }

  lemma NoGapBefore(v: Visits, entry: nat, table: seq<byte>, staged: bool, extended: bool, bits: nat, locate: Locator)
    requires !VisitSlot(v, entry, table, staged, extended, bits, locate).gap
    ensures !v.gap
  {
  }

  lemma NothingAt(l1: seq<byte>, tables: seq<seq<byte>>, staged: set<nat>, extended: bool, bits: nat, locate: Locator,
                  c: nat)
    requires Entries(|l1|, false) == |tables|
    ensures TreeEntriesAt(l1, tables, extended, bits, locate, 0, c) == {} && TreeTablesAt(l1, locate, 0, c) == {}
    ensures Count(VisitTree(l1, tables, staged, extended, bits, locate, 0).refs, c) == 0
  {
    hide Entries, EntryOf, MaskOffset, CountedAt;
  }
}
