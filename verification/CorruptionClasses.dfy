/** Each corruption class creates exactly its own discrepancy on a clean image. */
module CorruptionClasses {
  import opened Bytes
  import opened Options
  import opened FreeClusters
  import opened Qcow2Metadata
  import opened Corruptor

  datatype Class = RefcountZero | RefcountTooHigh | LeakedCluster | StaleCopied | Overlapping

  function ClusterOf(h: Header, offset: nat): nat {
    Quotient(offset, h.ClusterSize())
  }

  predicate PointsAt(h: Header, entry: nat, c: nat) {
    MaskOffset(entry) != 0 && ClusterOf(h, MaskOffset(entry)) == c
  }

  /** L2 entries that map a guest cluster to host cluster c. */
  ghost function DataRefs(f: seq<byte>, h: Header, c: nat): set<(nat, nat)>
    requires WellFormed(f, h)
  {
    set i: nat, j: nat | i < h.l1Size && j < h.PerTable() && PointsAt(h, L2Entry(f, h, i, j), c) :: (i, j)
  }

  ghost function TableRefs(f: seq<byte>, h: Header, c: nat): set<nat>
    requires WellFormed(f, h)
  {
    set i: nat | i < h.l1Size && TableAt(f, h, i) != 0 && ClusterOf(h, TableAt(f, h, i)) == c
  }

  ghost function BlockRefs(f: seq<byte>, h: Header, c: nat): set<nat>
    requires WellFormed(f, h)
  {
    set s: nat | s < SlotCount(|f|, h) && BlockAt(f, h, s) != 0 && ClusterOf(h, BlockAt(f, h, s)) == c
  }

  function Covers(h: Header, offset: nat, clusters: nat, c: nat): nat {
    if ClusterOf(h, offset) <= c < ClusterOf(h, offset) + clusters then 1 else 0
  }

  /** References from the header, the L1 table, the refcount table and the entries of both. */
  ghost function MetaRefs(f: seq<byte>, h: Header, c: nat): nat
    requires WellFormed(f, h)
  {
    Covers(h, 0, 1, c) + Covers(h, h.l1Offset, Clusters(8 * h.l1Size, h), c)
    + Covers(h, h.tableOffset, h.tableClusters, c) + |TableRefs(f, h, c)| + |BlockRefs(f, h, c)|
  }

  ghost function References(f: seq<byte>, h: Header, c: nat): nat
    requires WellFormed(f, h)
  {
    |DataRefs(f, h, c)| + MetaRefs(f, h, c)
  }

  /** Stored count minus references: negative for an under-count, positive for an over-count. */
  ghost function Discrepancy(f: seq<byte>, h: Header, c: nat): int
    requires WellFormed(f, h) && c < Clusters(|f|, h)
  {
    StoredCount(f, h, c) - References(f, h, c)
  }

  /** Every mapped cluster lies in the file. */
  predicate InFile(f: seq<byte>, h: Header)
    requires WellFormed(f, h)
  {
    forall i, j :: 0 <= i < h.l1Size && 0 <= j < h.PerTable() && DataOffset(f, h, i, j) != 0 ==>
      ClusterOf(h, DataOffset(f, h, i, j)) < Clusters(|f|, h)
  }

  /** An entry whose COPIED flag is not the same as "the count is one". */
  predicate FlagWrong(f: seq<byte>, h: Header, i: nat, j: nat)
    requires WellFormed(f, h) && InFile(f, h) && i < h.l1Size && j < h.PerTable()
  {
    var c := ClusterOf(h, DataOffset(f, h, i, j));
    DataOffset(f, h, i, j) != 0 && (Copied(L2Entry(f, h, i, j)) != (StoredCount(f, h, c) == 1))
  }

  ghost predicate Clean(f: seq<byte>, h: Header) {
    && WellFormed(f, h) && InFile(f, h)
    && (forall c :: 0 <= c < Clusters(|f|, h) ==> StoredCount(f, h, c) == References(f, h, c) <= 1)
    && (forall i, j :: 0 <= i < h.l1Size && 0 <= j < h.PerTable() ==> !FlagWrong(f, h, i, j))
  }

  predicate Corruptible(f: seq<byte>, h: Header) {
    && WellFormed(f, h) && InFile(f, h) && h.l1Size > 0 && h.PerTable() > 1
    && TableAt(f, h, 0) != 0 && DataOffset(f, h, 0, 0) != 0
  }

  /** The L2 entry a class works on; stale_copied prefers the second. */
  function Target(f: seq<byte>, h: Header, cls: Class): nat
    requires Corruptible(f, h)
  {
    if cls.StaleCopied? && DataOffset(f, h, 0, 1) != 0 then 1 else 0
  }

  function TargetCluster(f: seq<byte>, h: Header, cls: Class): (c: nat)
    requires Corruptible(f, h)
    ensures c < Clusters(|f|, h)
  {
    ClusterOf(h, DataOffset(f, h, 0, Target(f, h, cls)))
  }

  /** The L2 index a class overwrites and the entry it puts there, if any. */
  function NewEntry(f: seq<byte>, h: Header, cls: Class): Option<(nat, nat)>
    requires Corruptible(f, h)
  {
    var entry := L2Entry(f, h, 0, Target(f, h, cls));
    match cls
    case RefcountZero => None
    case RefcountTooHigh => Some((0, Cleared(entry)))
    case LeakedCluster => Some((0, 0))
    case StaleCopied => Some((Target(f, h, cls), Flagged(entry)))
    case Overlapping => Some((1, entry))
  }

  /** The count a class writes, if it writes one. */
  function NewCount(cls: Class): Option<nat> {
    match cls
    case RefcountZero => Some(0)
    case RefcountTooHigh => Some(2)
    case StaleCopied => Some(2)
    case _ => None
  }

  lemma EntryWidth(f: seq<byte>, h: Header, i: nat, j: nat)
    requires WellFormed(f, h) && i < h.l1Size && j < h.PerTable()
    ensures L2Entry(f, h, i, j) < U64
  {
    if TableAt(f, h, i) != 0 {
      var at := TableAt(f, h, i) + 8 * j;
      BEInverse(f[at..at + 8]);
      WidthLimits();
    }
  }

  lemma NewEntryWidth(f: seq<byte>, h: Header, cls: Class)
    requires Corruptible(f, h)
    ensures NewEntry(f, h, cls).Some? ==>
              NewEntry(f, h, cls).value.0 < h.PerTable() && NewEntry(f, h, cls).value.1 < U64
  {
    hide Pow2, GetBE, TableAt, WellFormed, Cleared, Flagged, L2Entry;
    var entry := L2Entry(f, h, 0, Target(f, h, cls));
    EntryWidth(f, h, 0, Target(f, h, cls));
    FlagNotInMask(entry);
    assert Cleared(entry) < U64 by { CopiedBelow(entry); }
  }

  /** The file after the L2 write of a class. */
  function Remapped(f: seq<byte>, h: Header, cls: Class): seq<byte>
    requires Corruptible(f, h)
  {
    NewEntryWidth(f, h, cls);
    match NewEntry(f, h, cls)
    case None => f
    case Some((j, v)) => WithL2(f, h, j, v)
  }

  /** The entry at L2 position (i, k) once a class has done its work. */
  function EntryAfter(f: seq<byte>, h: Header, cls: Class, i: nat, k: nat): nat
    requires Corruptible(f, h) && i < h.l1Size && k < h.PerTable()
  {
    var w := NewEntry(f, h, cls);
    if w.Some? && i == 0 && k == w.value.0 then w.value.1 else L2Entry(f, h, i, k)
  }

  lemma RemapEffect(f: seq<byte>, h: Header, cls: Class)
    requires Corruptible(f, h)
    ensures SameTables(f, Remapped(f, h, cls), h)
    ensures forall c :: 0 <= c < Clusters(|f|, h) ==> StoredCount(Remapped(f, h, cls), h, c) == StoredCount(f, h, c)
    ensures forall i, k :: 0 <= i < h.l1Size && 0 <= k < h.PerTable() ==>
              L2Entry(Remapped(f, h, cls), h, i, k) == EntryAfter(f, h, cls, i, k)
  {
    hide Pow2, GetBE, TableAt, BlockAt, WithL2, NewEntry, L2Entry, StoredCount, SlotCount, Clusters;
    NewEntryWidth(f, h, cls);
    match NewEntry(f, h, cls)
    case None =>
    case Some((j, v)) => L2Written(f, h, j, v);
  }

  /** The whole corruption: the L2 write, then the count unless its block is missing. */
  function Corrupt(f: seq<byte>, h: Header, cls: Class): (seq<byte>, bool)
    requires Corruptible(f, h)
  {
    RemapEffect(f, h, cls);
    var g, c := Remapped(f, h, cls), TargetCluster(f, h, cls);
    match NewCount(cls)
    case None => (g, true)
    case Some(n) => if HasBlock(g, h, c) then (WithCount(g, h, c, n), true) else (g, false)
  }

  function CountAfter(f: seq<byte>, h: Header, cls: Class, c: nat): nat
    requires Corruptible(f, h) && c < Clusters(|f|, h)
  {
    if NewCount(cls).Some? && c == TargetCluster(f, h, cls) && HasBlock(f, h, c) then NewCount(cls).value
    else StoredCount(f, h, c)
  }

  lemma CorruptEffect(f: seq<byte>, h: Header, cls: Class)
    requires Corruptible(f, h)
    ensures SameTables(f, Corrupt(f, h, cls).0, h)
    ensures Corrupt(f, h, cls).1 <==> NewCount(cls).None? || HasBlock(f, h, TargetCluster(f, h, cls))
    ensures forall c :: 0 <= c < Clusters(|f|, h) ==>
              StoredCount(Corrupt(f, h, cls).0, h, c) == CountAfter(f, h, cls, c)
    ensures forall i, k :: 0 <= i < h.l1Size && 0 <= k < h.PerTable() ==>
              L2Entry(Corrupt(f, h, cls).0, h, i, k) == EntryAfter(f, h, cls, i, k)
  {
    hide Pow2, GetBE, TableAt, BlockAt, WithCount, Remapped, NewEntry, EntryAfter, L2Entry, StoredCount, SlotCount,
      Clusters, TargetCluster;
    RemapEffect(f, h, cls);
    var g, c := Remapped(f, h, cls), TargetCluster(f, h, cls);
    assert HasBlock(g, h, c) == HasBlock(f, h, c);
    if NewCount(cls).Some? && HasBlock(g, h, c) {
      CountWritten(g, h, c, NewCount(cls).value);
    }
  }

  /** References after a corruption: only the entry it wrote can have moved. */
  lemma ReferencesAfter(f: seq<byte>, h: Header, cls: Class, c: nat)
    requires Corruptible(f, h)
    ensures SameTables(f, Corrupt(f, h, cls).0, h)
    ensures MetaRefs(Corrupt(f, h, cls).0, h, c) == MetaRefs(f, h, c)
    ensures DataRefs(Corrupt(f, h, cls).0, h, c) ==
            match NewEntry(f, h, cls)
            case None => DataRefs(f, h, c)
            case Some((j, v)) => if PointsAt(h, v, c) then DataRefs(f, h, c) + {(0, j)}
              else DataRefs(f, h, c) - {(0, j)}
  {
    hide GetBE, Pow2, MaskOffset, Corrupt, TableAt, BlockAt, L2Entry, Quotient, SlotCount, PointsAt, WellFormed,
      NewEntry, StoredCount;
    CorruptEffect(f, h, cls);
    NewEntryWidth(f, h, cls);
    var g := Corrupt(f, h, cls).0;
    assert TableRefs(g, h, c) == TableRefs(f, h, c);
    assert BlockRefs(g, h, c) == BlockRefs(f, h, c);
  }

  lemma Membership(f: seq<byte>, h: Header, c: nat, j: nat)
    requires WellFormed(f, h) && h.l1Size > 0 && j < h.PerTable()
    ensures (0, j) in DataRefs(f, h, c) <==> PointsAt(h, L2Entry(f, h, 0, j), c)
  {
    hide GetBE, Pow2, PointsAt, L2Entry;
    assert L2Entry(f, h, 0, j) == L2Entry(f, h, 0, j);
  }

  lemma ZeroPointsNowhere(h: Header, c: nat)
    ensures !PointsAt(h, 0, c)
  {
  }

  lemma Singleton<T>(s: set<T>, x: T)
    requires x in s && |s| <= 1
    ensures s == {x}
  {
    assert |s - {x}| == |s| - 1;
  }

  /** In a clean image a mapped cluster has one reference, the entry that maps it. */
  lemma Exclusive(f: seq<byte>, h: Header, i: nat, j: nat)
    requires Clean(f, h) && i < h.l1Size && j < h.PerTable() && DataOffset(f, h, i, j) != 0
    ensures var c := ClusterOf(h, DataOffset(f, h, i, j));
            DataRefs(f, h, c) == {(i, j)} && MetaRefs(f, h, c) == 0 && StoredCount(f, h, c) == 1 && HasBlock(f, h, c)
  {
    hide GetBE, Pow2, MaskOffset, TableAt, BlockAt, L2Entry, Quotient, SlotCount, WellFormed, MetaRefs;
    var c := ClusterOf(h, DataOffset(f, h, i, j));
    assert StoredCount(f, h, c) == References(f, h, c) <= 1;
    assert PointsAt(h, L2Entry(f, h, i, j), c);
    Singleton(DataRefs(f, h, c), (i, j));
  }

  /** What each class is meant to do to stored count minus references. */
  function Injected(f: seq<byte>, h: Header, cls: Class, c: nat): int
    requires Corruptible(f, h)
  {
    var t := TargetCluster(f, h, cls);
    match cls
    case RefcountZero => if c == t then -1 else 0
    case Overlapping => if c == t then -1 else if PointsAt(h, L2Entry(f, h, 0, 1), c) then 1 else 0
    case _ => if c == t then 1 else 0
  }

  lemma InjectsDiscrepancy(f: seq<byte>, h: Header, cls: Class, c: nat)
    requires Clean(f, h) && Corruptible(f, h) && c < Clusters(|f|, h)
    ensures SameTables(f, Corrupt(f, h, cls).0, h)
    ensures Corrupt(f, h, cls).1
    ensures Discrepancy(Corrupt(f, h, cls).0, h, c) == Injected(f, h, cls, c)
  {
    hide GetBE, Pow2, MaskOffset, Corrupt, TableAt, BlockAt, L2Entry, Quotient, SlotCount, WellFormed, StoredCount,
      DataRefs, MetaRefs, Clusters, Cleared, Flagged;
    CorruptEffect(f, h, cls);
    ReferencesAfter(f, h, cls, c);
    var k := Target(f, h, cls);
    var entry := L2Entry(f, h, 0, k);
    EntryWidth(f, h, 0, k);
    FlagNotInMask(entry);
    Exclusive(f, h, 0, k);
    assert StoredCount(f, h, c) == References(f, h, c);
    ZeroPointsNowhere(h, c);
    Membership(f, h, c, 0);
    Membership(f, h, c, 1);
    if cls.Overlapping? && DataOffset(f, h, 0, 1) != 0 {
      Exclusive(f, h, 0, 1);
    }
  }

  lemma EntryAfterInFile(f: seq<byte>, h: Header, cls: Class, i: nat, k: nat)
    requires Corruptible(f, h) && i < h.l1Size && k < h.PerTable() && MaskOffset(EntryAfter(f, h, cls, i, k)) != 0
    ensures ClusterOf(h, MaskOffset(EntryAfter(f, h, cls, i, k))) < Clusters(|f|, h)
  {
    hide GetBE, Pow2, MaskOffset, TableAt, BlockAt, L2Entry, Quotient, SlotCount, WellFormed, Clusters, Cleared,
      Flagged;
    var j := Target(f, h, cls);
    EntryWidth(f, h, 0, j);
    FlagNotInMask(L2Entry(f, h, 0, j));
    MaskOfZero();
    assert DataOffset(f, h, i, k) != 0 ==> ClusterOf(h, DataOffset(f, h, i, k)) < Clusters(|f|, h);
    assert DataOffset(f, h, 0, j) != 0 ==> ClusterOf(h, DataOffset(f, h, 0, j)) < Clusters(|f|, h);
  }

  lemma MaskOfZero()
    ensures MaskOffset(0) == 0
  {
  }

  lemma StaysInFile(f: seq<byte>, h: Header, cls: Class)
    requires Corruptible(f, h)
    ensures SameTables(f, Corrupt(f, h, cls).0, h) && InFile(Corrupt(f, h, cls).0, h)
  {
    hide GetBE, Pow2, MaskOffset, TableAt, BlockAt, L2Entry, Quotient, SlotCount, WellFormed, Clusters, EntryAfter,
      Corrupt, NewEntry;
    CorruptEffect(f, h, cls);
    var g := Corrupt(f, h, cls).0;
    forall i, j | 0 <= i < h.l1Size && 0 <= j < h.PerTable() && DataOffset(g, h, i, j) != 0
      ensures ClusterOf(h, DataOffset(g, h, i, j)) < Clusters(|g|, h)
    {
      EntryAfterInFile(f, h, cls, i, j);
    }
  }

  /** The entries whose flag a class makes wrong: its target, for two of the classes. */
  predicate FlagBroken(f: seq<byte>, h: Header, cls: Class, i: nat, k: nat)
    requires Corruptible(f, h)
  {
    (cls.RefcountZero? || cls.StaleCopied?) && i == 0 && k == Target(f, h, cls)
  }

  lemma InjectsFlag(f: seq<byte>, h: Header, cls: Class, i: nat, k: nat)
    requires Clean(f, h) && Corruptible(f, h) && i < h.l1Size && k < h.PerTable()
    ensures SameTables(f, Corrupt(f, h, cls).0, h) && InFile(Corrupt(f, h, cls).0, h)
    ensures FlagWrong(Corrupt(f, h, cls).0, h, i, k) <==> FlagBroken(f, h, cls, i, k)
  {
    hide GetBE, Pow2, MaskOffset, Corrupt, TableAt, BlockAt, L2Entry, Quotient, SlotCount, WellFormed, StoredCount,
      DataRefs, MetaRefs, Clusters, Cleared, Flagged, Copied;
    StaysInFile(f, h, cls);
    CorruptEffect(f, h, cls);
    var j := Target(f, h, cls);
    EntryWidth(f, h, 0, j);
    FlagNotInMask(L2Entry(f, h, 0, j));
    MaskOfZero();
    Exclusive(f, h, 0, j);
    assert !FlagWrong(f, h, 0, j) && !FlagWrong(f, h, i, k);
    if DataOffset(f, h, i, k) != 0 {
      Exclusive(f, h, i, k);
      assert ClusterOf(h, DataOffset(f, h, i, k)) == TargetCluster(f, h, cls) ==> {(i, k)} == {(0, j)};
      assert {(i, k)} == {(0, j)} ==> (i, k) in {(0, j)};
    }
  }

  /** On a clean image every class succeeds and injects its own discrepancy and no other. */
  lemma InjectsExactly(f: seq<byte>, h: Header, cls: Class)
    requires Clean(f, h) && Corruptible(f, h)
    ensures Corrupt(f, h, cls).1
    ensures SameTables(f, Corrupt(f, h, cls).0, h) && InFile(Corrupt(f, h, cls).0, h)
    ensures forall c :: 0 <= c < Clusters(|f|, h) ==> Discrepancy(Corrupt(f, h, cls).0, h, c) == Injected(f, h, cls, c)
    ensures forall i, k :: 0 <= i < h.l1Size && 0 <= k < h.PerTable() ==>
              (FlagWrong(Corrupt(f, h, cls).0, h, i, k) <==> FlagBroken(f, h, cls, i, k))
    ensures !Clean(Corrupt(f, h, cls).0, h)
  {
    hide GetBE, Pow2, Corrupt, WellFormed, StoredCount, L2Entry, Clusters, SlotCount, DataOffset, DataRefs, MetaRefs,
      Quotient, NewEntry, FlagWrong;
    var g := Corrupt(f, h, cls).0;
    StaysInFile(f, h, cls);
    forall c | 0 <= c < Clusters(|f|, h)
      ensures Discrepancy(g, h, c) == Injected(f, h, cls, c)
    {
      InjectsDiscrepancy(f, h, cls, c);
    }
    forall i, k | 0 <= i < h.l1Size && 0 <= k < h.PerTable()
      ensures FlagWrong(g, h, i, k) <==> FlagBroken(f, h, cls, i, k)
    {
      InjectsFlag(f, h, cls, i, k);
    }
    var t := TargetCluster(f, h, cls);
    InjectsDiscrepancy(f, h, cls, t);
  }

  /** The cluster the caller is told about is the one whose count is off, except when the second entry was taken. */
  lemma ReportedCluster(f: seq<byte>, h: Header, cls: Class)
    requires Clean(f, h) && Corruptible(f, h)
    ensures SameTables(f, Corrupt(f, h, cls).0, h)
    ensures Discrepancy(Corrupt(f, h, cls).0, h, ClusterOf(h, DataOffset(f, h, 0, 0))) == 0 <==>
            cls.StaleCopied? && DataOffset(f, h, 0, 1) != 0
  {
    hide GetBE, Pow2, Corrupt, WellFormed, StoredCount, L2Entry, Clusters, SlotCount, DataRefs, MetaRefs, Quotient,
      NewEntry, MaskOffset;
    var c := ClusterOf(h, DataOffset(f, h, 0, 0));
    Exclusive(f, h, 0, 0);
    InjectsDiscrepancy(f, h, cls, c);
    if cls.StaleCopied? && DataOffset(f, h, 0, 1) != 0 {
      Exclusive(f, h, 0, 1);
      assert (0, 1) !in {(0, 0)};
    }
  }

  lemma SameEntrySameFile(f: seq<byte>, h: Header, j: nat)
    requires WellFormed(f, h) && h.l1Size > 0 && TableAt(f, h, 0) != 0 && j < h.PerTable()
    ensures WithL2(f, h, j, L2Entry(f, h, 0, j)) == f
  {
    hide Pow2, FromBE, BE, SlotCount, TableAt, BlockAt, Apart, ReadHeader;
    var at := TableAt(f, h, 0) + 8 * j;
    BEInverse(f[at..at + 8]);
  }

  /** Giving up because the refcount block is missing comes after the L2 write. */
  lemma GivesUpAfterWriting(f: seq<byte>, h: Header, cls: Class)
    requires Corruptible(f, h) && !Corrupt(f, h, cls).1
    ensures Corrupt(f, h, cls).0 == f <==>
            match cls
            case RefcountTooHigh => !Copied(L2Entry(f, h, 0, 0))
            case StaleCopied => Copied(L2Entry(f, h, 0, Target(f, h, cls)))
            case _ => true
  {
    hide GetBE, Pow2, WithL2, WellFormed, L2Entry, Clusters, SlotCount, DataOffset, MaskOffset;
    CorruptEffect(f, h, cls);
    var j := Target(f, h, cls);
    var entry := L2Entry(f, h, 0, j);
    EntryWidth(f, h, 0, j);
    SameEntrySameFile(f, h, j);
    if NewEntry(f, h, cls).Some? {
      NewEntryWidth(f, h, cls);
      L2Written(f, h, NewEntry(f, h, cls).value.0, NewEntry(f, h, cls).value.1);
    }
  }

  method SetRefcount(file: array<byte>, h: Header, offset: nat, value: nat) returns (ok: bool)
    requires WellFormed(file[..], h) && ClusterOf(h, offset) < Clusters(file.Length, h)
    modifies file
    ensures ok == HasBlock(old(file[..]), h, ClusterOf(h, offset))
    ensures file[..] == if ok then WithCount(old(file[..]), h, ClusterOf(h, offset), value) else old(file[..])
  {
    hide GetBE, Pow2, FromBE, BE, TableAt;
    var c := ClusterOf(h, offset);
    var slot := Slot(file.Length, h, c);
    var block := GetBE(file[..], h.tableOffset + 8 * slot, 8);
    if block == 0 {
      return false;
    }
    Store(file, block + 2 * Place(h, c), BE(2, value));
    return true;
  }

  method WriteEntry(file: array<byte>, h: Header, l2: nat, j: nat, v: nat)
    requires WellFormed(file[..], h) && h.l1Size > 0 && j < h.PerTable() && l2 == TableAt(file[..], h, 0) != 0
    modifies file
    ensures file[..] == WithL2(old(file[..]), h, j, v)
  {
    hide GetBE, Pow2, FromBE, BE, SlotCount, BlockAt, TableAt, Apart, ReadHeader, Splice;
    Store(file, l2 + 8 * j, BE(8, v));
  }

  lemma TwoEntries(f: seq<byte>, h: Header)
    requires TablesReadable(f, h)
    ensures h.PerTable() > 1
  {
    Pow2At9(h.clusterBits);
  }

  /** Injects one corruption in place; the class is the caller's random choice. */
  method CorruptImage(file: array<byte>, cls: Class) returns (r: Option<(Class, nat)>)
    requires ReadHeader(file[..]).Some? && ReadHeader(file[..]).value.l1Size > 0 ==>
               var h := ReadHeader(file[..]).value; WellFormed(file[..], h) && InFile(file[..], h)
    modifies file
    ensures ReadHeader(old(file[..])).None? || !Corruptible(old(file[..]), ReadHeader(old(file[..])).value) ==>
              r == None && file[..] == old(file[..])
    ensures ReadHeader(old(file[..])).Some? && Corruptible(old(file[..]), ReadHeader(old(file[..])).value) ==>
              var f, h := old(file[..]), ReadHeader(old(file[..])).value;
              && file[..] == Corrupt(f, h, cls).0
              && r == if Corrupt(f, h, cls).1 then Some((cls, DataOffset(f, h, 0, 0))) else None
  {
    hide GetBE, Pow2, FromBE, BE, ReadHeader, OwnCluster, Apart, TableAt, BlockAt, Splice, SlotCount, Clusters,
      MaskOffset, WithL2, WithCount, Cleared, Flagged;
    ghost var f := file[..];
    var header := ReadHeader(file[..]);
    if header.None? || header.value.l1Size == 0 {
      return None;
    }
    var h := header.value;
    TwoEntries(f, h);
    if TableAt(file[..], h, 0) == 0 || DataOffset(file[..], h, 0, 0) == 0 {
      return None;
    }
    var l2, entry, data := TableAt(file[..], h, 0), L2Entry(file[..], h, 0, 0), DataOffset(file[..], h, 0, 0);
    EntryWidth(f, h, 0, 0);
    RemapEffect(f, h, cls);
    var ok := true;
    match cls {
      case RefcountZero =>
        ok := SetRefcount(file, h, data, 0);
      case RefcountTooHigh =>
        WriteEntry(file, h, l2, 0, Cleared(entry));
        ok := SetRefcount(file, h, data, 2);
      case LeakedCluster =>
        WriteEntry(file, h, l2, 0, 0);
      case StaleCopied =>
        var second := DataOffset(file[..], h, 0, 1) != 0;
        var idx := if second then 1 else 0;
        var e, off := L2Entry(file[..], h, 0, idx), DataOffset(file[..], h, 0, idx);
        WriteEntry(file, h, l2, idx, Flagged(e));
        ok := SetRefcount(file, h, off, 2);
      case Overlapping =>
        WriteEntry(file, h, l2, 1, entry);
    }
    return if ok then Some((cls, data)) else None;
  }
}
