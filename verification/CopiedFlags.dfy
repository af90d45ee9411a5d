/** The COPIED flags of L1 and L2 entries, reconciled with the refcounts. */
module CopiedFlags {
  import opened Bytes
  import opened Options
  import opened FreeClusters
  import opened Qcow2Metadata

  const COMPRESSED: nat := 0x4000_0000_0000_0000

  predicate Compressed(entry: nat) {
    entry / COMPRESSED % 2 == 1
  }

  /** The host offset an L2 entry refers to; None if it refers to no cluster. */
  function HostOffset(entry: nat, bits: nat): Option<nat> {
    if Compressed(entry) then Some(entry % COMPRESSED / Pow2(bits) * Pow2(bits))
    else if MaskOffset(entry) == 0 then None
    else Some(MaskOffset(entry))
  }

  function Marked(entry: nat, on: bool): nat {
    if on then Flagged(entry) else Cleared(entry)
  }

  type Rule = nat -> Option<nat>

  /** What an L1 entry should be; None where the count is not available. */
  function L1Rule(counts: nat -> Option<nat>): Rule {
    (entry: nat) =>
      if MaskOffset(entry) == 0 then Some(entry)
      else match counts(MaskOffset(entry)) case None => None case Some(n) => Some(Marked(entry, n == 1))
  }

  /** What an L2 entry should be: an entry without a cluster loses its flag. */
  function L2Rule(bits: nat, counts: nat -> Option<nat>): Rule {
    (entry: nat) =>
      match HostOffset(entry, bits)
      case None => Some(Cleared(entry))
      case Some(offset) => match counts(offset) case None => None case Some(n) => Some(Marked(entry, n == 1))
  }

  /** A rule that only decides bit 63, and decides it without looking at it. */
  ghost predicate FlagRule(rule: Rule) {
    forall e: nat :: e < U64 ==>
      (rule(e).Some? ==> rule(e).value < U64 && Cleared(rule(e).value) == Cleared(e) && rule(rule(e).value) == rule(e))
  }

  lemma MarkedKeepsRest(e: nat, on: bool, bits: nat)
    requires e < U64
    ensures Marked(e, on) < U64 && Cleared(Marked(e, on)) == Cleared(e) && Copied(Marked(e, on)) == on
    ensures MaskOffset(Marked(e, on)) == MaskOffset(e) && HostOffset(Marked(e, on), bits) == HostOffset(e, bits)
    ensures forall again :: Marked(Marked(e, on), again) == Marked(e, again)
  {
    hide MaskOffset, Pow2;
    FlagNotInMask(e);
    CompressedKept(e, on);
  }

  lemma CompressedKept(e: nat, on: bool)
    requires e < U64
    ensures Compressed(Marked(e, on)) == Compressed(e) && Marked(e, on) % COMPRESSED == e % COMPRESSED
  {
    assert COPIED == 2 * COMPRESSED;
  }

  lemma L1RuleIsFlagRule(counts: nat -> Option<nat>)
    ensures FlagRule(L1Rule(counts))
  {
    hide Marked, Cleared, MaskOffset, HostOffset;
    forall e: nat | e < U64 && L1Rule(counts)(e).Some?
      ensures L1Rule(counts)(e).value < U64 && Cleared(L1Rule(counts)(e).value) == Cleared(e)
      ensures L1Rule(counts)(L1Rule(counts)(e).value) == L1Rule(counts)(e)
    {
      if MaskOffset(e) != 0 {
        var n := counts(MaskOffset(e)).value;
        MarkedKeepsRest(e, n == 1, 9);
      }
    }
  }

  lemma L2RuleIsFlagRule(bits: nat, counts: nat -> Option<nat>)
    ensures FlagRule(L2Rule(bits, counts))
  {
    hide MaskOffset, HostOffset, Cleared, Flagged;
    forall e: nat | e < U64 && L2Rule(bits, counts)(e).Some?
      ensures L2Rule(bits, counts)(e).value < U64 && Cleared(L2Rule(bits, counts)(e).value) == Cleared(e)
      ensures L2Rule(bits, counts)(L2Rule(bits, counts)(e).value) == L2Rule(bits, counts)(e)
    {
      var host := HostOffset(e, bits);
      var on := host.Some? && counts(host.value) == Some(1);
      MarkedKeepsRest(e, on, bits);
      assert L2Rule(bits, counts)(e).value == Marked(e, on);
    }
  }

  // ----- one table -----

  /** Where entry k starts: entries are 8 bytes, or 16 with a subcluster bitmap behind each. */
  function At(extended: bool, k: nat): nat {
    if extended then 16 * k else 8 * k
  }

  function Entries(len: nat, extended: bool): (n: nat)
    ensures forall k :: 0 <= k < n ==> At(extended, k) + 8 <= len
  {
    if extended then len / 16 else len / 8
  }

  function EntryOf(t: seq<byte>, extended: bool, k: nat): nat
    requires k < Entries(|t|, extended)
  {
    GetBE(t, At(extended, k), 8)
  }

  lemma EntryBound(t: seq<byte>, extended: bool, k: nat)
    requires k < Entries(|t|, extended)
    ensures EntryOf(t, extended, k) < U64
  {
    var at := At(extended, k);
    BEInverse(t[at..at + 8]);
    WidthLimits();
  }

  function WithEntry(t: seq<byte>, extended: bool, k: nat, v: nat): (r: seq<byte>)
    requires k < Entries(|t|, extended)
    ensures |r| == |t|
  {
    Splice(t, At(extended, k), BE(8, v))
  }

  lemma EntryWritten(t: seq<byte>, extended: bool, k: nat, v: nat, j: nat)
    requires k < Entries(|t|, extended) && j < Entries(|t|, extended) && v < U64
    ensures EntryOf(WithEntry(t, extended, k, v), extended, j) == if j == k then v else EntryOf(t, extended, j)
  {
    hide BE, FromBE;
    if j == k {
      WidthLimits();
      GetBEPut(t, At(extended, k), 8, v);
    } else {
      SpliceElsewhere(t, At(extended, k), BE(8, v), At(extended, j), 8);
    }
  }

  predicate Blocked(t: seq<byte>, extended: bool, rule: Rule, k: nat)
    requires k < Entries(|t|, extended)
  {
    rule(EntryOf(t, extended, k)).None?
  }

  /** The table once the first n entries were visited. */
  function Fixed(t: seq<byte>, extended: bool, rule: Rule, n: nat): (r: seq<byte>)
    requires n <= Entries(|t|, extended)
    ensures |r| == |t|
  {
    if n == 0 then t else
    var b := Fixed(t, extended, rule, n - 1);
    match rule(EntryOf(b, extended, n - 1))
    case None => b
    case Some(v) => WithEntry(b, extended, n - 1, v)
  }

  /** Entries among the first n that are rewritten. */
  function Rewrites(t: seq<byte>, extended: bool, rule: Rule, n: nat): nat
    requires n <= Entries(|t|, extended)
  {
    if n == 0 then 0
    else Rewrites(t, extended, rule, n - 1) +
         if !Blocked(t, extended, rule, n - 1)
           && rule(EntryOf(t, extended, n - 1)) != Some(EntryOf(t, extended, n - 1)) then 1 else 0
  }

  /** Every visited entry is what the rule says, the others are as they were. */
  lemma {:induction false} FixedEntry(t: seq<byte>, extended: bool, rule: Rule, n: nat, k: nat)
    requires n <= Entries(|t|, extended) && k < Entries(|t|, extended) && FlagRule(rule)
    ensures EntryOf(Fixed(t, extended, rule, n), extended, k) ==
            if k < n && !Blocked(t, extended, rule, k) then rule(EntryOf(t, extended, k)).value
              else EntryOf(t, extended, k)
  {
    hide EntryOf, WithEntry, Entries, At;
    if n > 0 {
      var b := Fixed(t, extended, rule, n - 1);
      FixedEntry(t, extended, rule, n - 1, k);
      FixedEntry(t, extended, rule, n - 1, n - 1);
      EntryBound(t, extended, n - 1);
      match rule(EntryOf(b, extended, n - 1))
      case None =>
      case Some(v) => EntryWritten(b, extended, n - 1, v, k);
    }
  }

  /** Only entries change: bytes that belong to none, subcluster bitmaps among them, are as they were. */
  lemma {:induction false} FixedElsewhere(t: seq<byte>, extended: bool, rule: Rule, n: nat, p: nat)
    requires n <= Entries(|t|, extended) && p < |t| && forall k :: 0 <= k < n ==>
              !(At(extended, k) <= p < At(extended, k) + 8)
    ensures Fixed(t, extended, rule, n)[p] == t[p]
  {
    hide EntryOf, Entries, BE, At;
    if n > 0 {
      FixedElsewhere(t, extended, rule, n - 1, p);
    }
  }

  lemma RewriteOfSame(t: seq<byte>, extended: bool, k: nat)
    requires k < Entries(|t|, extended)
    ensures WithEntry(t, extended, k, EntryOf(t, extended, k)) == t
  {
    hide BE, FromBE;
    var at := At(extended, k);
    BEInverse(t[at..at + 8]);
    assert t == t[..at] + t[at..at + 8] + t[at + 8..];
  }

  /** A table that already follows the rule is left alone. */
  lemma {:induction false} FixedStays(t: seq<byte>, extended: bool, rule: Rule, n: nat)
    requires n <= Entries(|t|, extended)
    requires forall k :: 0 <= k < n ==> rule(EntryOf(t, extended, k)) == Some(EntryOf(t, extended, k))
    ensures Fixed(t, extended, rule, n) == t && Rewrites(t, extended, rule, n) == 0
  {
    hide EntryOf, WithEntry, Entries, At;
    if n > 0 {
      FixedStays(t, extended, rule, n - 1);
      RewriteOfSame(t, extended, n - 1);
    }
  }

  /** A second pass over a reconciled table rewrites nothing. */
  lemma FixedTwice(t: seq<byte>, extended: bool, rule: Rule)
    requires FlagRule(rule) && forall k :: 0 <= k < Entries(|t|, extended) ==> !Blocked(t, extended, rule, k)
    ensures var n, r := Entries(|t|, extended), Fixed(t, extended, rule, Entries(|t|, extended));
            Fixed(r, extended, rule, n) == r && Rewrites(r, extended, rule, n) == 0
  {
    hide EntryOf, Entries, At, Fixed;
    var n := Entries(|t|, extended);
    var r := Fixed(t, extended, rule, n);
    forall k | 0 <= k < n
      ensures rule(EntryOf(r, extended, k)) == Some(EntryOf(r, extended, k))
    {
      FixedEntry(t, extended, rule, n, k);
      EntryBound(t, extended, k);
      assert !Blocked(t, extended, rule, k);
    }
    FixedStays(r, extended, rule, n);
  }

  /** A 32-bit counter that stops at its maximum. */
  function Saturated(n: nat): nat {
    if n < U32 then n else U32 - 1
  }

  /** The first entry the rule cannot decide. */
  ghost predicate FirstBlocked(t: seq<byte>, extended: bool, rule: Rule, k: nat) {
    && k < Entries(|t|, extended) && Blocked(t, extended, rule, k)
    && forall j :: 0 <= j < k ==> !Blocked(t, extended, rule, j)
  }

  ghost predicate Decided(t: seq<byte>, extended: bool, rule: Rule) {
    forall k :: 0 <= k < Entries(|t|, extended) ==> !Blocked(t, extended, rule, k)
  }

  /** Sets or clears the flag of one entry in place. */
  method RewriteFlag(t: array<byte>, extended: bool, k: nat, on: bool)
    requires k < Entries(t.Length, extended)
    modifies t
    ensures t[..] == WithEntry(old(t[..]), extended, k, Marked(EntryOf(old(t[..]), extended, k), on))
  {
    var entry := GetBE(t[..], At(extended, k), 8);
    Store(t, At(extended, k), BE(8, Marked(entry, on)));
  }

  /** The loop over one L2 table; it stops at the first entry whose count is not available. */
  method ReconcileTable(l2: array<byte>, bits: nat, extended: bool, counts: nat -> Option<nat>, rewrites: nat)
    returns (r: Option<nat>)
    requires rewrites < U32
    modifies l2
    ensures r.Some? <==> Decided(old(l2[..]), extended, L2Rule(bits, counts))
    ensures r.Some? ==>
              var n := Entries(l2.Length, extended);
              && l2[..] == Fixed(old(l2[..]), extended, L2Rule(bits, counts), n)
              && r.value == Saturated(rewrites + Rewrites(old(l2[..]), extended, L2Rule(bits, counts), n))
    ensures r.None? ==> exists k ::
              && FirstBlocked(old(l2[..]), extended, L2Rule(bits, counts), k)
              && l2[..] == Fixed(old(l2[..]), extended, L2Rule(bits, counts), k)
  {
    hide GetBE, At, Entries, WithEntry, HostOffset, MaskOffset, Cleared, Flagged, FlagRule;
    ghost var t, rule := l2[..], L2Rule(bits, counts);
    L2RuleIsFlagRule(bits, counts);
    var done := rewrites;
    for k := 0 to Entries(l2.Length, extended)
      invariant l2[..] == Fixed(t, extended, rule, k) && done == Saturated(rewrites + Rewrites(t, extended, rule, k))
      invariant forall j :: 0 <= j < k ==> !Blocked(t, extended, rule, j)
    {
      var entry := EntryOf(l2[..], extended, k);
      FixedEntry(t, extended, rule, k, k);
      EntryBound(t, extended, k);
      MarkedKeepsRest(entry, Copied(entry), bits);
      RewriteOfSame(l2[..], extended, k);
      var host := HostOffset(entry, bits);
      var want := false;
      if host.Some? {
        var count := counts(host.value);
        if count.None? {
          assert FirstBlocked(t, extended, rule, k);
          return None;
        }
        want := count.value == 1;
      }
      OwnFlag(entry);
      if want != Copied(entry) {
        RewriteFlag(l2, extended, k, want);
        done := if done + 1 < U32 then done + 1 else done;
      }
    }
    return Some(done);
  }

  lemma OwnFlag(entry: nat)
    ensures entry < U64 ==> (forall on :: Marked(entry, on) == entry <==> Copied(entry) == on)
  {
  }

  /** Nothing but bit 63 of entries differs. */
  ghost predicate OnlyFlags(t: seq<byte>, r: seq<byte>, extended: bool) {
    && |r| == |t|
    && (forall k :: 0 <= k < Entries(|t|, extended) ==>
        Cleared(EntryOf(r, extended, k)) == Cleared(EntryOf(t, extended, k)))
    && (forall p :: 0 <= p < |t| && Outside(extended, Entries(|t|, extended), p) ==> r[p] == t[p])
  }

  /** Byte p belongs to none of the first n entries. */
  ghost predicate Outside(extended: bool, n: nat, p: nat) {
    forall k :: 0 <= k < n ==> !(At(extended, k) <= p < At(extended, k) + 8)
  }

  lemma FixedOnlyFlags(t: seq<byte>, extended: bool, rule: Rule, n: nat)
    requires n <= Entries(|t|, extended) && FlagRule(rule)
    ensures OnlyFlags(t, Fixed(t, extended, rule, n), extended)
  {
    hide EntryOf, Entries, At, Fixed, Cleared;
    var r := Fixed(t, extended, rule, n);
    forall k | 0 <= k < Entries(|t|, extended)
      ensures Cleared(EntryOf(r, extended, k)) == Cleared(EntryOf(t, extended, k))
    {
      FixedEntry(t, extended, rule, n, k);
      EntryBound(t, extended, k);
    }
    forall p | 0 <= p < |t| && Outside(extended, Entries(|t|, extended), p)
      ensures r[p] == t[p]
    {
      FixedElsewhere(t, extended, rule, n, p);
    }
  }

  // ----- the whole tree -----

  datatype Outcome = Rewritten(count: nat) | InvalidConfig | MisalignedAccess

  /** How the entries are to be read, and the refcounts they are to agree with. */
  datatype View = View(bits: nat, extended: bool, counts: nat -> Option<nat>)
  {
    function L1(): Rule { L1Rule(counts) }

    function L2(): Rule { L2Rule(bits, counts) }
  }

  ghost function Contents(tables: seq<array<byte>>): (c: seq<seq<byte>>)
    reads tables
    ensures |c| == |tables| && forall i :: 0 <= i < |tables| ==> c[i] == tables[i][..]
  {
    seq(|tables|, i requires 0 <= i < |tables| reads tables => tables[i][..])
  }

  /** A slot can be reconciled: its table is at hand and every count it needs is available. */
  ghost predicate Ready(entry: nat, table: seq<byte>, staged: bool, v: View) {
    MaskOffset(entry) != 0 ==> v.L1()(entry).Some? && staged && Decided(table, v.extended, v.L2())
  }

  function TableAfter(entry: nat, table: seq<byte>, v: View): seq<byte> {
    if MaskOffset(entry) != 0 then Fixed(table, v.extended, v.L2(), Entries(|table|, v.extended)) else table
  }

  function SlotRewrites(entry: nat, table: seq<byte>, v: View): nat {
    (if v.L1()(entry).Some? && v.L1()(entry) != Some(entry) then 1 else 0)
    + (if MaskOffset(entry) != 0 then Rewrites(table, v.extended, v.L2(), Entries(|table|, v.extended)) else 0)
  }

  /** Rewritten entries of the first n slots and their tables. */
  function Total(l1: seq<byte>, tables: seq<seq<byte>>, v: View, n: nat): nat
    requires n <= Entries(|l1|, false) == |tables|
  {
    if n == 0 then 0 else Total(l1, tables, v, n - 1) + SlotRewrites(EntryOf(l1, false, n - 1), tables[n - 1], v)
  }

  /** The first n slots are done, the others untouched. */
  ghost predicate Walked(l0: seq<byte>, c0: seq<seq<byte>>, l1: seq<byte>, c: seq<seq<byte>>, v: View, n: nat) {
    && n <= Entries(|l0|, false) == |c0| == |c|
    && l1 == Fixed(l0, false, v.L1(), n)
    && forall i :: 0 <= i < |c| ==> c[i] == if i < n then TableAfter(EntryOf(l0, false, i), c0[i], v) else c0[i]
  }

  ghost predicate TreeOnlyFlags(l0: seq<byte>, c0: seq<seq<byte>>, l1: seq<byte>, c: seq<seq<byte>>, extended: bool) {
    && OnlyFlags(l0, l1, false) && |c| == |c0|
    && forall i :: 0 <= i < |c| ==> OnlyFlags(c0[i], c[i], extended)
  }

  function SlotAfter(l1: seq<byte>, v: View, i: nat): (r: seq<byte>)
    requires i < Entries(|l1|, false)
    ensures |r| == |l1|
  {
    match v.L1()(EntryOf(l1, false, i)) case None => l1 case Some(e) => WithEntry(l1, false, i, e)
  }

  lemma UntouchedOnlyFlags(t: seq<byte>, extended: bool)
    ensures OnlyFlags(t, t, extended)
  {
  }

  /** One L1 slot: its own flag, then those of its table. */
  method ReconcileSlot(l1: array<byte>, table: array<byte>, staged: bool, v: View, i: nat,
                       rewrites: nat) returns (r: Option<nat>)
    requires i < Entries(l1.Length, false) && table != l1 && rewrites < U32
    modifies l1, table
    ensures r.Some? <==> Ready(EntryOf(old(l1[..]), false, i), old(table[..]), staged, v)
    ensures r.Some? ==>
              && l1[..] == SlotAfter(old(l1[..]), v, i)
              && table[..] == TableAfter(EntryOf(old(l1[..]), false, i), old(table[..]), v)
              && r.value == Saturated(rewrites + SlotRewrites(EntryOf(old(l1[..]), false, i), old(table[..]), v))
    ensures l1[..] == old(l1[..]) || l1[..] == SlotAfter(old(l1[..]), v, i)
    ensures OnlyFlags(old(table[..]), table[..], v.extended)
  {
    hide GetBE, At, Entries, WithEntry, MaskOffset, HostOffset, Cleared, Flagged, FlagRule, Fixed, Rewrites, OnlyFlags,
      Decided;
    ghost var b, t := l1[..], table[..];
    UntouchedOnlyFlags(t, v.extended);
    L2RuleIsFlagRule(v.bits, v.counts);
    var entry := EntryOf(l1[..], false, i);
    EntryBound(b, false, i);
    RewriteOfSame(b, false, i);
    if MaskOffset(entry) == 0 {
      return Some(rewrites);
    }
    var count := v.counts(MaskOffset(entry));
    if count.None? {
      return None;
    }
    var want, done := count.value == 1, rewrites;
    OwnFlag(entry);
    if want != Copied(entry) {
      RewriteFlag(l1, false, i, want);
      done := if done + 1 < U32 then done + 1 else done;
    }
    assert l1[..] == SlotAfter(b, v, i);
    if !staged {
      return None;
    }
    r := ReconcileTable(table, v.bits, v.extended, v.counts, done);
    if r.Some? {
      FixedOnlyFlags(t, v.extended, v.L2(), Entries(|t|, v.extended));
    } else {
      ghost var k :| FirstBlocked(t, v.extended, v.L2(), k) && table[..] == Fixed(t, v.extended, v.L2(), k);
      FixedOnlyFlags(t, v.extended, v.L2(), k);
    }
  }

  ghost predicate Separate(l1: array<byte>, tables: seq<array<byte>>) {
    && (forall i :: 0 <= i < |tables| ==> tables[i] != l1)
    && forall i, j :: 0 <= i < j < |tables| ==> tables[i] != tables[j]
  }

  ghost predicate AllReady(l1: seq<byte>, tables: seq<seq<byte>>, staged: set<nat>, v: View)
    requires |tables| == Entries(|l1|, false)
  {
    forall i :: 0 <= i < |tables| ==> Ready(EntryOf(l1, false, i), tables[i], i in staged, v)
  }

  lemma NothingWalked(l0: seq<byte>, c0: seq<seq<byte>>, v: View)
    requires |c0| == Entries(|l0|, false)
    ensures Walked(l0, c0, l0, c0, v, 0)
  {
  }

  lemma SlotUnvisited(l0: seq<byte>, c0: seq<seq<byte>>, b: seq<byte>, c: seq<seq<byte>>, v: View, i: nat)
    requires Walked(l0, c0, b, c, v, i) && i < |c0|
    ensures |b| == |l0| && c[i] == c0[i] && EntryOf(b, false, i) == EntryOf(l0, false, i)
  {
    hide EntryOf, Entries, Fixed, TableAfter;
    L1RuleIsFlagRule(v.counts);
    FixedEntry(l0, false, v.L1(), i, i);
  }

  lemma OneSlotMore(l0: seq<byte>, c0: seq<seq<byte>>, b: seq<byte>, c: seq<seq<byte>>, now: seq<seq<byte>>, v: View,
                    i: nat)
    requires Walked(l0, c0, b, c, v, i) && i < |c0| && EntryOf(b, false, i) == EntryOf(l0, false, i)
    requires now == c[i := TableAfter(EntryOf(l0, false, i), c0[i], v)]
    ensures Walked(l0, c0, SlotAfter(b, v, i), now, v, i + 1)
  {
    hide EntryOf, Entries, TableAfter, WithEntry;
  }

  lemma WalkedOnlyFlags(l0: seq<byte>, c0: seq<seq<byte>>, l1: seq<byte>, c: seq<seq<byte>>, v: View, n: nat)
    requires Walked(l0, c0, l1, c, v, n)
    ensures TreeOnlyFlags(l0, c0, l1, c, v.extended)
  {
    hide EntryOf, Entries, Fixed, OnlyFlags, MaskOffset;
    L1RuleIsFlagRule(v.counts);
    L2RuleIsFlagRule(v.bits, v.counts);
    FixedOnlyFlags(l0, false, v.L1(), n);
    forall i | 0 <= i < |c|
      ensures OnlyFlags(c0[i], c[i], v.extended)
    {
      UntouchedOnlyFlags(c0[i], v.extended);
      FixedOnlyFlags(c0[i], v.extended, v.L2(), Entries(|c0[i]|, v.extended));
    }
  }

  /** A walk that stops inside slot i has changed flags only, too. */
  lemma StoppedOnlyFlags(l0: seq<byte>, c0: seq<seq<byte>>, b: seq<byte>, c: seq<seq<byte>>, l1: seq<byte>,
                         now: seq<seq<byte>>, v: View, i: nat)
    requires Walked(l0, c0, b, c, v, i) && i < |c0| && EntryOf(b, false, i) == EntryOf(l0, false, i) && c[i] == c0[i]
    requires l1 == b || l1 == SlotAfter(b, v, i)
    requires |now| == |c| && now == c[i := now[i]] && OnlyFlags(c0[i], now[i], v.extended)
    ensures TreeOnlyFlags(l0, c0, l1, now, v.extended)
  {
    hide EntryOf, Entries, OnlyFlags, WithEntry, TableAfter;
    L1RuleIsFlagRule(v.counts);
    WalkedOnlyFlags(l0, c0, b, c, v, i);
    FixedOnlyFlags(l0, false, v.L1(), i + 1);
  }

  /** The walk over all slots; it stops at the first that cannot be reconciled. */
  method ReconcileTree(l1: array<byte>, tables: seq<array<byte>>, staged: set<nat>, v: View) returns (r: Outcome)
    requires |tables| == Entries(l1.Length, false) && Separate(l1, tables)
    modifies l1, tables
    ensures r.InvalidConfig? <==> v.bits == 0
    ensures r.InvalidConfig? ==> l1[..] == old(l1[..]) && Contents(tables) == old(Contents(tables))
    ensures v.bits > 0 ==>
              (r.Rewritten? <==> AllReady(old(l1[..]), old(Contents(tables)), staged, v))
    ensures r.Rewritten? ==>
              && Walked(old(l1[..]), old(Contents(tables)), l1[..], Contents(tables), v, |tables|)
              && r.count == Saturated(Total(old(l1[..]), old(Contents(tables)), v, |tables|))
    ensures TreeOnlyFlags(old(l1[..]), old(Contents(tables)), l1[..], Contents(tables), v.extended)
  {
    hide GetBE, At, Entries, WithEntry, EntryOf, MaskOffset, Fixed, Rewrites, OnlyFlags, Decided, Ready, TableAfter,
      SlotAfter, SlotRewrites, FlagRule, Walked, TreeOnlyFlags;
    ghost var l0, c0 := l1[..], Contents(tables);
    NothingWalked(l0, c0, v);
    WalkedOnlyFlags(l0, c0, l0, c0, v, 0);
    if v.bits == 0 {
      return InvalidConfig;
    }
    var done := 0;
    for i := 0 to |tables|
      invariant Walked(l0, c0, l1[..], Contents(tables), v, i) && done == Saturated(Total(l0, c0, v, i))
      invariant forall j :: 0 <= j < i ==> Ready(EntryOf(l0, false, j), c0[j], j in staged, v)
    {
      ghost var b, c := l1[..], Contents(tables);
      SlotUnvisited(l0, c0, b, c, v, i);
      var slot := ReconcileSlot(l1, tables[i], i in staged, v, i, done);
      ghost var now := Contents(tables);
      assert now == c[i := now[i]];
      if slot.None? {
        StoppedOnlyFlags(l0, c0, b, c, l1[..], now, v, i);
        return MisalignedAccess;
      }
      OneSlotMore(l0, c0, b, c, now, v, i);
      done := slot.value;
    }
    WalkedOnlyFlags(l0, c0, l1[..], Contents(tables), v, |tables|);
    return Rewritten(done);
  }

  /** An L2 entry agrees with the counts: flagged exactly if it has a cluster and that cluster's count is one. */
  predicate Agrees(entry: nat, v: View) {
    match HostOffset(entry, v.bits)
    case None => !Copied(entry)
    case Some(offset) => v.counts(offset).Some? && (Copied(entry) <==> v.counts(offset) == Some(1))
  }

  predicate L1Agrees(entry: nat, v: View) {
    MaskOffset(entry) != 0 ==>
      v.counts(MaskOffset(entry)).Some? && (Copied(entry) <==> v.counts(MaskOffset(entry)) == Some(1))
  }

  lemma RuledAgrees(entry: nat, v: View)
    requires entry < U64
    ensures v.L2()(entry).Some? ==> Agrees(v.L2()(entry).value, v)
    ensures v.L1()(entry).Some? ==> L1Agrees(v.L1()(entry).value, v)
    ensures v.L1()(entry).Some? ==> MaskOffset(v.L1()(entry).value) == MaskOffset(entry)
  {
    hide HostOffset, MaskOffset, Cleared, Flagged, Copied;
    forall on
      ensures Copied(Marked(entry, on)) == on && MaskOffset(Marked(entry, on)) == MaskOffset(entry)
      ensures HostOffset(Marked(entry, on), v.bits) == HostOffset(entry, v.bits)
    {
      MarkedKeepsRest(entry, on, v.bits);
    }
    assert Cleared(entry) == Marked(entry, false);
  }

  /** After a complete walk every flag in the tree agrees with the counts. */
  lemma TreeAgrees(l0: seq<byte>, c0: seq<seq<byte>>, l1: seq<byte>, c: seq<seq<byte>>, staged: set<nat>, v: View,
                   i: nat)
    requires |c0| == Entries(|l0|, false) && Walked(l0, c0, l1, c, v, |c0|) && AllReady(l0, c0, staged, v) && i < |c0|
    ensures |l1| == |l0| && L1Agrees(EntryOf(l1, false, i), v)
    ensures MaskOffset(EntryOf(l1, false, i)) == MaskOffset(EntryOf(l0, false, i))
    ensures MaskOffset(EntryOf(l0, false, i)) != 0 ==>
              forall k :: 0 <= k < Entries(|c[i]|, v.extended) ==> Agrees(EntryOf(c[i], v.extended, k), v)
  {
    hide EntryOf, Entries, Fixed, MaskOffset, Agrees, L1Agrees, L1Rule, L2Rule;
    L1RuleIsFlagRule(v.counts);
    L2RuleIsFlagRule(v.bits, v.counts);
    var entry, t := EntryOf(l0, false, i), c0[i];
    FixedEntry(l0, false, v.L1(), |c0|, i);
    EntryBound(l0, false, i);
    assert Ready(entry, t, i in staged, v);
    L1Decided(entry, v);
    RuledAgrees(entry, v);
    if MaskOffset(entry) != 0 {
      forall k | 0 <= k < Entries(|t|, v.extended)
        ensures Agrees(EntryOf(c[i], v.extended, k), v)
      {
        FixedEntry(t, v.extended, v.L2(), Entries(|t|, v.extended), k);
        EntryBound(t, v.extended, k);
        assert !Blocked(t, v.extended, v.L2(), k);
        RuledAgrees(EntryOf(t, v.extended, k), v);
      }
    }
  }

  lemma L1Decided(entry: nat, v: View)
    requires MaskOffset(entry) != 0 ==> v.L1()(entry).Some?
    ensures v.L1()(entry).Some?
  {
  }

  /** A second walk over a reconciled tree rewrites nothing. */
  lemma TreeTwice(l0: seq<byte>, c0: seq<seq<byte>>, l1: seq<byte>, c: seq<seq<byte>>, staged: set<nat>, v: View)
    requires |c0| == Entries(|l0|, false) && Walked(l0, c0, l1, c, v, |c0|) && AllReady(l0, c0, staged, v)
    ensures |c| == Entries(|l1|, false) && AllReady(l1, c, staged, v)
    ensures Walked(l1, c, l1, c, v, |c|) && Total(l1, c, v, |c|) == 0
  {
    hide EntryOf, Entries, MaskOffset, L1Rule, L2Rule, Total, Fixed, Rewrites;
    L1RuleIsFlagRule(v.counts);
    L2RuleIsFlagRule(v.bits, v.counts);
    forall i | 0 <= i < |c0|
      ensures !Blocked(l0, false, v.L1(), i)
      ensures Ready(EntryOf(l1, false, i), c[i], i in staged, v)
      ensures TableAfter(EntryOf(l1, false, i), c[i], v) == c[i] && SlotRewrites(EntryOf(l1, false, i), c[i], v) == 0
    {
      SlotTwice(l0, c0, l1, c, staged, v, i);
    }
    FixedTwice(l0, false, v.L1());
    NoRewrites(l1, c, v, |c|);
  }

  lemma SlotTwice(l0: seq<byte>, c0: seq<seq<byte>>, l1: seq<byte>, c: seq<seq<byte>>, staged: set<nat>, v: View,
                  i: nat)
    requires |c0| == Entries(|l0|, false) && Walked(l0, c0, l1, c, v, |c0|) && AllReady(l0, c0, staged, v) && i < |c0|
    ensures |l1| == |l0| && !Blocked(l0, false, v.L1(), i)
    ensures Ready(EntryOf(l1, false, i), c[i], i in staged, v)
    ensures TableAfter(EntryOf(l1, false, i), c[i], v) == c[i] && SlotRewrites(EntryOf(l1, false, i), c[i], v) == 0
  {
    hide EntryOf, Entries, MaskOffset, L1Rule, L2Rule, Total, Fixed, Rewrites;
    L1RuleIsFlagRule(v.counts);
    L2RuleIsFlagRule(v.bits, v.counts);
    var entry, t := EntryOf(l0, false, i), c0[i];
    FixedEntry(l0, false, v.L1(), |c0|, i);
    EntryBound(l0, false, i);
    assert Ready(entry, t, i in staged, v);
    L1Decided(entry, v);
    RuledAgrees(entry, v);
    if MaskOffset(entry) != 0 {
      FixedTwice(t, v.extended, v.L2());
      StillDecided(t, v.extended, v.L2());
    }
  }

  lemma StillDecided(t: seq<byte>, extended: bool, rule: Rule)
    requires FlagRule(rule) && Decided(t, extended, rule)
    ensures Decided(Fixed(t, extended, rule, Entries(|t|, extended)), extended, rule)
  {
    hide EntryOf, Entries, Fixed;
    var n := Entries(|t|, extended);
    forall k | 0 <= k < n
      ensures !Blocked(Fixed(t, extended, rule, n), extended, rule, k)
    {
      FixedEntry(t, extended, rule, n, k);
      EntryBound(t, extended, k);
      assert !Blocked(t, extended, rule, k);
    }
  }

  lemma {:induction false} NoRewrites(l1: seq<byte>, tables: seq<seq<byte>>, v: View, n: nat)
    requires n <= Entries(|l1|, false) == |tables|
    requires forall i :: 0 <= i < |tables| ==> SlotRewrites(EntryOf(l1, false, i), tables[i], v) == 0
    ensures Total(l1, tables, v, n) == 0
  {
    hide EntryOf, Entries, SlotRewrites;
    if n > 0 {
      NoRewrites(l1, tables, v, n - 1);
    }
  }
}
