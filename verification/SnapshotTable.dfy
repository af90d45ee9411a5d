/** The qcow2 snapshot table: its entry walk, and a canonical form for its dead bytes. */
module SnapshotTable {
  import opened Bytes
  import opened Options

  const ENTRY_HEADER: nat := 40

  /** One table entry: where it starts and where the next may follow. */
  datatype Extent = Extent(start: nat, end: nat)

  function Align8(pos: nat): (r: nat)
    ensures r % 8 == 0 && pos <= r < pos + 8
  {
    (pos + 7) / 8 * 8
  }

  /** Fixed part plus extra data, id and name. */
  function EntrySize(blob: seq<byte>, at: nat): (r: nat)
    requires at + ENTRY_HEADER <= |blob|
    ensures r >= ENTRY_HEADER
  {
    ENTRY_HEADER + GetBE(blob, at + 36, 4) + GetBE(blob, at + 12, 2) + GetBE(blob, at + 14, 2)
  }

  function EndOf(entries: seq<Extent>): nat {
    if entries == [] then 0 else entries[|entries| - 1].end
  }

  /** The first n entries, or None if one of them leaves the blob. */
  function Walk(blob: seq<byte>, n: nat): (r: Option<seq<Extent>>)
    ensures r.Some? ==> |r.value| == n && EndOf(r.value) <= |blob|
  {
    if n == 0 then Some([]) else
    match Walk(blob, n - 1)
    case None => None
    case Some(entries) =>
      var at := Align8(EndOf(entries));
      if at + ENTRY_HEADER > |blob| then None
      else if at + EntrySize(blob, at) > |blob| then None
      else Some(entries + [Extent(at, at + EntrySize(blob, at))])
  }

  /** Once an entry has left the blob, no longer walk succeeds. */
  lemma {:induction false} WalkFails(blob: seq<byte>, k: nat, n: nat)
    requires k <= n && Walk(blob, k).None?
    ensures Walk(blob, n).None?
  {
    if k < n {
      WalkFails(blob, k, n - 1);
    }
  }

  /** Entries without extra data, id and name follow each other every 40 bytes. */
  lemma {:induction false} BareWalk(blob: seq<byte>, n: nat)
    requires ENTRY_HEADER * n <= |blob|
    requires forall k, d :: 0 <= k < n && (12 <= d < 16 || 36 <= d < 40) ==> BareByte(blob, k, d)
    ensures Walk(blob, n).Some?
    ensures forall k :: 0 <= k < n ==>
              Walk(blob, n).value[k] == Extent(ENTRY_HEADER * k, ENTRY_HEADER * k + ENTRY_HEADER)
  {
    hide Walk, EntrySize, BareByte, Align8;
    NothingWalked(blob);
    if n > 0 {
      BareWalk(blob, n - 1);
      var at := ENTRY_HEADER * (n - 1);
      assert EndOf(Walk(blob, n - 1).value) == at;
      AlignedAlready(n - 1);
      BareSize(blob, n - 1);
      OneMoreEntry(blob, n - 1, Walk(blob, n - 1).value);
    }
  }

  lemma AlignedAlready(k: nat)
    ensures Align8(ENTRY_HEADER * k) == ENTRY_HEADER * k
  {
  }

  predicate BareByte(blob: seq<byte>, k: nat, d: nat) {
    ENTRY_HEADER * k + d < |blob| ==> blob[ENTRY_HEADER * k + d] == 0
  }

  lemma BareSize(blob: seq<byte>, k: nat)
    requires ENTRY_HEADER * k + ENTRY_HEADER <= |blob|
    requires forall d :: 12 <= d < 16 || 36 <= d < 40 ==> BareByte(blob, k, d)
    ensures EntrySize(blob, ENTRY_HEADER * k) == ENTRY_HEADER
  {
    hide FromBE;
    var at := ENTRY_HEADER * k;
    assert BareByte(blob, k, 12) && BareByte(blob, k, 13) && BareByte(blob, k, 14) && BareByte(blob, k, 15);
    assert BareByte(blob, k, 36) && BareByte(blob, k, 37) && BareByte(blob, k, 38) && BareByte(blob, k, 39);
    ZeroField(blob[at + 12..at + 14]);
    ZeroField(blob[at + 14..at + 16]);
    ZeroField(blob[at + 36..at + 40]);
  }

  lemma {:induction false} ZeroField(s: seq<byte>)
    requires forall p :: 0 <= p < |s| ==> s[p] == 0
    ensures FromBE(s) == 0
  {
    if s != [] {
      ZeroField(s[..|s| - 1]);
    }
  }

  /** The entry walk, position by position. */
  method WalkEntries(blob: seq<byte>, n: nat) returns (r: Option<seq<Extent>>)
    ensures r == Walk(blob, n)
  {
    hide EntrySize;
    var pos := 0;
    var entries := [];
    for k := 0 to n
      invariant Walk(blob, k) == Some(entries) && pos == EndOf(entries)
    {
      pos := Align8(pos);
      if pos + ENTRY_HEADER > |blob| || pos + EntrySize(blob, pos) > |blob| {
        WalkFails(blob, k + 1, n);
        return None;
      }
      entries := entries + [Extent(pos, pos + EntrySize(blob, pos))];
      pos := pos + EntrySize(blob, pos);
    }
    return Some(entries);
  }

  /** Entries follow each other, each in its own place with at most seven bytes of padding before it. */
  predicate InOrder(entries: seq<Extent>) {
    && (forall k :: 0 <= k < |entries| ==> entries[k].start + ENTRY_HEADER <= entries[k].end)
    && (forall j, k :: 0 <= j < k < |entries| ==> entries[j].end <= entries[k].start)
  }

  lemma {:induction false} WalkInOrder(blob: seq<byte>, n: nat)
    requires Walk(blob, n).Some?
    ensures InOrder(Walk(blob, n).value)
  {
    hide EntrySize, Align8;
    if n > 0 {
      WalkInOrder(blob, n - 1);
    }
  }

  // ----- dead bytes -----

  predicate IsDate(entries: seq<Extent>, p: nat) {
    exists k :: 0 <= k < |entries| && entries[k].start + 16 <= p < entries[k].start + 24
  }

  predicate IsPadding(entries: seq<Extent>, p: nat) {
    exists k :: 0 < k < |entries| && entries[k - 1].end <= p < entries[k].start
  }

  predicate Dead(entries: seq<Extent>, p: nat) {
    IsDate(entries, p) || IsPadding(entries, p)
  }

  /** The size fields of an entry are never dead. */
  lemma SizeFieldsLive(entries: seq<Extent>, k: nat, d: nat)
    requires InOrder(entries) && k < |entries| && (12 <= d < 16 || 36 <= d < 40)
    ensures !Dead(entries, entries[k].start + d)
  {
    var p := entries[k].start + d;
    forall j | 0 <= j < |entries|
      ensures !(entries[j].start + 16 <= p < entries[j].start + 24)
    {
      assert j < k ==> entries[j].end <= entries[k].start;
      assert k < j ==> entries[k].end <= entries[j].start;
    }
    forall j | 0 < j < |entries|
      ensures !(entries[j - 1].end <= p < entries[j].start)
    {
      assert j < k ==> entries[j].end <= entries[k].start;
      assert k < j - 1 ==> entries[k].end <= entries[j - 1].start;
    }
  }

  /** Blobs that agree outside the dead bytes have the same walk. */
  lemma {:induction false} WalkIgnoresDead(a: seq<byte>, b: seq<byte>, n: nat, k: nat)
    requires k <= n && Walk(a, n).Some? && |a| == |b|
    requires forall p :: 0 <= p < |a| && !Dead(Walk(a, n).value, p) ==> b[p] == a[p]
    ensures Walk(a, k).Some? && Walk(a, k).value == Walk(a, n).value[..k]
    ensures Walk(b, k) == Walk(a, k)
    decreases k
  {
    hide Align8, Dead, EntrySize;
    WalkPrefix(a, k, n);
    if k > 0 {
      WalkIgnoresDead(a, b, n, k - 1);
      var entries := Walk(a, n).value;
      var at := entries[k - 1].start;
      WalkInOrder(a, n);
      assert entries[k - 1].end <= EndOf(entries);
      forall p | at + 12 <= p < at + 16 || at + 36 <= p < at + 40
        ensures b[p] == a[p]
      {
        SizeFieldsLive(entries, k - 1, p - at);
      }
      SameSize(a, b, at);
    }
  }

  lemma SameSize(a: seq<byte>, b: seq<byte>, at: nat)
    requires |a| == |b| && at + ENTRY_HEADER <= |a|
    requires forall p :: at + 12 <= p < at + 16 || at + 36 <= p < at + 40 ==> b[p] == a[p]
    ensures EntrySize(a, at) == EntrySize(b, at)
  {
    assert b[at + 36..at + 40] == a[at + 36..at + 40];
    assert b[at + 12..at + 14] == a[at + 12..at + 14] && b[at + 14..at + 16] == a[at + 14..at + 16];
  }

  lemma {:induction false} WalkPrefix(blob: seq<byte>, k: nat, n: nat)
    requires k <= n && Walk(blob, n).Some?
    ensures Walk(blob, k).Some? && Walk(blob, k).value == Walk(blob, n).value[..k]
    ensures EndOf(Walk(blob, k).value) <= EndOf(Walk(blob, n).value)
  {
    if k < n {
      WalkPrefix(blob, k, n - 1);
    }
  }

  // ----- the table on its own -----

  const MAX_ENTRIES: nat := 4096

  function AtMost(n: nat): nat {
    if n <= MAX_ENTRIES then n else MAX_ENTRIES
  }

  /** Length in bytes of the table of at most 4096 entries, or None if the walk leaves the blob. */
  method TableLength(blob: seq<byte>, count: nat) returns (r: Option<nat>)
    ensures r == match Walk(blob, AtMost(count)) case None => None case Some(entries) => Some(EndOf(entries))
  {
    hide EntrySize;
    var pos := 0;
    ghost var entries := [];
    for k := 0 to AtMost(count)
      invariant Walk(blob, k) == Some(entries) && pos == EndOf(entries)
    {
      pos := Align8(pos);
      if pos + ENTRY_HEADER > |blob| {
        WalkFails(blob, k + 1, AtMost(count));
        return None;
      }
      var end := pos + EntrySize(blob, pos);
      if end > |blob| {
        WalkFails(blob, k + 1, AtMost(count));
        return None;
      }
      entries := entries + [Extent(pos, end)];
      pos := end;
    }
    return Some(pos);
  }

  /** Cutting the blob anywhere at or behind the table's end leaves the walk as it was. */
  lemma {:induction false} TruncationStable(blob: seq<byte>, n: nat, len: nat)
    requires Walk(blob, n).Some? && EndOf(Walk(blob, n).value) <= len <= |blob|
    ensures Walk(blob[..len], n) == Walk(blob, n)
  {
    hide EntrySize, Align8;
    if n > 0 {
      WalkPrefix(blob, n - 1, n);
      TruncationStable(blob, n - 1, len);
      SizeOfPrefix(blob, len, Walk(blob, n).value[n - 1].start);
    }
  }

  lemma SizeOfPrefix(blob: seq<byte>, len: nat, at: nat)
    requires at + ENTRY_HEADER <= len <= |blob|
    ensures EntrySize(blob[..len], at) == EntrySize(blob, at)
  {
    assert blob[..len][at + 36..at + 40] == blob[at + 36..at + 40];
    assert blob[..len][at + 12..at + 14] == blob[at + 12..at + 14]
      && blob[..len][at + 14..at + 16] == blob[at + 14..at + 16];
  }

  /** A blob cut exactly at its table's end holds no further entry. */
  lemma NothingFollows(blob: seq<byte>, n: nat, k: nat)
    requires Walk(blob, n).Some? && EndOf(Walk(blob, n).value) == |blob| && k > n
    ensures Walk(blob, k).None?
  {
    hide EntrySize;
    WalkFails(blob, n + 1, k);
  }

  // ----- tables as they are laid out -----

  /** What an entry holds: where its L1 table is, dates and sizes of the state, and its three texts. */
  datatype Snapshot = Snapshot(l1: seq<byte>, state: seq<byte>, extra: seq<byte>, id: seq<byte>, name: seq<byte>)
  {
    /** 12 bytes for the L1 table, 20 for dates and state; sizes that fit their fields. */
    predicate Valid() {
      |l1| == 12 && |state| == 20 && |extra| < U32 && |id| < U16 && |name| < U16
    }

    /** L1 table, id size, name size, dates and state, extra size, then the three texts. */
    function Encode(): (s: seq<byte>)
      requires Valid()
      ensures |s| == 40 + |extra| + |id| + |name|
    {
      l1 + BE(2, |id|) + BE(2, |name|) + state + BE(4, |extra|) + extra + id + name
    }
  }

  predicate AllValid(list: seq<Snapshot>) {
    forall k :: 0 <= k < |list| ==> list[k].Valid()
  }

  function Zeros(n: nat): (s: seq<byte>)
    ensures |s| == n
  {
    seq(n, _ => 0)
  }

  /** Entries one behind the other, each on a multiple of eight. */
  function Table(list: seq<Snapshot>): seq<byte>
    requires AllValid(list)
  {
    if list == [] then [] else
    var front := Table(list[..|list| - 1]);
    front + Zeros(Align8(|front|) - |front|) + list[|list| - 1].Encode()
  }

  /** Where they lie. */
  function Extents(list: seq<Snapshot>): seq<Extent>
    requires AllValid(list)
  {
    if list == [] then [] else
    var front := Extents(list[..|list| - 1]);
    var at := Align8(EndOf(front));
    front + [Extent(at, at + |list[|list| - 1].Encode()|)]
  }

  lemma EncodedSize(blob: seq<byte>, at: nat, e: Snapshot)
    requires e.Valid() && at + |e.Encode()| <= |blob| && blob[at..at + |e.Encode()|] == e.Encode()
    ensures EntrySize(blob, at) == |e.Encode()|
  {
    hide BE, FromBE;
    var s := e.Encode();
    assert s[12..14] == BE(2, |e.id|) && s[14..16] == BE(2, |e.name|) && s[36..40] == BE(4, |e.extra|);
    SubSlice(blob, at, s, 12, 2);
    SubSlice(blob, at, s, 14, 2);
    SubSlice(blob, at, s, 36, 4);
    WidthLimits();
    BERoundTrip(2, |e.id|);
    BERoundTrip(2, |e.name|);
    BERoundTrip(4, |e.extra|);
  }

  /** The walk over any table finds its entries, whatever follows it. */
  lemma {:induction false} WalkEncoded(list: seq<Snapshot>, rest: seq<byte>)
    requires AllValid(list)
    ensures EndOf(Extents(list)) == |Table(list)|
    ensures Walk(Table(list) + rest, |list|) == Some(Extents(list))
  {
    hide EntrySize, Align8, Snapshot.Encode, Walk;
    NothingWalked(Table(list) + rest);
    if list != [] {
      var init, last := list[..|list| - 1], list[|list| - 1];
      var front := Table(init);
      var at := Align8(|front|);
      var pad, s := Zeros(at - |front|), last.Encode();
      WalkEncoded(init, pad + s + rest);
      var blob := Table(list) + rest;
      assert blob == front + (pad + s + rest);
      assert blob[at..at + |s|] == s;
      EncodedSize(blob, at, last);
      OneMoreEntry(blob, |init|, Extents(init));
    }
  }

  lemma NothingWalked(blob: seq<byte>)
    ensures Walk(blob, 0) == Some([])
  {
  }

  lemma OneMoreEntry(blob: seq<byte>, n: nat, entries: seq<Extent>)
    requires Walk(blob, n) == Some(entries)
    ensures var at := Align8(EndOf(entries));
            Walk(blob, n + 1) ==
            if at + ENTRY_HEADER > |blob| || at + EntrySize(blob, at) > |blob| then None
            else Some(entries + [Extent(at, at + EntrySize(blob, at))])
  {
    hide EntrySize, Align8;
  }
}
