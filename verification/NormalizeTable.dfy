/** Normalisation of a file's live snapshot table: fixed dates, zero padding, everything else untouched. */
module NormalizeTable {
  import opened Bytes
  import opened Options
  import opened SnapshotTable

  const MAGIC: seq<byte> := [0x51, 0x46, 0x49, 0xFB]
  const TABLE_READ_LIMIT: nat := 1024 * 1024
  const SEEK_LIMIT: nat := 0x8000_0000_0000_0000
  const STAMP: seq<byte> := [0x60, 0, 0, 0, 0, 0, 0, 0]

  datatype Verdict = Normalized | Refused | SeekFailed

  function SnapshotCount(file: seq<byte>): nat
    requires |file| >= 72
  {
    GetBE(file, 60, 4)
  }

  function TableOffset(file: seq<byte>): nat
    requires |file| >= 72
  {
    GetBE(file, 64, 8)
  }

  /** What one read at the table's offset returns. */
  function Blob(file: seq<byte>, off: nat): (r: seq<byte>)
    ensures off + |r| <= |file| || r == []
    ensures forall p :: 0 <= p < |r| ==> r[p] == file[off + p]
  {
    if off > |file| then []
    else if off + TABLE_READ_LIMIT < |file| then file[off..off + TABLE_READ_LIMIT]
    else file[off..]
  }

  /** Dates sit at multiples of eight, so a date byte is fixed by its position. */
  function NormalByte(entries: seq<Extent>, p: nat, b: byte): byte {
    if IsDate(entries, p) then STAMP[p % 8] else if IsPadding(entries, p) then 0 else b
  }

  function Patched(file: seq<byte>, off: nat, entries: seq<Extent>): (r: seq<byte>)
    ensures |r| == |file|
  {
    seq(|file|, p requires 0 <= p < |file| => if off <= p then NormalByte(entries, p - off, file[p]) else file[p])
  }

  datatype Plan = Plan(verdict: Verdict, off: nat, entries: seq<Extent>)

  /** The decision, made before anything is written. */
  function Decide(file: seq<byte>): Plan {
    if |file| < 72 || file[..4] != MAGIC then Plan(Refused, 0, [])
    else if SnapshotCount(file) == 0 then Plan(Normalized, 0, [])
    else if TableOffset(file) == 0 then Plan(Refused, 0, [])
    else if TableOffset(file) >= SEEK_LIMIT then Plan(SeekFailed, 0, [])
    else match Walk(Blob(file, TableOffset(file)), SnapshotCount(file))
         case None => Plan(Refused, 0, [])
         case Some(entries) => Plan(Normalized, TableOffset(file), entries)
  }

  function NormalForm(file: seq<byte>): seq<byte> {
    var plan := Decide(file);
    Patched(file, plan.off, plan.entries)
  }

  lemma {:induction false} StartsAligned(blob: seq<byte>, n: nat)
    requires Walk(blob, n).Some?
    ensures forall k :: 0 <= k < n ==> Walk(blob, n).value[k].start % 8 == 0
  {
    hide EntrySize;
    if n > 0 {
      StartsAligned(blob, n - 1);
    }
  }

  lemma NoEntriesNoPatch(file: seq<byte>, off: nat)
    ensures Patched(file, off, []) == file
  {
  }

  function Dated(file: seq<byte>, off: nat, entries: seq<Extent>): (r: seq<byte>)
    ensures |r| == |file|
  {
    seq(|file|, p requires 0 <= p < |file| => if off <= p && IsDate(entries, p - off) then STAMP[(p - off) % 8]
      else file[p])
  }

  function Cleared(file: seq<byte>, off: nat, entries: seq<Extent>): (r: seq<byte>)
    ensures |r| == |file|
  {
    seq(|file|, p requires 0 <= p < |file| => if off <= p && IsPadding(entries, p - off) then 0 else file[p])
  }

  lemma DatedStep(file: seq<byte>, off: nat, entries: seq<Extent>, i: nat)
    requires i < |entries| && off + entries[i].start + 24 <= |file| && entries[i].start % 8 == 0
    ensures Dated(file, off, entries[..i + 1]) ==
              Splice(Dated(file, off, entries[..i]), off + entries[i].start + 16, STAMP)
  {
    var at := off + entries[i].start + 16;
    var r := Splice(Dated(file, off, entries[..i]), at, STAMP);
    forall p | 0 <= p < |file|
      ensures Dated(file, off, entries[..i + 1])[p] == r[p]
    {
      if off <= p {
        OneMoreDate(entries, i, p - off);
      }
      if at <= p < at + 8 {
        assert r[p] == r[at..at + 8][p - at];
      }
    }
  }

  lemma ClearedStep(file: seq<byte>, off: nat, entries: seq<Extent>, i: nat)
    requires 0 < i < |entries| && entries[i - 1].end <= entries[i].start && off + entries[i].start <= |file|
    ensures var zeros: seq<byte> := seq(entries[i].start - entries[i - 1].end, _ => 0);
            Cleared(file, off, entries[..i + 1]) ==
              Splice(Cleared(file, off, entries[..i]), off + entries[i - 1].end, zeros)
  {
    var zeros: seq<byte> := seq(entries[i].start - entries[i - 1].end, _ => 0);
    var at := off + entries[i - 1].end;
    var r := Splice(Cleared(file, off, entries[..i]), at, zeros);
    forall p | 0 <= p < |file|
      ensures Cleared(file, off, entries[..i + 1])[p] == r[p]
    {
      if off <= p {
        OneMorePadding(entries, i, p - off);
      }
      if at <= p < at + |zeros| {
        assert r[p] == r[at..at + |zeros|][p - at];
      }
    }
  }

  /** Writes the stamp at every entry's date, then zeros over the padding. */
  method PatchTable(file: array<byte>, off: nat, entries: seq<Extent>)
    requires InOrder(entries) && off + EndOf(entries) <= file.Length
    requires forall k :: 0 <= k < |entries| ==> entries[k].start % 8 == 0
    modifies file
    ensures file[..] == Patched(old(file[..]), off, entries)
  {
    hide Dated, Cleared, Splice, Patched;
    ghost var before := file[..];
    assert forall k :: 0 <= k < |entries| ==> entries[k].end <= EndOf(entries);
    assert file[..] == Dated(before, off, entries[..0]) by { NothingDead(before, off, entries[..0]); }
    for i := 0 to |entries|
      invariant file[..] == Dated(before, off, entries[..i])
    {
      DatedStep(before, off, entries, i);
      Store(file, off + entries[i].start + 16, STAMP);
    }
    assert entries[..|entries|] == entries;
    ghost var dated := file[..];
    if |entries| > 0 {
      assert file[..] == Cleared(dated, off, entries[..1]) by { NothingDead(dated, off, entries[..1]); }
      for i := 1 to |entries|
        invariant file[..] == Cleared(dated, off, entries[..i])
      {
        ClearedStep(dated, off, entries, i);
        Store(file, off + entries[i - 1].end, seq(entries[i].start - entries[i - 1].end, _ => 0));
      }
      assert entries[..|entries|] == entries;
    }
    BothSteps(before, off, entries);
  }

  lemma NothingDead(file: seq<byte>, off: nat, entries: seq<Extent>)
    requires |entries| <= 1
    ensures entries == [] ==> Dated(file, off, entries) == file
    ensures Cleared(file, off, entries) == file
  {
    assert forall r: nat :: !IsPadding(entries, r) && (entries == [] ==> !IsDate(entries, r));
    assert Cleared(file, off, entries) == file;
    assert entries == [] ==> Dated(file, off, entries) == file;
  }

  lemma BothSteps(file: seq<byte>, off: nat, entries: seq<Extent>)
    requires InOrder(entries)
    ensures Patched(file, off, entries) == Cleared(Dated(file, off, entries), off, entries)
    ensures entries == [] ==> Patched(file, off, entries) == Dated(file, off, entries)
  {
    forall p | 0 <= p < |file|
      ensures Patched(file, off, entries)[p] == Cleared(Dated(file, off, entries), off, entries)[p]
    {
      if off <= p {
        DateIsNotPadding(entries, p - off);
      }
    }
  }

  lemma OneMoreDate(entries: seq<Extent>, i: nat, p: nat)
    requires i < |entries|
    ensures IsDate(entries[..i + 1], p) <==>
              IsDate(entries[..i], p) || entries[i].start + 16 <= p < entries[i].start + 24
  {
    if IsDate(entries[..i], p) {
      var k :| 0 <= k < i && entries[..i][k].start + 16 <= p < entries[..i][k].start + 24;
      assert entries[..i + 1][k] == entries[..i][k];
    }
    assert entries[..i + 1][i] == entries[i];
    assert forall k :: 0 <= k < i ==> entries[..i + 1][k] == entries[..i][k];
  }

  lemma OneMorePadding(entries: seq<Extent>, i: nat, p: nat)
    requires 0 < i < |entries|
    ensures IsPadding(entries[..i + 1], p) <==> IsPadding(entries[..i], p) || entries[i - 1].end <= p < entries[i].start
  {
    if IsPadding(entries[..i], p) {
      var k :| 0 < k < i && entries[..i][k - 1].end <= p < entries[..i][k].start;
      assert entries[..i + 1][k] == entries[..i][k] && entries[..i + 1][k - 1] == entries[..i][k - 1];
    }
    assert entries[..i + 1][i] == entries[i] && entries[..i + 1][i - 1] == entries[i - 1];
    assert forall k :: 0 <= k < i ==> entries[..i + 1][k] == entries[..i][k];
  }

  lemma DateIsNotPadding(entries: seq<Extent>, p: nat)
    requires InOrder(entries)
    ensures !(IsDate(entries, p) && IsPadding(entries, p))
  {
  }

  /** The walk records where to patch; nothing is written unless the whole table has been walked. */
  method Normalize(file: array<byte>) returns (r: Verdict)
    modifies file
    ensures r == Decide(old(file[..])).verdict
    ensures file[..] == NormalForm(old(file[..]))
    ensures r != Normalized ==> file[..] == old(file[..])
  {
    hide Walk, Patched, Blob, EntrySize;
    NoEntriesNoPatch(file[..], 0);
    if file.Length < 72 || file[..4] != MAGIC {
      return Refused;
    }
    assert file[..][..4] == file[..4];
    var count, off := SnapshotCount(file[..]), TableOffset(file[..]);
    if count == 0 {
      return Normalized;
    }
    if off == 0 {
      return Refused;
    }
    if off >= SEEK_LIMIT {
      return SeekFailed;
    }
    var blob := Blob(file[..], off);
    var walked := WalkEntries(blob, count);
    if walked.None? {
      return Refused;
    }
    WalkInOrder(blob, count);
    StartsAligned(blob, count);
    PatchTable(file, off, walked.value);
    return Normalized;
  }

  // ----- canonical form -----

  /** Normalisation has a table to patch. */
  predicate Patchable(file: seq<byte>) {
    Decide(file).verdict == Normalized && Decide(file).entries != []
  }

  /** A byte of the magic, the snapshot count or the table offset. */
  predicate InHeader(p: nat) {
    p < 4 || 60 <= p < 72
  }

  /** A patchable file without a date or padding on the header fields that the decision reads. */
  predicate HasTable(file: seq<byte>) {
    Patchable(file) && forall p :: Decide(file).off <= p < 72 && InHeader(p) ==>
      !Dead(Decide(file).entries, p - Decide(file).off)
  }

  predicate SameHeader(file: seq<byte>, other: seq<byte>) {
    |file| == |other| && forall p :: 0 <= p < |file| && InHeader(p) ==> other[p] == file[p]
  }

  /** Same length, and the same bytes wherever `file` has no date and no padding. */
  predicate SameButDead(file: seq<byte>, other: seq<byte>) {
    var plan := Decide(file);
    |file| == |other| && forall p :: 0 <= p < |file| && (p < plan.off || !Dead(plan.entries, p - plan.off)) ==>
      other[p] == file[p]
  }

  lemma PatchedIsSameButDead(file: seq<byte>)
    ensures SameButDead(file, NormalForm(file))
  {
  }

  lemma ClearHeader(file: seq<byte>, other: seq<byte>)
    requires HasTable(file) && SameButDead(file, other)
    ensures SameHeader(file, other)
  {
    hide Decide, Dead;
  }

  /** Such files are walked alike, if their headers agree. */
  lemma SamePlan(file: seq<byte>, other: seq<byte>)
    requires Patchable(file) && SameButDead(file, other) && SameHeader(file, other)
    ensures Decide(other) == Decide(file)
  {
    hide Walk, FromBE;
    var plan := Decide(file);
    assert file[60..64] == other[60..64] && file[64..72] == other[64..72];
    assert file[..4] == other[..4];
    var a, b := Blob(file, plan.off), Blob(other, plan.off);
    assert forall p :: 0 <= p < |a| && !Dead(plan.entries, p) ==> b[p] == a[p] by {
      forall p | 0 <= p < |a| && !Dead(plan.entries, p)
        ensures b[p] == a[p]
      {
        assert a[p] == file[plan.off + p] && b[p] == other[plan.off + p];
        assert !Dead(plan.entries, plan.off + p - plan.off);
      }
    }
    WalkIgnoresDead(a, b, SnapshotCount(file), SnapshotCount(file));
  }

  lemma FieldsTell(file: seq<byte>, other: seq<byte>)
    requires |file| == |other| >= 72 && file[..4] == other[..4]
    requires SnapshotCount(file) == SnapshotCount(other) && TableOffset(file) == TableOffset(other)
    ensures SameHeader(file, other)
  {
    BEInverse(file[60..64]);
    BEInverse(other[60..64]);
    BEInverse(file[64..72]);
    BEInverse(other[64..72]);
    assert forall p :: 0 <= p < 4 ==> other[p] == other[..4][p] && file[p] == file[..4][p];
    assert forall p :: 60 <= p < 64 ==> other[p] == other[60..64][p - 60] && file[p] == file[60..64][p - 60];
    assert forall p :: 64 <= p < 72 ==> other[p] == other[64..72][p - 64] && file[p] == file[64..72][p - 64];
  }

  /** The decision is the same the second time exactly if the patch has left the header fields alone. */
  lemma PlanKept(file: seq<byte>)
    requires Patchable(file)
    ensures Decide(NormalForm(file)) == Decide(file) <==> SameHeader(file, NormalForm(file))
    ensures SameHeader(file, NormalForm(file)) ==> NormalForm(NormalForm(file)) == NormalForm(file)
  {
    hide Walk, FromBE, NormalByte;
    var g := NormalForm(file);
    PatchedIsSameButDead(file);
    if SameHeader(file, g) {
      SamePlan(file, g);
      PatchTwice(file, Decide(file).off, Decide(file).entries);
    } else if Decide(g) == Decide(file) {
      FieldsTell(file, g);
    }
  }

  lemma PatchTwice(file: seq<byte>, off: nat, entries: seq<Extent>)
    ensures Patched(Patched(file, off, entries), off, entries) == Patched(file, off, entries)
  {
    hide Dead;
  }

  /** Normalising twice is normalising once. */
  lemma NormalizeIdempotent(file: seq<byte>)
    requires HasTable(file)
    ensures Decide(NormalForm(file)) == Decide(file)
    ensures NormalForm(NormalForm(file)) == NormalForm(file)
  {
    hide Decide, NormalForm;
    PatchedIsSameButDead(file);
    ClearHeader(file, NormalForm(file));
    PlanKept(file);
  }

  // ----- a table over the header -----

  /** One entry at byte 47: its date covers the low byte of the count and most of the table's offset. */
  function OverHeader(): (file: seq<byte>)
    ensures |file| == 3887 && file[..4] == MAGIC
    ensures forall p :: 4 <= p < 3887 ==> file[p] == if p == 63 then 1 else if p == 71 then 47 else 0
  {
    MAGIC + seq(3883, p requires 0 <= p => if p == 59 then 1 else if p == 67 then 47 else 0)
  }

  /** Its count and offset, after any change of the low byte of the count. */
  lemma OverHeaderRead(file: seq<byte>, count: nat)
    requires |file| == 3887 && file[..4] == MAGIC && 0 < count < 97 && file[63] == count && file[71] == 47
    requires forall p :: 60 <= p < 71 && p != 63 ==> file[p] == 0
    ensures SnapshotCount(file) == count && TableOffset(file) == 47
    ensures Decide(file) == match Walk(Blob(file, 47), count)
                            case None => Plan(Refused, 0, [])
                            case Some(entries) => Plan(Normalized, 47, entries)
  {
    hide Walk;
    LowByte(file[60..64]);
    LowByte(file[64..72]);
  }

  lemma LowByte(s: seq<byte>)
    requires |s| > 0 && forall p :: 0 <= p < |s| - 1 ==> s[p] == 0
    ensures FromBE(s) == s[|s| - 1]
  {
    ZeroField(s[..|s| - 1]);
  }

  lemma OverHeaderWalk(file: seq<byte>, count: nat)
    requires |file| == 3887 && 0 < count < 97
    requires forall p :: 47 <= p < 3887 && p != 63 && p != 71 ==> file[p] == 0
    ensures Walk(Blob(file, 47), count).Some?
    ensures forall k :: 0 <= k < count ==> Walk(Blob(file, 47), count).value[k] == Extent(40 * k, 40 * k + 40)
  {
    hide Walk;
    BareWalk(Blob(file, 47), count);
  }

  lemma PatchedOnce(file: seq<byte>)
    requires file == OverHeader()
    ensures Patchable(file) && Decide(file).off == 47 && |Decide(file).entries| == 1
    ensures |NormalForm(file)| == 3887 && NormalForm(file)[..4] == MAGIC
    ensures forall p :: 4 <= p < 3887 ==> NormalForm(file)[p] == if p == 63 then 0x60 else if p == 71 then 47 else 0
  {
    hide Walk, FromBE, Blob;
    OverHeaderRead(file, 1);
    OverHeaderWalk(file, 1);
    var entries := Decide(file).entries;
    assert entries == [Extent(0, 40)];
    var g := NormalForm(file);
    assert forall p :: 0 <= p < 4 ==> g[p] == file[p] && file[p] == file[..4][p];
    forall p | 4 <= p < 3887
      ensures g[p] == if p == 63 then 0x60 else if p == 71 then 47 else 0
    {
      if 47 <= p {
        assert IsDate(entries, p - 47) <==> 63 <= p < 71;
        assert !IsPadding(entries, p - 47);
      }
    }
  }

  /** The first patch makes its count 96, so that the second one stamps 96 dates. */
  lemma NotIdempotentOverHeader()
    ensures var file := OverHeader();
            && Patchable(file) && Decide(NormalForm(file)) != Decide(file)
            && NormalForm(NormalForm(file)) != NormalForm(file)
  {
    hide Walk, FromBE, Blob, NormalForm;
    var file := OverHeader();
    PatchedOnce(file);
    var g := NormalForm(file);
    OverHeaderRead(g, 96);
    OverHeaderWalk(g, 96);
    SecondDate(g);
  }

  lemma SecondDate(g: seq<byte>)
    requires |g| == 3887 && g[103] == 0 && Decide(g).off == 47 && |Decide(g).entries| == 96
    requires Decide(g).entries[1] == Extent(40, 80)
    ensures NormalForm(g)[103] == 0x60
  {
    hide Walk, FromBE, Decide;
    assert IsDate(Decide(g).entries, 56);
  }

  /** Two files have the same normal form exactly if they differ in dates and padding only. */
  lemma CanonicalForm(file: seq<byte>, other: seq<byte>)
    requires HasTable(file) && HasTable(other)
    ensures NormalForm(file) == NormalForm(other) <==> SameButDead(file, other)
  {
    hide Decide;
    if SameButDead(file, other) {
      ClearHeader(file, other);
      SamePlan(file, other);
      var plan := Decide(file);
      assert forall p :: 0 <= p < |file| ==> NormalForm(file)[p] == NormalForm(other)[p] by {
        forall p | 0 <= p < |file|
          ensures NormalForm(file)[p] == NormalForm(other)[p]
        {
          assert p < plan.off || !Dead(plan.entries, p - plan.off) ==> other[p] == file[p];
        }
      }
    } else if NormalForm(file) == NormalForm(other) {
      NormalizeIdempotent(file);
      NormalizeIdempotent(other);
      var plan := Decide(file);
      forall p | 0 <= p < |file| && (p < plan.off || !Dead(plan.entries, p - plan.off))
        ensures other[p] == file[p]
      {
        assert NormalForm(file)[p] == file[p] && NormalForm(other)[p] == other[p];
      }
    }
  }
}
