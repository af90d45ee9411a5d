/** A compact fuzzing seed: the header sector, a control block, and the snapshot table moved to byte 1024. */
module SnapshotSeed {
  import opened Bytes
  import opened Options
  import opened SnapshotTable
  import opened NormalizeTable

  const TABLE_AT: nat := 1024
  const SECTOR: nat := 512

  /** The source header, with the snapshot count and the table offset replaced. */
  method WriteHeader(seed: array<byte>, header: seq<byte>, count: nat)
    requires seed.Length >= TABLE_AT && |header| >= SECTOR
    modifies seed
    ensures seed[..60] == header[..60] && seed[60..64] == BE(4, count) && seed[64..72] == BE(8, TABLE_AT)
    ensures seed[72..SECTOR] == header[72..SECTOR]
    ensures forall p :: SECTOR <= p < seed.Length ==> seed[p] == old(seed[p])
  {
    hide BE, Splice;
    ghost var before := seed[..];
    Store(seed, 0, header[..SECTOR]);
    ghost var s1 := seed[..];
    assert s1[0..SECTOR] == header[..SECTOR];
    Store(seed, 60, BE(4, count));
    ghost var s2 := seed[..];
    Store(seed, 64, BE(8, TABLE_AT));
    assert s2[60..64] == BE(4, count) && seed[..][64..72] == BE(8, TABLE_AT);
    forall p | 0 <= p < 60 || 72 <= p < SECTOR
      ensures seed[p] == header[p]
    {
      assert seed[..][p] == s2[p] == s1[p] == s1[0..SECTOR][p];
    }
    assert seed[60..64] == s2[60..64] by { assert seed[..][60..64] == s2[60..64]; }
    assert forall p :: SECTOR <= p < seed.Length ==> seed[..][p] == s2[p] && s2[p] == s1[p] && s1[p] == before[p];
  }

  /**
   What the control block holds from byte 528 on: the count again, no early stop, and the first id as a search needle.
   */
  function Needle(count: nat, table: seq<byte>): (r: seq<byte>)
    ensures |r| == 12
  {
    LE(2, if count < 0xFFFF then count else 0xFFFF) + [0] +
    if |table| < ENTRY_HEADER then [0, 0, 0, 0, 0, 0, 0, 0, 0]
    else
      var idLen := GetBE(table, 12, 2);
      [if idLen < 64 then idLen else 64] + LE(8, TABLE_AT + ENTRY_HEADER + GetBE(table, 36, 4))
  }

  lemma Fields(s: seq<byte>)
    requires |s| >= 528
    ensures s[512..520] == s[512..528][..8] && s[520..524] == s[512..528][8..12] && s[524..528] == s[512..528][12..]
  {
  }

  /** Offsets and counts for the header-independent readers, then the needle. */
  method WriteControl(seed: array<byte>, count: nat, table: seq<byte>)
    requires seed.Length >= TABLE_AT && forall p :: 512 <= p < TABLE_AT ==> seed[p] == 0
    modifies seed
    ensures seed[512..520] == LE(8, TABLE_AT) && seed[520..524] == LE(4, count) && seed[524..528] == LE(4, TABLE_AT)
    ensures seed[528..540] == Needle(count, table)
    ensures forall p :: 0 <= p < 512 || 540 <= p < seed.Length ==> seed[p] == old(seed[p])
  {
    hide BE, LE, FromBE, FromLE, Splice;
    var block := LE(8, TABLE_AT) + LE(4, count) + LE(4, TABLE_AT);
    assert block[..8] == LE(8, TABLE_AT) && block[8..12] == LE(4, count) && block[12..] == LE(4, TABLE_AT);
    Store(seed, 512, block);
    ghost var s1 := seed[..];
    assert s1[512..528] == block;
    var pure := LE(2, if count < 0xFFFF then count else 0xFFFF) + [0];
    Store(seed, 528, pure);
    ghost var s2 := seed[..];
    assert s2[528..531] == pure;
    ghost var rest := [0, 0, 0, 0, 0, 0, 0, 0, 0];
    if |table| >= ENTRY_HEADER {
      var idLen, extra := GetBE(table, 12, 2), GetBE(table, 36, 4);
      var needle := [if idLen < 64 then idLen else 64] + LE(8, TABLE_AT + ENTRY_HEADER + extra);
      Store(seed, 531, needle);
      rest := needle;
      assert seed[..][531..540] == rest;
    } else {
      assert forall p :: 531 <= p < 540 ==> seed[..][p] == s1[p] == 0;
    }
    assert seed[531..540] == rest;
    assert seed[528..531] == s2[528..531];
    assert seed[528..540] == seed[528..531] + seed[531..540];
    assert seed[512..528] == s1[512..528];
    Fields(seed[..]);
  }

  /** The seed: patched header, then the control block, then the table. */
  method BuildSeed(header: seq<byte>, count: nat, table: seq<byte>) returns (seed: array<byte>)
    requires |header| >= SECTOR && count < U32
    ensures fresh(seed) && seed.Length == TABLE_AT + |table|
    ensures seed[TABLE_AT..] == table
    ensures seed[..60] == header[..60] && seed[72..SECTOR] == header[72..SECTOR]
    ensures SnapshotCount(seed[..]) == count && TableOffset(seed[..]) == TABLE_AT
    ensures GetLE(seed[..], 512, 8) == TABLE_AT && GetLE(seed[..], 520, 4) == count
    ensures GetLE(seed[..], 524, 4) == TABLE_AT
    ensures seed[528..540] == Needle(count, table) && forall p :: 540 <= p < TABLE_AT ==> seed[p] == 0
  {
    hide BE, LE, FromBE, FromLE, Splice, Needle;
    seed := new byte[TABLE_AT + |table|](_ => 0);
    WriteHeader(seed, header, count);
    ghost var s1 := seed[..];
    WriteControl(seed, count, table);
    ghost var s2 := seed[..];
    Store(seed, TABLE_AT, table);
    assert seed[TABLE_AT..] == seed[..][TABLE_AT..TABLE_AT + |table|];
    assert seed[..SECTOR] == s1[..SECTOR] && seed[512..540] == s2[512..540];
    assert seed[528..540] == seed[512..540][16..] && s2[528..540] == s2[512..540][16..];
    assert seed[512..528] == s2[512..528];
    assert seed[..][60..64] == BE(4, count) && seed[..][64..72] == BE(8, TABLE_AT);
    assert seed[..][512..520] == LE(8, TABLE_AT) && seed[..][520..524] == LE(4, count)
      && seed[..][524..528] == LE(4, TABLE_AT);
    WidthLimits();
    BERoundTrip(4, count);
    BERoundTrip(8, TABLE_AT);
    LERoundTrip(4, count);
    LERoundTrip(8, TABLE_AT);
    LERoundTrip(4, TABLE_AT);
  }

  /** The file has a snapshot table that the walk can measure. */
  predicate Extractable(file: seq<byte>) {
    && |file| >= SECTOR && SnapshotCount(file) != 0 && TableOffset(file) != 0 && TableOffset(file) <= |file|
    && Walk(Blob(file, TableOffset(file)), AtMost(SnapshotCount(file))).Some?
  }

  /** The seed's own table, read through its own header, can be walked, and gives what it gives in the source file. */
  ghost predicate SelfContained(file: seq<byte>, seed: seq<byte>)
    requires |file| >= SECTOR
  {
    && |seed| >= SECTOR && SnapshotCount(seed) == SnapshotCount(file)
    && Walk(Blob(seed, TableOffset(seed)), SnapshotCount(seed)).Some?
    && Walk(Blob(seed, TableOffset(seed)), SnapshotCount(seed)) ==
       Walk(Blob(file, TableOffset(file)), SnapshotCount(file))
  }

  /** A seed is made exactly for extractable files, and it is self-contained exactly up to 4096 snapshots. */
  method ExtractSeed(file: seq<byte>) returns (seed: Option<seq<byte>>)
    ensures seed.Some? <==> Extractable(file)
    ensures seed.Some? ==> (SelfContained(file, seed.value) <==> SnapshotCount(file) <= MAX_ENTRIES)
  {
    hide Walk, FromBE, FromLE;
    if |file| < SECTOR {
      return None;
    }
    var count, off := SnapshotCount(file), TableOffset(file);
    if count == 0 || off == 0 || off > |file| {
      return None;
    }
    var blob := Blob(file, off);
    var len := TableLength(blob, count);
    assert len.Some? ==> len.value > 0 by {
      if len.Some? {
        FirstEntryTakesRoom(blob, AtMost(count));
      }
    }
    if len.None? || len.value == 0 {
      return None;
    }
    CountFits(file);
    var image := BuildSeed(file[..SECTOR], count, blob[..len.value]);
    TruncationStable(blob, AtMost(count), len.value);
    assert Blob(image[..], TABLE_AT) == blob[..len.value];
    if count > MAX_ENTRIES {
      NothingFollows(blob[..len.value], AtMost(count), count);
    }
    return Some(image[..]);
  }

  lemma FirstEntryTakesRoom(blob: seq<byte>, n: nat)
    requires n > 0 && Walk(blob, n).Some?
    ensures EndOf(Walk(blob, n).value) > 0
  {
  }

  lemma CountFits(file: seq<byte>)
    requires |file| >= 72
    ensures SnapshotCount(file) < U32
  {
    BEInverse(file[60..64]);
    WidthLimits();
  }

  // ----- one snapshot too many -----

  /** A header with a count of 4097 and a table of as many bare entries. */
  function ManySnapshots(): (file: seq<byte>)
    ensures |file| == 164392
    ensures forall p :: 0 <= p < |file| ==>
              file[p] == if p == 62 then 0x10 else if p == 63 then 1 else if p == 70 then 2 else 0
  {
    seq(164392, p requires 0 <= p => if p == 62 then 0x10 else if p == 63 then 1 else if p == 70 then 2 else 0)
  }

  lemma TwoLowBytes(s: seq<byte>)
    requires |s| >= 2 && forall p :: 0 <= p < |s| - 2 ==> s[p] == 0
    ensures FromBE(s) == 256 * (s[|s| - 2] as nat) + s[|s| - 1]
  {
    var t := s[..|s| - 1];
    assert t[..|t| - 1] == s[..|s| - 2];
    ZeroField(s[..|s| - 2]);
    assert FromBE(t) == t[|t| - 1];
  }

  lemma ManySnapshotsRead()
    ensures SnapshotCount(ManySnapshots()) == 4097 && TableOffset(ManySnapshots()) == 512
  {
    hide ManySnapshots, FromBE;
    TwoLowBytes(ManySnapshots()[60..64]);
    TwoLowBytes(ManySnapshots()[64..72]);
  }

  lemma ManySnapshotsExtractable()
    ensures Extractable(ManySnapshots())
  {
    hide Walk, ManySnapshots;
    ManySnapshotsRead();
    BareWalk(Blob(ManySnapshots(), 512), AtMost(4097));
  }

  /** Its seed is made, and cannot be walked by its own header. */
  method SeedCutShort() returns (seed: Option<seq<byte>>)
    ensures seed.Some? && !SelfContained(ManySnapshots(), seed.value)
  {
    hide SelfContained, Extractable, ManySnapshots;
    ManySnapshotsRead();
    ManySnapshotsExtractable();
    seed := ExtractSeed(ManySnapshots());
  }

  /** The needle of a seed is the first id of its table: what lies at its offset, up to 64 bytes of it. */
  lemma NeedleFindsId(seed: seq<byte>, count: nat, table: seq<byte>, extra: nat, id: seq<byte>)
    requires |seed| == TABLE_AT + |table| && seed[TABLE_AT..] == table && seed[528..540] == Needle(count, table)
    requires |table| >= ENTRY_HEADER && extra == GetBE(table, 36, 4) && |id| == GetBE(table, 12, 2)
    requires ENTRY_HEADER + extra + |id| <= |table| && table[ENTRY_HEADER + extra..ENTRY_HEADER + extra + |id|] == id
    ensures var length, at := seed[531] as nat, GetLE(seed, 532, 8);
            && length == (if |id| < 64 then |id| else 64) && at + length <= |seed|
            && seed[at..at + length] == id[..length]
    ensures GetLE(seed, 528, 2) == (if count < 0xFFFF then count else 0xFFFF) && seed[530] == 0
  {
    hide BE, LE, FromBE, FromLE;
    var n := Needle(count, table);
    var at := TABLE_AT + ENTRY_HEADER + extra;
    assert n[4..12] == LE(8, at) && n[..2] == LE(2, if count < 0xFFFF then count else 0xFFFF);
    SubSlice(seed, 528, n, 0, 2);
    SubSlice(seed, 528, n, 4, 8);
    assert seed[530] == seed[528..540][2] && seed[531] == seed[528..540][3];
    FieldFits(table, 36, 4);
    WidthLimits();
    LERoundTrip(8, at);
    LERoundTrip(2, if count < 0xFFFF then count else 0xFFFF);
    var length := if |id| < 64 then |id| else 64;
    assert seed[at..at + length] == id[..length] by {
      forall k | 0 <= k < length
        ensures seed[at + k] == id[k]
      {
        assert seed[TABLE_AT..][at - TABLE_AT + k] == table[at - TABLE_AT + k];
        assert id[k] == table[ENTRY_HEADER + extra..ENTRY_HEADER + extra + |id|][k];
      }
    }
  }

  lemma FieldFits(s: seq<byte>, at: nat, n: nat)
    requires at + n <= |s|
    ensures GetBE(s, at, n) < Pow256(n)
  {
    BEInverse(s[at..at + n]);
  }
}
