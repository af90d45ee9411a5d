/** A compact seed from a differencing VHD: the dynamic header, and the platform data its locators name. */
module VhdSeed {
  import opened Bytes
  import opened Options

  const FOOTER: nat := 512
  const HEADER: nat := 1024
  const LOCATORS: nat := 576
  const ENTRY: nat := 24
  const SLOTS: nat := 8
  const RESERVED: nat := 32
  const WINDOW: nat := 1536
  const REGION_MAX: nat := 65536
  const DIFFERENCING: nat := 4
  const CONECTIX: seq<byte> := [0x63, 0x6F, 0x6E, 0x65, 0x63, 0x74, 0x69, 0x78]
  const CXSPARSE: seq<byte> := [0x63, 0x78, 0x73, 0x70, 0x61, 0x72, 0x73, 0x65]
  const NO_CODE: seq<byte> := [0, 0, 0, 0]

  function SlotAt(slot: nat): nat {
    LOCATORS + slot * ENTRY
  }

  function DataLength(header: seq<byte>, slot: nat): nat
    requires |header| == HEADER && slot < SLOTS
  {
    GetBE(header, SlotAt(slot) + 8, 4)
  }

  function DataOffset(header: seq<byte>, slot: nat): nat
    requires |header| == HEADER && slot < SLOTS
  {
    GetBE(header, SlotAt(slot) + 16, 8)
  }

  /** A slot that names some platform data. */
  predicate Populated(header: seq<byte>, slot: nat)
    requires |header| == HEADER && slot < SLOTS
  {
    header[SlotAt(slot)..SlotAt(slot) + 4] != NO_CODE && DataLength(header, slot) != 0
  }

  /** A slot whose data is really in a file of the given size. */
  predicate InFile(header: seq<byte>, size: nat, slot: nat)
    requires |header| == HEADER && slot < SLOTS
  {
    Populated(header, slot) && DataOffset(header, slot) + DataLength(header, slot) <= size
  }

  function EndOf(header: seq<byte>, slot: nat): nat
    requires |header| == HEADER && slot < SLOTS
  {
    DataOffset(header, slot) + DataLength(header, slot)
  }

  /** The header of a file the extraction can use. */
  function HeaderOf(file: seq<byte>): (r: Option<seq<byte>>)
    ensures r.Some? ==> |r.value| == HEADER
  {
    if |file| < FOOTER then None else
    var footer := file[|file| - FOOTER..];
    if footer[0..8] != CONECTIX || GetBE(footer, 60, 4) != DIFFERENCING then None else
    var at := GetBE(footer, 16, 8);
    if at == 0 || at + HEADER > |file| then None else
    var header := file[at..at + HEADER];
    if header[0..8] != CXSPARSE then None else Some(header)
  }

  /** The bytes copied: from the lowest in-file offset to the highest end, cut to the limit. */
  datatype Region = NoRegion | Region(start: nat, end: nat)
  {
    function Length(): nat {
      match this
      case NoRegion => 0
      case Region(s, e) => if e - s > REGION_MAX then REGION_MAX else if e < s then 0 else e - s
    }
  }

  /** The region spans the first n slots' in-file data, and no more. */
  ghost predicate Spans(r: Region, header: seq<byte>, size: nat, n: nat)
    requires |header| == HEADER && n <= SLOTS
  {
    && (r.NoRegion? <==> forall s :: 0 <= s < n ==> !InFile(header, size, s))
    && (r.Region? ==>
          && r.start <= r.end <= size
          && (forall s :: 0 <= s < n && InFile(header, size, s) ==>
              r.start <= DataOffset(header, s) && EndOf(header, s) <= r.end)
          && (exists s :: 0 <= s < n && InFile(header, size, s) && DataOffset(header, s) == r.start)
          && (exists s :: 0 <= s < n && InFile(header, size, s) && EndOf(header, s) == r.end))
  }

  /** The populated slots among the first n, in order. */
  function Listed(header: seq<byte>, n: nat): (r: seq<nat>)
    requires |header| == HEADER && n <= SLOTS
    ensures forall s :: s in r <==> 0 <= s < n && Populated(header, s)
  {
    if n == 0 then [] else Listed(header, n - 1) + if Populated(header, n - 1) then [n - 1] else []
  }

  function Widened(r: Region, off: nat, end: nat): Region {
    match r
    case NoRegion => Region(off, end)
    case Region(s, e) => Region(if off < s then off else s, if end > e then end else e)
  }

  lemma SpansSkip(r: Region, header: seq<byte>, size: nat, n: nat)
    requires |header| == HEADER && n < SLOTS && Spans(r, header, size, n) && !InFile(header, size, n)
    ensures Spans(r, header, size, n + 1)
  {
    hide InFile, DataOffset, EndOf;
    if r.Region? {
      var a :| 0 <= a < n && InFile(header, size, a) && DataOffset(header, a) == r.start;
      var b :| 0 <= b < n && InFile(header, size, b) && EndOf(header, b) == r.end;
      assert InFile(header, size, a) && DataOffset(header, a) == r.start;
      assert InFile(header, size, b) && EndOf(header, b) == r.end;
    }
  }

  lemma SpansGrow(r: Region, header: seq<byte>, size: nat, n: nat)
    requires |header| == HEADER && n < SLOTS && Spans(r, header, size, n) && InFile(header, size, n)
    requires DataOffset(header, n) <= EndOf(header, n) <= size
    ensures Spans(Widened(r, DataOffset(header, n), EndOf(header, n)), header, size, n + 1)
  {
    hide InFile, DataOffset, EndOf;
    var w := Widened(r, DataOffset(header, n), EndOf(header, n));
    if r.Region? {
      var a :| 0 <= a < n && InFile(header, size, a) && DataOffset(header, a) == r.start;
      var b :| 0 <= b < n && InFile(header, size, b) && EndOf(header, b) == r.end;
      var a' := if DataOffset(header, n) < r.start then n else a;
      var b' := if EndOf(header, n) > r.end then n else b;
      assert InFile(header, size, a') && DataOffset(header, a') == w.start;
      assert InFile(header, size, b') && EndOf(header, b') == w.end;
    } else {
      assert InFile(header, size, n) && DataOffset(header, n) == w.start && EndOf(header, n) == w.end;
    }
  }

  /** Gathers the populated slots and the region they span. */
  method FindRegion(header: seq<byte>, size: nat) returns (entries: seq<nat>, region: Region)
    requires |header| == HEADER
    ensures Spans(region, header, size, SLOTS) && entries == Listed(header, SLOTS)
  {
    hide GetBE, Spans;
    entries, region := [], NoRegion;
    assert Spans(NoRegion, header, size, 0) by { NothingYet(header, size); }
    for slot := 0 to SLOTS
      invariant Spans(region, header, size, slot) && entries == Listed(header, slot)
    {
      if header[SlotAt(slot)..SlotAt(slot) + 4] == NO_CODE {
        SpansSkip(region, header, size, slot);
        continue;
      }
      var length := DataLength(header, slot);
      if length == 0 {
        SpansSkip(region, header, size, slot);
        continue;
      }
      var off := DataOffset(header, slot);
      entries := entries + [slot];
      if off + length > size {
        SpansSkip(region, header, size, slot);
        continue;
      }
      SpansGrow(region, header, size, slot);
      region := Widened(region, off, off + length);
    }
  }

  lemma NothingYet(header: seq<byte>, size: nat)
    requires |header| == HEADER
    ensures Spans(NoRegion, header, size, 0)
  {
  }

  /** A slot whose data made it into the copied bytes. */
  predicate Moved(header: seq<byte>, size: nat, r: Region, slot: nat)
    requires |header| == HEADER && slot < SLOTS
  {
    InFile(header, size, slot) && r.Region? && r.start <= DataOffset(header, slot)
      && EndOf(header, slot) <= r.start + r.Length()
  }

  /** Where a moved slot's data lies in the window that stands for the image. */
  function NewOffset(header: seq<byte>, r: Region, slot: nat): nat
    requires |header| == HEADER && slot < SLOTS
  {
    if r.Region? && r.start <= DataOffset(header, slot) then WINDOW + RESERVED + (DataOffset(header, slot) - r.start)
      else 0
  }

  /** Offset p lies in the offset field of one of the given slots that moved. */
  predicate Patched(header: seq<byte>, size: nat, r: Region, done: seq<nat>, p: nat)
    requires |header| == HEADER
  {
    exists s :: s in done && s < SLOTS && Moved(header, size, r, s) && SlotAt(s) + 16 <= p < SlotAt(s) + 24
  }

  /** Only the offset fields of moved slots differ, and they hold the new offsets. */
  predicate Relocated(header: seq<byte>, now: seq<byte>, size: nat, r: Region, done: seq<nat>)
    requires |header| == HEADER
  {
    && |now| == HEADER
    && (forall p :: 0 <= p < HEADER && !Patched(header, size, r, done, p) ==> now[p] == header[p])
    && (forall s :: s in done && s < SLOTS && Moved(header, size, r, s) ==>
          now[SlotAt(s) + 16..SlotAt(s) + 24] == BE(8, NewOffset(header, r, s)))
  }

  lemma OneSlotMore(header: seq<byte>, before: seq<byte>, now: seq<byte>, size: nat, r: Region, done: seq<nat>,
                    slot: nat)
    requires |header| == HEADER && Relocated(header, before, size, r, done) && slot < SLOTS && slot !in done
    requires Moved(header, size, r, slot) ==>
              now == Splice(before, SlotAt(slot) + 16, BE(8, NewOffset(header, r, slot)))
    requires !Moved(header, size, r, slot) ==> now == before
    ensures Relocated(header, now, size, r, done + [slot])
  {
    hide GetBE, BE, Moved, NewOffset;
    var more := done + [slot];
    forall p | 0 <= p < HEADER && !Patched(header, size, r, more, p)
      ensures now[p] == header[p]
    {
      assert slot in more;
      assert !Patched(header, size, r, done, p);
    }
    forall s | s in more && s < SLOTS && Moved(header, size, r, s)
      ensures now[SlotAt(s) + 16..SlotAt(s) + 24] == BE(8, NewOffset(header, r, s))
    {
      if s != slot && Moved(header, size, r, slot) {
        SpliceElsewhere(before, SlotAt(slot) + 16, BE(8, NewOffset(header, r, slot)), SlotAt(s) + 16, 8);
      }
    }
  }

  lemma InsideRegion(header: seq<byte>, size: nat, r: Region, slot: nat)
    requires |header| == HEADER && slot < SLOTS && Spans(r, header, size, SLOTS) && InFile(header, size, slot)
    ensures r.Region? && r.start <= DataOffset(header, slot) && EndOf(header, slot) <= r.end <= size
  {
    hide InFile, DataOffset, EndOf;
  }

  /** One slot's offset rewritten in place, if its data was copied. */
  method PatchSlot(buffer: array<byte>, header: seq<byte>, size: nat, region: Region, slot: nat, ghost done: seq<nat>)
    requires buffer.Length == HEADER && |header| == HEADER && slot < SLOTS && Populated(header, slot) && slot !in done
    requires Spans(region, header, size, SLOTS) && Relocated(header, buffer[..], size, region, done)
    modifies buffer
    ensures Relocated(header, buffer[..], size, region, done + [slot])
  {
    hide GetBE, BE, Splice, Relocated, Spans, DataOffset, DataLength, Populated;
    ghost var before := buffer[..];
    var off, length := DataOffset(header, slot), DataLength(header, slot);
    if off + length <= size {
      InsideRegion(header, size, region, slot);
      if off + length <= region.start + region.Length() {
        var moved := WINDOW + RESERVED + (off - region.start);
        Store(buffer, SlotAt(slot) + 16, BE(8, moved));
      }
    }
    OneSlotMore(header, before, buffer[..], size, region, done, slot);
  }

  /** Rewrites the offsets of the slots whose data was copied. */
  method Relocate(header: seq<byte>, size: nat, region: Region, entries: seq<nat>) returns (now: seq<byte>)
    requires |header| == HEADER && entries == Listed(header, SLOTS) && Spans(region, header, size, SLOTS)
    ensures |now| == HEADER && Relocated(header, now, size, region, entries)
  {
    hide GetBE, Relocated, Spans, Populated;
    var buffer := new byte[HEADER](k requires 0 <= k < HEADER => header[k]);
    assert buffer[..] == header;
    Untouched(header, size, region);
    for k := 0 to |entries|
      invariant Relocated(header, buffer[..], size, region, entries[..k])
    {
      var slot := entries[k];
      ListedOnce(header, SLOTS, k);
      assert slot in Listed(header, SLOTS);
      PatchSlot(buffer, header, size, region, slot, entries[..k]);
      assert entries[..k + 1] == entries[..k] + [slot];
    }
    assert entries[..|entries|] == entries;
    now := buffer[..];
  }

  lemma Untouched(header: seq<byte>, size: nat, r: Region)
    requires |header| == HEADER
    ensures Relocated(header, header, size, r, [])
  {
  }

  lemma {:induction false} ListedOnce(header: seq<byte>, n: nat, k: nat)
    requires |header| == HEADER && n <= SLOTS && k < |Listed(header, n)|
    ensures Listed(header, n)[k] !in Listed(header, n)[..k]
  {
    hide Populated;
    var init := Listed(header, n - 1);
    if k < |init| {
      ListedOnce(header, n - 1, k);
      assert Listed(header, n)[..k] == init[..k];
    } else {
      assert Listed(header, n)[..k] == init;
    }
  }

  /** The seed: the relocated header, a zeroed control prefix, and the copied region. */
  predicate IsSeed(seed: seq<byte>, file: seq<byte>, header: seq<byte>, r: Region)
    requires |header| == HEADER
  {
    && |seed| == HEADER + RESERVED + r.Length() && (r.Region? ==> r.start + r.Length() <= |file|)
    && Relocated(header, seed[..HEADER], |file|, r, Listed(header, SLOTS))
    && (forall k :: HEADER <= k < HEADER + RESERVED ==> seed[k] == 0)
    && (r.Region? ==> seed[HEADER + RESERVED..] == file[r.start..r.start + r.Length()])
  }

  lemma SomeListed(header: seq<byte>)
    requires |header| == HEADER
    ensures Listed(header, SLOTS) != [] <==> exists s :: 0 <= s < SLOTS && Populated(header, s)
  {
    hide Populated;
    if Listed(header, SLOTS) != [] {
      assert Listed(header, SLOTS)[0] in Listed(header, SLOTS);
    }
  }

  /** Extracts the seed of a file, if it is a differencing disk with a populated locator. */
  method ExtractSeed(file: seq<byte>) returns (seed: Option<seq<byte>>, ghost region: Region)
    ensures HeaderOf(file).Some? ==> Spans(region, HeaderOf(file).value, |file|, SLOTS)
    ensures seed.Some? <==> HeaderOf(file).Some? && exists s :: 0 <= s < SLOTS && Populated(HeaderOf(file).value, s)
    ensures seed.Some? ==> IsSeed(seed.value, file, HeaderOf(file).value, region)
  {
    hide GetBE, Populated, Relocated, Spans, Listed, HeaderOf;
    region := NoRegion;
    var parsed := HeaderOf(file);
    if parsed.None? {
      return None, region;
    }
    var header := parsed.value;
    var entries, span := FindRegion(header, |file|);
    region := span;
    SomeListed(header);
    if entries == [] {
      return None, region;
    }
    InFileRegion(header, |file|, span);
    var copied := if span.NoRegion? then [] else file[span.start..span.start + span.Length()];
    var now := Relocate(header, |file|, span, entries);
    var joined := Join(now, copied);
    return Some(joined), region;
  }

  lemma InFileRegion(header: seq<byte>, size: nat, r: Region)
    requires |header| == HEADER && Spans(r, header, size, SLOTS)
    ensures r.Region? ==> r.start <= r.end && r.start + r.Length() <= size
  {
    hide InFile;
  }

  /** The header, then the control prefix of zeros, then the copied bytes. */
  method Join(now: seq<byte>, copied: seq<byte>) returns (seed: seq<byte>)
    requires |now| == HEADER
    ensures |seed| == HEADER + RESERVED + |copied| && seed[..HEADER] == now && seed[HEADER + RESERVED..] == copied
    ensures forall k :: HEADER <= k < HEADER + RESERVED ==> seed[k] == 0
  {
    var tail := new byte[RESERVED + |copied|](_ => 0);
    Put(tail, RESERVED, copied);
    seed := now + tail[..];
  }

  /** Byte o of the image, as a reader of the seed sees it through the window. */
  function WindowByte(seed: seq<byte>, o: nat): Option<byte>
    requires |seed| >= HEADER
  {
    if o < WINDOW || HEADER + (o - WINDOW) >= |seed| then None else Some(seed[HEADER + (o - WINDOW)])
  }

  lemma OtherFields(header: seq<byte>, now: seq<byte>, size: nat, r: Region, done: seq<nat>, slot: nat)
    requires |header| == HEADER && Relocated(header, now, size, r, done) && slot < SLOTS
    ensures now[SlotAt(slot)..SlotAt(slot) + 16] == header[SlotAt(slot)..SlotAt(slot) + 16]
    ensures DataLength(now, slot) == DataLength(header, slot) && (Populated(now, slot) <==> Populated(header, slot))
    ensures !(slot in done && Moved(header, size, r, slot)) ==> DataOffset(now, slot) == DataOffset(header, slot)
  {
    hide Moved, FromBE;
    var a := SlotAt(slot);
    assert forall p :: a <= p < a + 16 ==> !Patched(header, size, r, done, p);
    assert now[a..a + 16] == header[a..a + 16];
    SubSlice(now, a, header[a..a + 16], 8, 4);
    SubSlice(header, a, header[a..a + 16], 8, 4);
    SubSlice(now, a, header[a..a + 16], 0, 4);
    SubSlice(header, a, header[a..a + 16], 0, 4);
    if !(slot in done && Moved(header, size, r, slot)) {
      assert forall p :: a + 16 <= p < a + 24 ==> !Patched(header, size, r, done, p);
      assert now[a + 16..a + 24] == header[a + 16..a + 24];
    }
  }

  /** A moved slot of the seed names, through the window, exactly the bytes it named in the file. */
  lemma SameBytes(seed: seq<byte>, file: seq<byte>, header: seq<byte>, r: Region, slot: nat)
    requires |header| == HEADER && IsSeed(seed, file, header, r) && slot < SLOTS && |file| < 0x8000_0000_0000_0000
    ensures var now := seed[..HEADER];
            && DataLength(now, slot) == DataLength(header, slot) && (Populated(now, slot) <==> Populated(header, slot))
            && (Moved(header, |file|, r, slot) ==>
                  && DataOffset(now, slot) == NewOffset(header, r, slot)
                  && forall p :: DataOffset(header, slot) <= p < EndOf(header, slot) ==>
                       WindowByte(seed, DataOffset(now, slot) + (p - DataOffset(header, slot))) == Some(file[p]))
            && (!Moved(header, |file|, r, slot) ==> DataOffset(now, slot) == DataOffset(header, slot))
  {
    hide GetBE, BE, Relocated, Populated, DataLength, WindowByte;
    var now := seed[..HEADER];
    OtherFields(header, now, |file|, r, Listed(header, SLOTS), slot);
    if Moved(header, |file|, r, slot) {
      assert slot in Listed(header, SLOTS);
      NewField(header, now, |file|, r, slot);
      forall p | DataOffset(header, slot) <= p < EndOf(header, slot)
        ensures WindowByte(seed, DataOffset(now, slot) + (p - DataOffset(header, slot))) == Some(file[p])
      {
        CopiedByte(seed, file, header, r, p);
      }
    }
  }

  lemma CopiedByte(seed: seq<byte>, file: seq<byte>, header: seq<byte>, r: Region, p: nat)
    requires |header| == HEADER && IsSeed(seed, file, header, r) && r.Region? && r.start <= p < r.start + r.Length()
    ensures WindowByte(seed, WINDOW + RESERVED + (p - r.start)) == Some(file[p])
  {
    hide Relocated;
    var region := seed[HEADER + RESERVED..];
    assert region[p - r.start] == file[p];
  }

  lemma NewField(header: seq<byte>, now: seq<byte>, size: nat, r: Region, slot: nat)
    requires |header| == HEADER && Relocated(header, now, size, r, Listed(header, SLOTS)) && slot < SLOTS
    requires Moved(header, size, r, slot)
    requires size < 0x8000_0000_0000_0000
    ensures DataOffset(now, slot) == NewOffset(header, r, slot)
  {
    hide BE, FromBE;
    assert slot in Listed(header, SLOTS);
    WidthLimits();
    BERoundTrip(8, NewOffset(header, r, slot));
  }

  /** Moved slots keep their distances, so data that overlapped still does. */
  lemma SameDistances(header: seq<byte>, size: nat, r: Region, s: nat, t: nat)
    requires |header| == HEADER && s < SLOTS && t < SLOTS && Moved(header, size, r, s) && Moved(header, size, r, t)
    ensures NewOffset(header, r, s) - NewOffset(header, r, t) == DataOffset(header, s) - DataOffset(header, t)
  {
    hide GetBE;
  }

  /** Every in-file slot moves exactly when the data they span together fits the limit, or it ends below the cut. */
  lemma WhichMove(header: seq<byte>, size: nat, r: Region, slot: nat)
    requires |header| == HEADER && slot < SLOTS && Spans(r, header, size, SLOTS)
    ensures Moved(header, size, r, slot) <==>
            InFile(header, size, slot) && (r.end - r.start <= REGION_MAX || EndOf(header, slot) <= r.start + REGION_MAX)
  {
    hide GetBE, DataLength, DataOffset, Populated;
    if InFile(header, size, slot) {
      InsideRegion(header, size, r, slot);
    }
  }

  /** A locator entry as the format lays it out: code, data space, data length, four reserved bytes, data offset. */
  function LocatorBytes(code: seq<byte>, space: nat, length: nat, offset: nat): seq<byte> {
    code + BE(4, space) + BE(4, length) + BE(4, 0) + BE(8, offset)
  }

  /** Slot s of a header is the 24 bytes at 576 + 24 s, and is read as laid out. */
  lemma SlotRead(header: seq<byte>, s: nat, code: seq<byte>, space: nat, length: nat, offset: nat)
    requires |header| == 1024 && s < 8 && |code| == 4 && space < U32 && length < U32 && offset < U64
    requires header[576 + 24 * s..600 + 24 * s] == LocatorBytes(code, space, length, offset)
    ensures DataLength(header, s) == length && DataOffset(header, s) == offset
    ensures Populated(header, s) <==> code != [0, 0, 0, 0] && length != 0
  {
    hide BE, FromBE;
    var at, t := 576 + 24 * s, LocatorBytes(code, space, length, offset);
    assert t[..4] == code && t[8..12] == BE(4, length) && t[16..24] == BE(8, offset);
    SubSlice(header, at, t, 0, 4);
    SubSlice(header, at, t, 8, 4);
    SubSlice(header, at, t, 16, 8);
    WidthLimits();
    BERoundTrip(4, length);
    BERoundTrip(8, offset);
  }

  /** Only a differencing disk gives a header: the footer at the end of the file says so, and where the header is. */
  lemma ForeignDisksRefused(file: seq<byte>)
    requires HeaderOf(file).Some?
    ensures |file| >= 512 && file[|file| - 512..|file| - 504] == [0x63, 0x6F, 0x6E, 0x65, 0x63, 0x74, 0x69, 0x78]
    ensures GetBE(file, |file| - 452, 4) == 4
    ensures var at := GetBE(file, |file| - 496, 8);
            && 0 < at && at + 1024 <= |file| && HeaderOf(file).value == file[at..at + 1024]
            && file[at..at + 8] == [0x63, 0x78, 0x73, 0x70, 0x61, 0x72, 0x73, 0x65]
  {
    hide FromBE;
    var footer := file[|file| - 512..];
    assert footer[0..8] == file[|file| - 512..|file| - 504];
    assert footer[60..64] == file[|file| - 452..|file| - 448] && footer[16..24] == file[|file| - 496..|file| - 488];
    var at := GetBE(file, |file| - 496, 8);
    assert file[at..at + 1024][0..8] == file[at..at + 8];
  }
}
