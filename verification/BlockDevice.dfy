/** The host side: the backing file and the virtio-block device that serves the queue. */
module BlockDevice {
  import opened Bytes
  import opened Options
  import opened Layout

  // ----- backing store -----

  datatype Backing = Backing(file: seq<byte>, capacity: nat, currentSize: nat, sparse: bool)
  {
    /** The tracked size is the file's, and a file that cannot grow is already as long as its capacity. */
    predicate Valid() {
      currentSize == |file| && (sparse || capacity <= currentSize)
    }

    /** Bytes past the end of the file read as zero. */
    function ReadAt(offset: nat, n: nat): (r: seq<byte>)
      requires currentSize == |file|
      ensures |r| == n
      ensures forall i :: 0 <= i < n ==> r[i] == ByteAt(offset + i)
    {
      if offset + n > currentSize then
        if offset >= currentSize then
          seq(n, _ => 0)
        else
          file[offset..currentSize] + seq(n - (currentSize - offset), _ => 0)
      else
        file[offset..offset + n]
    }

    function ByteAt(p: nat): byte {
      if p < |file| then file[p] else 0
    }

    /** Overwrites, extending the file (with a hole of zeros if need be); the caller has checked the capacity. */
    function WriteAt(offset: nat, data: seq<byte>): (r: Backing)
      requires Valid() && offset + |data| <= capacity
      ensures r.Valid() && r.capacity == capacity
      ensures forall p: nat :: r.ByteAt(p) == if offset <= p < offset + |data| then data[p - offset] else ByteAt(p)
    {
      var end := offset + |data|;
      var padded := if |file| < offset then file + seq(offset - |file|, _ => 0) else file;
      var rest := if end < |file| then file[end..] else [];
      Backing(padded[..offset] + data + rest, capacity, if sparse && end > currentSize then end
        else currentSize, sparse)
    }
  }

  // ----- what the driver leaves in memory -----

  const REQ_IN: nat := 0
  const REQ_OUT: nat := 1
  const REQ_FLUSH: nat := 4

  const STATUS_OK: byte := 0
  const STATUS_IOERR: byte := 1
  const STATUS_UNSUPP: byte := 2

  const F_NEXT: nat := 1
  const F_WRITE: nat := 2
  const MAX_IO_BUFFER_SIZE: nat := 0x10_0000

  datatype Desc = Desc(addr: nat, len: nat, flags: nat, next: nat)
  {
    predicate Fits() {
      addr < U64 && len < U32 && flags < U16 && next < U16
    }

    predicate HasNext() { flags % 2 == 1 }

    predicate DeviceWrites() { flags / 2 % 2 == 1 }

    function Encode(): (s: seq<byte>)
      ensures |s| == 16
    {
      LE(8, addr) + LE(4, len) + LE(2, flags) + LE(2, next)
    }
  }

  function DescAt(m: seq<byte>, table: nat, idx: nat): Desc
    requires table + 16 * idx + 16 <= |m|
  {
    var a := table + 16 * idx;
    Desc(GetLE(m, a, 8), GetLE(m, a + 8, 4), GetLE(m, a + 12, 2), GetLE(m, a + 14, 2))
  }

  datatype Header = Header(kind: nat, sector: nat)
  {
    predicate Fits() {
      kind < U32 && sector < U64
    }

    function Encode(): (s: seq<byte>)
      ensures |s| == 16
    {
      LE(4, kind) + LE(4, 0) + LE(8, sector)
    }
  }

  function HeaderAt(m: seq<byte>, a: nat): Header
    requires a + 16 <= |m|
  {
    Header(GetLE(m, a, 4), GetLE(m, a + 8, 8))
  }

  lemma DescRoundTrip(m: seq<byte>, table: nat, idx: nat, d: Desc)
    requires d.Fits() && table + 16 * idx + 16 <= |m|
    ensures DescAt(Splice(m, table + 16 * idx, d.Encode()), table, idx) == d
  {
    var a := table + 16 * idx;
    var s := d.Encode();
    var r := Splice(m, a, s);
    assert r[a..a + 16] == s;
    assert r[a..a + 8] == s[..8] == LE(8, d.addr);
    assert r[a + 8..a + 12] == s[8..12] == LE(4, d.len);
    assert r[a + 12..a + 14] == s[12..14] == LE(2, d.flags);
    assert r[a + 14..a + 16] == s[14..16] == LE(2, d.next);
    WidthLimits();
    LERoundTrip(8, d.addr);
    LERoundTrip(4, d.len);
    LERoundTrip(2, d.flags);
    LERoundTrip(2, d.next);
  }

  lemma HeaderRoundTrip(m: seq<byte>, a: nat, h: Header)
    requires h.Fits() && a + 16 <= |m|
    ensures HeaderAt(Splice(m, a, h.Encode()), a) == h
  {
    var s := h.Encode();
    var r := Splice(m, a, s);
    assert r[a..a + 16] == s;
    assert r[a..a + 4] == s[..4] == LE(4, h.kind);
    assert r[a + 8..a + 16] == s[8..16] == LE(8, h.sector);
    WidthLimits();
    LERoundTrip(4, h.kind);
    LERoundTrip(8, h.sector);
  }

  // ----- the device -----

  /** Where the host is inside its queue-processing routine; it holds its own copies of the ring indices. */
  datatype Phase =
    | Idle
    | Scanning(target: nat, cursor: nat)
    | Answered(target: nat, cursor: nat, id: nat, written: nat)
    | Listed(target: nat, cursor: nat, usedIdx: nat)

  /** What the host file refuses: reads at some sectors, and being made durable. */
  datatype Faults = Faults(unreadable: set<nat>, unsynced: bool)

  datatype Device = Device(
    backing: Backing, faults: Faults, capacity: nat, sectorSize: nat, readOnly: bool,
    q: Queue, lastAvail: nat, phase: Phase)
  {
    predicate Valid() {
      && 0 < sectorSize <= MAX_SECTOR_SIZE
      && backing.currentSize == |backing.file|
      && (readOnly || backing.Valid())
    }
  }

  /** Memory, backing file and the used length after a descriptor chain was handled; None is a host-side error. */
  datatype Served = Served(m: seq<byte>, backing: Backing, written: Option<nat>)

  /** The byte offset of a request, or None when it is refused with an I/O error status. */
  function ValidateIo(d: Device, sector: nat, len: nat): Option<nat> {
    if len > MAX_IO_BUFFER_SIZE then None
    else if sector >= d.capacity then None
    else if sector * d.sectorSize >= U64 then None
    else if sector * d.sectorSize + len >= U64 then None
    else Some(sector * d.sectorSize)
  }

  datatype Io = Io(m: seq<byte>, backing: Backing, status: Option<byte>)

  function PerformIo(m: seq<byte>, d: Device, h: Header, data: Desc): (r: Io)
    requires d.Valid()
    ensures |r.m| == |m| && d.(backing := r.backing).Valid()
  {
    if h.kind == REQ_IN then
      if !data.DeviceWrites() then Io(m, d.backing, Some(STATUS_IOERR))
      else match ValidateIo(d, h.sector, data.len)
        case None => Io(m, d.backing, Some(STATUS_IOERR))
        case Some(offset) =>
          if h.sector in d.faults.unreadable || data.addr + data.len > |m| then Io(m, d.backing, None)
          else Io(Splice(m, data.addr, d.backing.ReadAt(offset, data.len)), d.backing, Some(STATUS_OK))
    else if h.kind == REQ_OUT then
      if d.readOnly || data.DeviceWrites() then Io(m, d.backing, Some(STATUS_IOERR))
      else match ValidateIo(d, h.sector, data.len)
        case None => Io(m, d.backing, Some(STATUS_IOERR))
        case Some(offset) =>
          if data.addr + data.len > |m| || offset + data.len > d.backing.capacity then Io(m, d.backing, None)
          else Io(m, d.backing.WriteAt(offset, m[data.addr..data.addr + data.len]), Some(STATUS_OK))
    else if h.kind == REQ_FLUSH then
      Io(m, d.backing, if d.faults.unsynced then None else Some(STATUS_OK))
    else
      Io(m, d.backing, Some(STATUS_UNSUPP))
  }

  /** Handles one chain: header descriptor, data descriptor, status descriptor. */
  function ProcessRequest(m: seq<byte>, d: Device, first: nat): (r: Served)
    requires d.Valid() && d.q.desc + 16 * QUEUE_SIZE <= |m|
    ensures |r.m| == |m| && d.(backing := r.backing).Valid()
  {
    var failed := Served(m, d.backing, None);
    if first >= QUEUE_SIZE then failed else
    var hd := DescAt(m, d.q.desc, first);
    if hd.addr + 16 > |m| || !hd.HasNext() || hd.next >= QUEUE_SIZE then failed else
    var dd := DescAt(m, d.q.desc, hd.next);
    var io := PerformIo(m, d, HeaderAt(m, hd.addr), dd);
    var partial := Served(io.m, io.backing, None);
    if io.status.None? || !dd.HasNext() || dd.next >= QUEUE_SIZE then partial else
    var sd := DescAt(io.m, d.q.desc, dd.next);
    if sd.addr >= |m| then partial
    else Served(Splice(io.m, sd.addr, [io.status.value]), io.backing, Some((dd.len + 1) % U32))
  }

  function AvailIdx(m: seq<byte>, q: Queue): nat
    requires q.avail + 4 <= |m|
  {
    GetLE(m, q.avail + 2, 2)
  }

  function UsedIdx(m: seq<byte>, q: Queue): nat
    requires q.used + 4 <= |m|
  {
    GetLE(m, q.used + 2, 2)
  }

  function RingEntry(m: seq<byte>, q: Queue, idx: nat): nat
    requires q.avail + 4 + 2 * QUEUE_SIZE <= |m|
  {
    GetLE(m, q.avail + 4 + 2 * (idx % QUEUE_SIZE), 2)
  }

  function Next(idx: nat): nat {
    (idx + 1) % U16
  }

  predicate QueueInMemory(q: Queue, size: nat) {
    && q.desc + 16 * QUEUE_SIZE <= size
    && q.avail + 4 + 2 * QUEUE_SIZE <= size
    && q.used + 4 + 8 * QUEUE_SIZE <= size
  }

  /**
   One step of the host's queue processing: the avail index is taken over, a request is served, its answer is listed, or
   the used index is published. Serving a request is one step; the guest does not run in between.
   */
  function Step(m: seq<byte>, d: Device): (r: (seq<byte>, Device))
    requires d.Valid() && QueueInMemory(d.q, |m|)
    ensures |r.0| == |m|
  {
    match d.phase
    case Idle => (m, d.(phase := Scanning(AvailIdx(m, d.q), d.lastAvail)))
    case Scanning(target, cursor) =>
      if cursor == target then (m, d.(phase := Idle, lastAvail := cursor))
      else
        var id := RingEntry(m, d.q, cursor);
        var s := ProcessRequest(m, d, id);
        (s.m, d.(backing := s.backing,
                 phase := if s.written.None? then Idle else Answered(target, cursor, id, s.written.value)))
    case Answered(target, cursor, id, written) =>
      var u := UsedIdx(m, d.q);
      (Splice(m, d.q.used + 4 + 8 * (u % QUEUE_SIZE), LE(4, id) + LE(4, written)),
       d.(phase := Listed(target, cursor, u)))
    case Listed(target, cursor, usedIdx) =>
      (Splice(m, d.q.used + 2, LE(2, Next(usedIdx))), d.(phase := Scanning(target, Next(cursor))))
  }

  // ----- formats, byte by byte -----

  /** A descriptor: address, length, flags and next index, each with its low byte first. */
  lemma DescriptorByte(d: Desc, j: nat)
    requires d.Fits() && j < 16
    ensures d.Encode()[j] ==
            if j < 8 then d.addr / Pow256(j) % 256
            else if j < 12 then d.len / Pow256(j - 8) % 256
            else if j < 14 then d.flags / Pow256(j - 12) % 256
            else d.next / Pow256(j - 14) % 256
  {
    hide LE, Pow256;
    if j < 8 {
      LowFirst(8, d.addr, j);
    } else if j < 12 {
      LowFirst(4, d.len, j - 8);
    } else if j < 14 {
      LowFirst(2, d.flags, j - 12);
    } else {
      LowFirst(2, d.next, j - 14);
    }
  }

  /** A request header: the kind, four reserved bytes, and the sector. */
  lemma RequestByte(h: Header, j: nat)
    requires h.Fits() && j < 16
    ensures h.Encode()[j] ==
            if j < 4 then h.kind / Pow256(j) % 256 else if j < 8 then 0 else h.sector / Pow256(j - 8) % 256
  {
    hide LE, Pow256;
    if j < 4 {
      LowFirst(4, h.kind, j);
    } else if j < 8 {
      LowFirst(4, 0, j - 4);
      NothingOver(Pow256(j - 4));
    } else {
      LowFirst(8, h.sector, j - 8);
    }
  }
}
