/**
 The request protocol between the guest's block driver and the host device, over shared memory:
 what the driver writes, how every step of the device keeps the exchange consistent, and that a
 finished exchange is one operation of the plain sector store.
 */
module Protocol {
  import opened Bytes
  import opened Options
  import opened Layout
  import opened BlockDevice
  import opened SectorStore

  const DATA_ADDR: nat := DMA_POOL_BASE + 16

  function Kind(req: Request): nat {
    match req case Read(_) => REQ_IN case Write(_, _) => REQ_OUT case Flush => REQ_FLUSH
  }

  function SectorField(req: Request): nat {
    if req.Flush? then 0 else req.sector
  }

  predicate WellSized(req: Request, sectorSize: nat) {
    SectorField(req) < U64 && (req.Write? ==> |req.data| == sectorSize)
  }

  /** First descriptor of the chain used for the idx-th request. */
  function ChainHead(idx: nat): (r: nat)
    ensures r + 2 < QUEUE_SIZE
  {
    idx % (QUEUE_SIZE / 3) * 3
  }

  function DataFlags(req: Request): nat {
    if req.Read? then F_NEXT + F_WRITE else F_NEXT
  }

  function ChainDesc(sectorSize: nat, idx: nat, req: Request, k: nat): (d: Desc)
    requires k < 3 && sectorSize <= MAX_SECTOR_SIZE
    ensures d.Fits()
  {
    var head := ChainHead(idx);
    if k == 0 then Desc(DMA_POOL_BASE, 16, F_NEXT, head + 1)
    else if k == 1 then Desc(DATA_ADDR, sectorSize, DataFlags(req), head + 2)
    else Desc(DATA_ADDR + sectorSize, 1, F_WRITE, 0)
  }

  predicate InGuest(size: nat) {
    size >= SCRATCH_MEM_BASE
  }

  /** The request area of the DMA pool: header, then data for a write, then an unset status byte. */
  function FillDma(m: seq<byte>, sectorSize: nat, req: Request): (r: seq<byte>)
    requires InGuest(|m|) && sectorSize <= MAX_SECTOR_SIZE && WellSized(req, sectorSize)
    ensures |r| == |m|
  {
    var m1 := Splice(m, DMA_POOL_BASE, Header(Kind(req), SectorField(req)).Encode());
    var m2 := if req.Write? then Splice(m1, DATA_ADDR, req.data) else m1;
    Splice(m2, DATA_ADDR + sectorSize, [0xFF])
  }

  function WriteDesc(m: seq<byte>, q: Queue, idx: nat, d: Desc): (r: seq<byte>)
    requires QueueInMemory(q, |m|) && idx < QUEUE_SIZE
    ensures |r| == |m|
  {
    Splice(m, q.desc + 16 * idx, d.Encode())
  }

  /** The three descriptors, then the available-ring slot. */
  function FillQueue(m: seq<byte>, q: Queue, sectorSize: nat, idx: nat, req: Request): (r: seq<byte>)
    requires QueueInMemory(q, |m|) && sectorSize <= MAX_SECTOR_SIZE
    ensures |r| == |m|
  {
    var head := ChainHead(idx);
    var m1 := WriteDesc(m, q, head, ChainDesc(sectorSize, idx, req, 0));
    var m2 := WriteDesc(m1, q, head + 1, ChainDesc(sectorSize, idx, req, 1));
    var m3 := WriteDesc(m2, q, head + 2, ChainDesc(sectorSize, idx, req, 2));
    Splice(m3, q.avail + 4 + 2 * (idx % QUEUE_SIZE), LE(2, head))
  }

  function Publish(m: seq<byte>, q: Queue, idx: nat): (r: seq<byte>)
    requires QueueInMemory(q, |m|)
    ensures |r| == |m|
  {
    Splice(m, q.avail + 2, LE(2, Next(idx)))
  }

  // ----- what the device relies on -----

  predicate DmaFilled(m: seq<byte>, sectorSize: nat, req: Request)
    requires InGuest(|m|) && sectorSize <= MAX_SECTOR_SIZE
  {
    && HeaderAt(m, DMA_POOL_BASE) == Header(Kind(req), SectorField(req))
    && (req.Write? ==> m[DATA_ADDR..DATA_ADDR + sectorSize] == req.data)
  }

  predicate ChainFilled(m: seq<byte>, q: Queue, sectorSize: nat, idx: nat, req: Request)
    requires QueueInMemory(q, |m|) && sectorSize <= MAX_SECTOR_SIZE
  {
    && RingEntry(m, q, idx) == ChainHead(idx)
    && DescAt(m, q.desc, ChainHead(idx)) == ChainDesc(sectorSize, idx, req, 0)
    && DescAt(m, q.desc, ChainHead(idx) + 1) == ChainDesc(sectorSize, idx, req, 1)
    && DescAt(m, q.desc, ChainHead(idx) + 2) == ChainDesc(sectorSize, idx, req, 2)
  }

  /** Addresses a request on device i may change; everything else keeps its value. */
  predicate Owned(i: nat, sectorSize: nat, a: nat) {
    || DMA_POOL_BASE <= a < DATA_ADDR + sectorSize + 1
    || DeviceVqBase(i) <= a < DeviceVqBase(i) + VQ_SIZE_PER_DEVICE
  }

  predicate SameOutside(m: seq<byte>, m': seq<byte>, i: nat, sectorSize: nat) {
    |m| == |m'| && forall a :: 0 <= a < |m| && !Owned(i, sectorSize, a) ==> m'[a] == m[a]
  }

  lemma FillDmaCorrect(m: seq<byte>, sectorSize: nat, req: Request)
    requires InGuest(|m|) && sectorSize <= MAX_SECTOR_SIZE && WellSized(req, sectorSize)
    ensures DmaFilled(FillDma(m, sectorSize, req), sectorSize, req)
    ensures FillDma(m, sectorSize, req)[DATA_ADDR + sectorSize] == 0xFF
    ensures forall a :: 0 <= a < |m| && !(DMA_POOL_BASE <= a < DATA_ADDR + sectorSize + 1) ==>
                          FillDma(m, sectorSize, req)[a] == m[a]
  {
    var h := Header(Kind(req), SectorField(req));
    var m1 := Splice(m, DMA_POOL_BASE, h.Encode());
    HeaderRoundTrip(m, DMA_POOL_BASE, h);
    var m2 := if req.Write? then Splice(m1, DATA_ADDR, req.data) else m1;
    var m3 := Splice(m2, DATA_ADDR + sectorSize, [0xFF]);
    assert m3[DMA_POOL_BASE..DMA_POOL_BASE + 4] == m1[DMA_POOL_BASE..DMA_POOL_BASE + 4];
    assert m3[DMA_POOL_BASE + 8..DMA_POOL_BASE + 16] == m1[DMA_POOL_BASE + 8..DMA_POOL_BASE + 16];
    assert m3[DATA_ADDR + sectorSize..DATA_ADDR + sectorSize + 1] == [0xFF];
  }

  lemma DescElsewhere(m: seq<byte>, off: nat, t: seq<byte>, table: nat, k: nat)
    requires off + |t| <= |m| && table + 16 * k + 16 <= |m|
    requires off + |t| <= table + 16 * k || table + 16 * k + 16 <= off
    ensures DescAt(Splice(m, off, t), table, k) == DescAt(m, table, k)
  {
    var a := table + 16 * k;
    SpliceElsewhere(m, off, t, a, 8);
    SpliceElsewhere(m, off, t, a + 8, 4);
    SpliceElsewhere(m, off, t, a + 12, 2);
    SpliceElsewhere(m, off, t, a + 14, 2);
  }

  lemma WriteDescCorrect(m: seq<byte>, q: Queue, idx: nat, d: Desc, k: nat)
    requires QueueInMemory(q, |m|) && idx < QUEUE_SIZE && k < QUEUE_SIZE && d.Fits()
    ensures DescAt(WriteDesc(m, q, idx, d), q.desc, k) == if k == idx then d else DescAt(m, q.desc, k)
  {
    if k == idx {
      DescRoundTrip(m, q.desc, idx, d);
    } else {
      DescElsewhere(m, q.desc + 16 * idx, d.Encode(), q.desc, k);
    }
  }

  lemma FillQueueChain(m: seq<byte>, q: Queue, sectorSize: nat, idx: nat, req: Request)
    requires QueueInMemory(q, |m|) && q.desc + 16 * QUEUE_SIZE <= q.avail && sectorSize <= MAX_SECTOR_SIZE
    ensures ChainFilled(FillQueue(m, q, sectorSize, idx, req), q, sectorSize, idx, req)
  {
    hide LE, FromLE, Splice, Desc.Encode;
    var head := ChainHead(idx);
    var d0, d1, d2 := ChainDesc(sectorSize, idx, req, 0), ChainDesc(sectorSize, idx, req, 1), ChainDesc(sectorSize, idx,
      req, 2);
    var m1 := WriteDesc(m, q, head, d0);
    var m2 := WriteDesc(m1, q, head + 1, d1);
    var m3 := WriteDesc(m2, q, head + 2, d2);
    var slot := q.avail + 4 + 2 * (idx % QUEUE_SIZE);
    WidthLimits();
    GetLEPut(m3, slot, 2, head);
    forall k | k == head || k == head + 1 || k == head + 2
      ensures DescAt(Splice(m3, slot, LE(2, head)), q.desc, k) == DescAt(m3, q.desc, k)
    {
      DescElsewhere(m3, slot, LE(2, head), q.desc, k);
    }
    WriteDescCorrect(m, q, head, d0, head);
    WriteDescCorrect(m1, q, head + 1, d1, head);
    WriteDescCorrect(m1, q, head + 1, d1, head + 1);
    WriteDescCorrect(m2, q, head + 2, d2, head);
    WriteDescCorrect(m2, q, head + 2, d2, head + 1);
    WriteDescCorrect(m2, q, head + 2, d2, head + 2);
  }

  /** The chain is written inside the descriptor table and the ring slots, and nowhere else. */
  lemma FillQueueFrame(m: seq<byte>, q: Queue, sectorSize: nat, idx: nat, req: Request, a: nat)
    requires QueueInMemory(q, |m|) && sectorSize <= MAX_SECTOR_SIZE && a < |m|
    requires !(q.desc <= a < q.desc + 16 * QUEUE_SIZE)
    requires !(q.avail + 4 <= a < q.avail + 4 + 2 * QUEUE_SIZE)
    ensures FillQueue(m, q, sectorSize, idx, req)[a] == m[a]
  {
    var head := ChainHead(idx);
    var m1 := WriteDesc(m, q, head, ChainDesc(sectorSize, idx, req, 0));
    var m2 := WriteDesc(m1, q, head + 1, ChainDesc(sectorSize, idx, req, 1));
    var m3 := WriteDesc(m2, q, head + 2, ChainDesc(sectorSize, idx, req, 2));
    assert m3[a] == m2[a] == m1[a] == m[a];
  }

  // ----- the device as a disk -----

  /** How many whole sectors of a given size fit. */
  function Whole(bytes: nat, size: nat): nat
    requires size > 0
  {
    bytes / size
  }

  /** Sectors the device will address: those below its capacity whose end still has a 64-bit byte offset. */
  function SectorCount(d: Device): nat
    requires d.Valid()
  {
    var addressable := Whole(U64 - 1, d.sectorSize);
    if d.capacity <= addressable then d.capacity else addressable
  }

  function Contents(d: Device, sector: nat): (r: seq<byte>)
    requires d.Valid()
    ensures |r| == d.sectorSize
  {
    d.backing.ReadAt(sector * d.sectorSize, d.sectorSize)
  }

  function DiskOf(d: Device): Disk
    requires d.Valid()
  {
    var sectors := seq(SectorCount(d), (s: nat) => Contents(d, s));
    Disk(sectors, Whole(d.backing.capacity, d.sectorSize), d.faults.unreadable, d.faults.unsynced, d.readOnly)
  }

  lemma MulAtMost(a: nat, b: nat, n: nat)
    requires b > 0
    ensures a * b <= n <==> a <= Whole(n, b)
  {
    var k := n / b;
    assert n == k * b + n % b;
    if a <= k {
      assert a * b <= k * b;
    } else {
      assert a * b >= (k + 1) * b == k * b + b;
    }
  }

  lemma IoAccepted(d: Device, sector: nat)
    requires d.Valid()
    ensures ValidateIo(d, sector, d.sectorSize) ==
            if sector < SectorCount(d) then Some(sector * d.sectorSize) else None
    ensures sector * d.sectorSize + d.sectorSize <= d.backing.capacity <==> sector < DiskOf(d).writable
  {
    assert (sector + 1) * d.sectorSize == sector * d.sectorSize + d.sectorSize;
    MulAtMost(sector + 1, d.sectorSize, U64 - 1);
    MulAtMost(sector + 1, d.sectorSize, d.backing.capacity);
  }

  lemma SectorsApart(s: nat, t: nat, size: nat)
    requires s < t
    ensures s * size + size <= t * size
  {
    assert (s + 1) * size <= t * size;
  }

  /** Writing one sector of the file replaces that sector of the disk and no other. */
  lemma WriteReplacesSector(d: Device, sector: nat, data: seq<byte>)
    requires d.Valid() && !d.readOnly && |data| == d.sectorSize && sector < SectorCount(d)
    requires sector * d.sectorSize + d.sectorSize <= d.backing.capacity
    ensures var d' := d.(backing := d.backing.WriteAt(sector * d.sectorSize, data));
            d'.Valid() && DiskOf(d') == DiskOf(d).(sectors := DiskOf(d).sectors[sector := data])
  {
    var off := sector * d.sectorSize;
    var d' := d.(backing := d.backing.WriteAt(off, data));
    forall t | 0 <= t < SectorCount(d)
      ensures Contents(d', t) == if t == sector then data else Contents(d, t)
    {
      if t < sector {
        SectorsApart(t, sector, d.sectorSize);
      } else if sector < t {
        SectorsApart(sector, t, d.sectorSize);
      }
    }
  }

  // ----- serving the chain -----

  /** Memory once the device has answered: the data of an accepted read, then the status byte. */
  function AnsweredMemory(m: seq<byte>, sectorSize: nat, ok: bool, data: seq<byte>): (r: seq<byte>)
    requires InGuest(|m|) && sectorSize <= MAX_SECTOR_SIZE && |data| <= sectorSize
    ensures |r| == |m|
  {
    Splice(Splice(m, DATA_ADDR, data), DATA_ADDR + sectorSize, [if ok then STATUS_OK else STATUS_IOERR])
  }

  /** The transfer itself, for each kind of request. */
  lemma TransferRequest(m: seq<byte>, d: Device, req: Request, h: Header, data: Desc)
    requires d.Valid() && InGuest(|m|) && WellSized(req, d.sectorSize)
    requires h == Header(Kind(req), SectorField(req))
    requires data.addr == DATA_ADDR && data.len == d.sectorSize && data.flags == DataFlags(req)
    requires req.Write? ==> m[DATA_ADDR..DATA_ADDR + d.sectorSize] == req.data
    ensures var io := PerformIo(m, d, h, data);
            var disk := DiskOf(d);
            if Unanswerable(disk, req) then
              io == Io(m, d.backing, None)
            else
              && io.status == Some(if Accepted(disk, req) then STATUS_OK else STATUS_IOERR)
              && DiskOf(d.(backing := io.backing)) == After(disk, req)
              && |Answer(disk, req).data| == (if req.Read? && Accepted(disk, req) then d.sectorSize else 0)
              && io.m == Splice(m, DATA_ADDR, Answer(disk, req).data)
  {
    hide Backing.ReadAt, Backing.WriteAt;
    var disk := DiskOf(d);
    IoAccepted(d, SectorField(req));
    assert Splice(m, DATA_ADDR, []) == m;
    match req
    case Read(_) =>
    case Flush =>
    case Write(sector, bytes) =>
      if Accepted(disk, req) {
        WriteReplacesSector(d, sector, bytes);
      }
  }

  lemma ServeChain(m: seq<byte>, d: Device, idx: nat, req: Request)
    requires d.Valid() && InGuest(|m|) && QueueInMemory(d.q, |m|) && d.q.desc + 16 * QUEUE_SIZE <= DMA_POOL_BASE
    requires WellSized(req, d.sectorSize)
    requires DmaFilled(m, d.sectorSize, req) && ChainFilled(m, d.q, d.sectorSize, idx, req)
    ensures var s := ProcessRequest(m, d, ChainHead(idx));
            var disk := DiskOf(d);
            var d' := d.(backing := s.backing);
            if Unanswerable(disk, req) then
              s == Served(m, d.backing, None)
            else
              && s.written.Some? && s.written.value < U32
              && d'.Valid() && DiskOf(d') == After(disk, req)
              && |Answer(disk, req).data| == (if req.Read? && Answer(disk, req).ok then d.sectorSize else 0)
              && s.m == AnsweredMemory(m, d.sectorSize, Answer(disk, req).ok, Answer(disk, req).data)
  {
    hide LE, FromLE, Splice, PerformIo, DiskOf, After;
    var disk := DiskOf(d);
    TransferRequest(m, d, req, HeaderAt(m, DMA_POOL_BASE), ChainDesc(d.sectorSize, idx, req, 1));
    if !Unanswerable(disk, req) {
      DescElsewhere(m, DATA_ADDR, Answer(disk, req).data, d.q.desc, ChainHead(idx) + 2);
    }
  }

  /** The disk behind a device is its file, cut into sectors, with zeros past the end of the file. */
  lemma DiskIsFile(d: Device, s: nat, i: nat)
    requires d.Valid() && s < |DiskOf(d).sectors| && i < d.sectorSize
    ensures |DiskOf(d).sectors[s]| == d.sectorSize
    ensures var p := s * d.sectorSize + i;
            DiskOf(d).sectors[s][i] == if p < |d.backing.file| then d.backing.file[p] else 0
  {
  }

  /** It has as many sectors as the device says, unless the last ones have no 64-bit byte offset. */
  lemma DiskSize(d: Device)
    requires d.Valid()
    ensures |DiskOf(d).sectors| <= d.capacity
    ensures (d.capacity * d.sectorSize < U64 ==> |DiskOf(d).sectors| == d.capacity)
    ensures DiskOf(d).readOnly == d.readOnly
  {
    MulAtMost(d.capacity, d.sectorSize, U64 - 1);
  }
}
