/** The guest's block driver, polling one request at a time while the host's devices run freely. */
module Driver {
  import opened Bytes
  import opened Options
  import opened Layout
  import opened BlockDevice
  import opened SectorStore
  import opened Protocol
  import opened Exchange

  const MAX_WAIT_ITERATIONS: nat := 100_000_000

  /** Guest memory and the host's devices. */
  class Machine {
    const mem: array<byte>
    var devices: seq<Device>

    ghost predicate Valid()
      reads this, mem
    {
      System(mem[..], devices)
    }

    ghost predicate Settled()
      reads this, mem
    {
      Valid() && AllQuiet(mem[..], devices)
    }

    constructor (mem: array<byte>, devices: seq<Device>)
      ensures this.mem == mem && this.devices == devices
    {
      this.mem, this.devices := mem, devices;
    }

    /** Lets the scheduled devices take one step each. */
    method Run(schedule: seq<nat>)
      requires Valid()
      modifies this, mem
      ensures Valid()
      ensures (mem[..], devices) == RunSteps(old(mem[..]), old(devices), schedule)
    {
      ghost var m0, d0 := mem[..], devices;
      for n := 0 to |schedule|
        invariant Valid() && |mem[..]| == |m0| && |devices| == |d0|
        invariant RunSteps(m0, d0, schedule) == RunSteps(mem[..], devices, schedule[n..])
      {
        hide Step, Sane;
        var k := schedule[n];
        assert schedule[n..][0] == k && schedule[n..][1..] == schedule[n + 1..];
        if k < |devices| {
          StepSane(mem[..], devices[k], k);
          var (m', d') := Step(mem[..], devices[k]);
          Store(mem, 0, m');
          assert Splice(old(mem[..]), 0, m') == m';
          devices := devices[k := d'];
        }
      }
    }
  }

  /**
   When the host's devices get to run during one request: before it, between the driver's writes, and at each poll.
   */
  datatype Schedule = Schedule(before: seq<nat>, afterDma: seq<nat>, afterChain: seq<nat>, poll: nat -> seq<nat>)

  /** Steps that a device is given over the first n polls. */
  function Given(s: Schedule, i: nat, n: nat): nat {
    if n == 0 then 0 else Given(s, i, n - 1) + CountOf(s.poll(n - 1), i)
  }

  /** A device that is left behind: fewer than five steps over all polls. */
  predicate Starved(s: Schedule, i: nat) {
    Given(s, i, MAX_WAIT_ITERATIONS) < 5
  }

  /** Two bytes always decode below 2^16. */
  lemma IndexInRange(m: seq<byte>, q: Queue)
    requires QueueInMemory(q, |m|)
    ensures AvailIdx(m, q) < U16
  {
    var s := m[q.avail + 2..q.avail + 4];
    assert s[1..][1..] == [];
    assert FromLE(s) == s[0] + 256 * (s[1] + 256 * FromLE(s[1..][1..]));
  }

  class VirtioBlock {
    const index: nat
    const sectorSize: nat
    var availIdx: nat

    constructor (index: nat, sectorSize: nat)
      ensures this.index == index && this.sectorSize == sectorSize && availIdx == 0
    {
      this.index, this.sectorSize, availIdx := index, sectorSize, 0;
    }

    /** The driver's own index agrees with the ring it has published to the device it drives. */
    ghost predicate Drives(machine: Machine)
      reads this, machine, machine.mem
    {
      && machine.Valid() && index < |machine.devices|
      && sectorSize == machine.devices[index].sectorSize
      && availIdx == AvailIdx(machine.mem[..], QueueOf(index))
    }

    /** Writes the request into the shared DMA area. */
    method WriteRequest(mem: array<byte>, req: Request)
      requires InGuest(mem.Length) && sectorSize <= MAX_SECTOR_SIZE && WellSized(req, sectorSize)
      modifies mem
      ensures mem[..] == FillDma(old(mem[..]), sectorSize, req)
    {
      Store(mem, DMA_POOL_BASE, Header(Kind(req), SectorField(req)).Encode());
      if req.Write? {
        Store(mem, DATA_ADDR, req.data);
      }
      Store(mem, DATA_ADDR + sectorSize, [0xFF]);
    }

    method WriteDescriptor(mem: array<byte>, q: Queue, idx: nat, d: Desc)
      requires QueueInMemory(q, mem.Length) && idx < QUEUE_SIZE
      modifies mem
      ensures mem[..] == WriteDesc(old(mem[..]), q, idx, d)
    {
      Store(mem, q.desc + 16 * idx, d.Encode());
    }

    /** Writes the three-descriptor chain and its ring slot. */
    method WriteChain(mem: array<byte>, q: Queue, req: Request)
      requires QueueInMemory(q, mem.Length) && sectorSize <= MAX_SECTOR_SIZE
      modifies mem
      ensures mem[..] == FillQueue(old(mem[..]), q, sectorSize, availIdx, req)
    {
      hide LE, Splice, WriteDesc;
      var head := ChainHead(availIdx);
      WriteDescriptor(mem, q, head, Desc(DMA_POOL_BASE, 16, F_NEXT, head + 1));
      var dataFlags := if req.Read? then F_NEXT + F_WRITE else F_NEXT;
      WriteDescriptor(mem, q, head + 1, Desc(DATA_ADDR, sectorSize, dataFlags, head + 2));
      WriteDescriptor(mem, q, head + 2, Desc(DATA_ADDR + sectorSize, 1, F_WRITE, 0));
      Store(mem, q.avail + 4 + 2 * (availIdx % QUEUE_SIZE), LE(2, head));
    }

    /** Everything up to the doorbell; afterwards the request is the one outstanding exchange. */
    method Submit(machine: Machine, req: Request, schedule: Schedule)
      requires Drives(machine) && machine.Settled() && WellSized(req, sectorSize)
      modifies this`availIdx, machine, machine.mem
      ensures availIdx == Next(old(availIdx)) && SameStores(machine.devices, old(machine.devices))
      ensures index < |machine.devices|
      ensures Outstanding(machine.mem[..], machine.devices, index, old(availIdx), req, machine.devices)
      ensures SameOutside(old(machine.mem[..]), machine.mem[..], index, sectorSize)
    {
      hide RunSteps, Quiet, FillDma, FillQueue, DmaFilled, ChainFilled, Outstanding, SameOutside, Splice, LE;
      var mem := machine.mem;
      var q := QueueOf(index);
      ghost var m0 := mem[..];

      QuietRun(mem[..], machine.devices, schedule.before);
      machine.Run(schedule.before);
      FillDmaQuiet(mem[..], machine.devices, index, req);
      WriteRequest(mem, req);
      ghost var m1 := mem[..];

      QuietRun(mem[..], machine.devices, schedule.afterDma);
      machine.Run(schedule.afterDma);
      FillQueueQuiet(mem[..], machine.devices, index, availIdx, req);
      WriteChain(mem, q, req);
      ghost var m2 := mem[..];
      SameOutsideTrans(m0, m1, m2, index, sectorSize);

      QuietRun(mem[..], machine.devices, schedule.afterChain);
      machine.Run(schedule.afterChain);
      IndexInRange(m2, q);
      PublishRequest(m2, machine.devices, index, req);
      Store(mem, q.avail + 2, LE(2, Next(availIdx)));
      SameOutsideTrans(m0, m2, mem[..], index, sectorSize);
      availIdx := Next(availIdx);
    }

    /** Polls the used index while the devices run; gives up after a fixed number of looks. */
    method Await(machine: Machine, schedule: Schedule, idx: nat, ghost req: Request, ghost devs0: seq<Device>)
      returns (timedOut: bool)
      requires index < |machine.devices| && availIdx == Next(idx)
      requires Outstanding(machine.mem[..], machine.devices, index, idx, req, devs0)
      modifies machine, machine.mem
      ensures Outstanding(machine.mem[..], machine.devices, index, idx, req, devs0)
      ensures SameOutside(old(machine.mem[..]), machine.mem[..], index, devs0[index].sectorSize)
      ensures !timedOut <==> UsedIdx(machine.mem[..], QueueOf(index)) == Next(idx)
      ensures timedOut ==> Unanswerable(DiskOf(devs0[index]), req) || Starved(schedule, index)
    {
      hide RunSteps, Quiet, InFlight, Unanswerable, DiskOf, SameOutside, UsedIdx;
      ghost var m0 := machine.mem[..];
      SameOutsideRefl(m0, index, devs0[index].sectorSize);
      var n := 0;
      while n < MAX_WAIT_ITERATIONS
        invariant n <= MAX_WAIT_ITERATIONS
        invariant Outstanding(machine.mem[..], machine.devices, index, idx, req, devs0)
        invariant SameOutside(m0, machine.mem[..], index, devs0[index].sectorSize)
        invariant n > 0 ==> UsedIdx(machine.mem[..], QueueOf(index)) != Next(idx)
        invariant !Unanswerable(DiskOf(devs0[index]), req) ==>
                  StepsLeft(machine.devices[index], idx) + Given(schedule, index, n) <= 5
        invariant n > 0 ==> StepsLeft(machine.devices[index], idx) > 0
      {
        OutstandingRun(machine.mem[..], machine.devices, index, idx, req, devs0, schedule.poll(n));
        ghost var before := machine.mem[..];
        machine.Run(schedule.poll(n));
        SameOutsideTrans(m0, before, machine.mem[..], index, devs0[index].sectorSize);
        UsedIndexTells(machine.mem[..], machine.devices, index, idx, req, devs0);
        if UsedIdx(machine.mem[..], QueueOf(index)) == Next(idx) {
          return false;
        }
        n := n + 1;
      }
      return true;
    }

    /** Copies the data of a read out of the DMA area. */
    method CopyOut(mem: array<byte>, buffer: array<byte>)
      requires InGuest(mem.Length) && sectorSize <= MAX_SECTOR_SIZE && sectorSize <= buffer.Length && buffer != mem
      modifies buffer
      ensures buffer[..] == mem[DATA_ADDR..DATA_ADDR + sectorSize] + old(buffer[sectorSize..])
    {
      for k := 0 to sectorSize
        invariant forall p :: 0 <= p < buffer.Length ==>
                  buffer[p] == if p < k then mem[DATA_ADDR + p] else old(buffer[p])
      {
        buffer[k] := mem[DATA_ADDR + k];
      }
    }

    /**
     Issues one request and polls for its completion. Whatever the schedule: a request that completes had
     exactly the plain store's answer and effect, one the host cannot answer times out, and one it can
     answer completes if its device has five steps over all the polls together.
     */
    method DoRequest(machine: Machine, req: Request, buffer: array<byte>, schedule: Schedule)
      returns (ok: bool, timedOut: bool)
      requires Drives(machine) && machine.Settled() && WellSized(req, sectorSize)
      requires sectorSize <= buffer.Length && buffer != machine.mem
      modifies this`availIdx, machine, machine.mem, buffer
      ensures |machine.devices| == |old(machine.devices)| && machine.Valid()
      ensures SameOutside(old(machine.mem[..]), machine.mem[..], index, sectorSize)
      ensures forall j :: 0 <= j < |machine.devices| && j != index ==>
                SameStore(machine.devices[j], old(machine.devices)[j])
      ensures !timedOut ==> Drives(machine) && machine.Settled() && availIdx == Next(old(availIdx))
      ensures !timedOut ==> DiskOf(machine.devices[index]) == After(DiskOf(old(machine.devices)[index]), req)
      ensures !timedOut ==> ok == Answer(DiskOf(old(machine.devices)[index]), req).ok
      ensures timedOut ==> !ok
      ensures buffer[..] == if ok
                && req.Read? then Answer(DiskOf(old(machine.devices)[index]), req).data + old(buffer[sectorSize..])
                   else old(buffer[..])
      ensures Unanswerable(DiskOf(old(machine.devices)[index]), req) ==> timedOut
      ensures timedOut ==> Unanswerable(DiskOf(old(machine.devices)[index]), req) || Starved(schedule, index)
    {
      hide Quiet, Waiting, Returning, DiskOf, Answer, After, Unanswerable, SameOutside, AvailIdx, UsedIdx;
      ghost var m0, devs0 := machine.mem[..], machine.devices;
      var idx := availIdx;
      Submit(machine, req, schedule);
      ghost var m1, devs1 := machine.mem[..], machine.devices;
      SameStoreSameDisk(devs1[index], devs0[index]);
      timedOut := Await(machine, schedule, idx, req, devs1);
      SameOutsideTrans(m0, m1, machine.mem[..], index, sectorSize);
      UsedIndexTells(machine.mem[..], machine.devices, index, idx, req, devs1);
      if timedOut {
        return false, true;
      }
      var status := machine.mem[DATA_ADDR + sectorSize];
      if req.Read? && status == STATUS_OK {
        CopyOut(machine.mem, buffer);
      }
      ok := status == STATUS_OK;
    }

    /** Reads one sector into the front of the buffer; a buffer shorter than a sector is refused untouched. */
    method ReadSector(machine: Machine, sector: nat, buffer: array<byte>, schedule: Schedule)
      returns (ok: bool, timedOut: bool)
      requires Drives(machine) && machine.Settled() && sector < U64 && buffer != machine.mem
      modifies this`availIdx, machine, machine.mem, buffer
      ensures buffer.Length < sectorSize ==>
                !ok && !timedOut && machine.mem[..] == old(machine.mem[..]) && machine.devices == old(machine.devices)
      ensures |machine.devices| == |old(machine.devices)| && machine.Valid()
      ensures buffer.Length >= sectorSize && !timedOut ==>
                ok == Answer(DiskOf(old(machine.devices)[index]), Read(sector)).ok
      ensures !timedOut ==> Drives(machine) && machine.Settled()
      ensures !timedOut ==> DiskOf(machine.devices[index]) == DiskOf(old(machine.devices)[index])
      ensures ok ==> sector < |DiskOf(old(machine.devices)[index]).sectors|
      ensures ok ==> buffer.Length >= sectorSize
      ensures ok ==> buffer[..sectorSize] == DiskOf(old(machine.devices)[index]).sectors[sector]
      ensures !ok ==> buffer[..] == old(buffer[..])
      ensures buffer.Length >= sectorSize && Unanswerable(DiskOf(old(machine.devices)[index]), Read(sector)) ==>
                timedOut
    {
      hide DiskOf, AvailIdx, Quiet;
      if buffer.Length < sectorSize {
        return false, false;
      }
      ghost var data := Answer(DiskOf(machine.devices[index]), Read(sector)).data;
      ok, timedOut := DoRequest(machine, Read(sector), buffer, schedule);
      if ok {
        AnswerSize(old(machine.devices)[index], sector);
        assert buffer[..sectorSize] == data;
      }
    }

    /** Writes the first sector's worth of the buffer. */
    method WriteSector(machine: Machine, sector: nat, buffer: array<byte>, schedule: Schedule)
      returns (ok: bool, timedOut: bool)
      requires Drives(machine) && machine.Settled() && sector < U64 && buffer != machine.mem
      modifies this`availIdx, machine, machine.mem
      ensures buffer.Length < sectorSize ==>
                !ok && !timedOut && machine.mem[..] == old(machine.mem[..]) && machine.devices == old(machine.devices)
      ensures |machine.devices| == |old(machine.devices)| && machine.Valid()
      ensures buffer.Length >= sectorSize && !timedOut ==>
                var disk, req := DiskOf(old(machine.devices)[index]), Write(sector, buffer[..sectorSize]);
                && Drives(machine) && machine.Settled()
                && ok == Answer(disk, req).ok && DiskOf(machine.devices[index]) == After(disk, req)
      ensures buffer.Length >= sectorSize ==>
                (Unanswerable(DiskOf(old(machine.devices)[index]), Write(sector, buffer[..sectorSize])) ==> timedOut)
    {
      hide DiskOf, AvailIdx, Quiet;
      if buffer.Length < sectorSize {
        return false, false;
      }
      var buf := new byte[MAX_SECTOR_SIZE](_ => 0);
      forall k | 0 <= k < sectorSize {
        buf[k] := buffer[k];
      }
      assert buf[..sectorSize] == buffer[..sectorSize];
      ok, timedOut := DoRequest(machine, Write(sector, buf[..sectorSize]), buf, schedule);
    }

    /** Asks the host to make the file durable; the disk's contents are untouched. */
    method FlushDevice(machine: Machine, schedule: Schedule)
      returns (ok: bool, timedOut: bool)
      requires Drives(machine) && machine.Settled()
      modifies this`availIdx, machine, machine.mem
      ensures |machine.devices| == |old(machine.devices)| && machine.Valid()
      ensures !timedOut ==> ok && Drives(machine) && machine.Settled()
      ensures !timedOut ==> DiskOf(machine.devices[index]) == DiskOf(old(machine.devices)[index])
      ensures DiskOf(old(machine.devices)[index]).unsynced ==> timedOut
    {
      hide DiskOf, AvailIdx, Quiet;
      var buf := new byte[MAX_SECTOR_SIZE](_ => 0);
      ok, timedOut := DoRequest(machine, Flush, buf, schedule);
    }
  }

  lemma AnswerSize(d: Device, sector: nat)
    requires d.Valid()
    ensures Answer(DiskOf(d), Read(sector)).ok ==> |Answer(DiskOf(d), Read(sector)).data| == d.sectorSize
  {
  }

  // ----- whole runs -----

  function Disks(devs: seq<Device>): (r: seq<Disk>)
    requires forall j :: 0 <= j < |devs| ==> devs[j].Valid()
    ensures |r| == |devs|
  {
    seq(|devs|, j requires 0 <= j < |devs| => DiskOf(devs[j]))
  }

  /** One driver per device, each in step with its ring. */
  ghost predicate Attached(machine: Machine, drivers: seq<VirtioBlock>)
    reads machine, machine.mem, drivers
  {
    && |drivers| == |machine.devices|
    && forall j :: 0 <= j < |drivers| ==> drivers[j].index == j && drivers[j].Drives(machine)
  }

  /** One operation of a run. */
  method PerformOp(machine: Machine, drivers: seq<VirtioBlock>, op: Op, buffer: array<byte>, schedule: Schedule)
    returns (reply: Reply, timedOut: bool)
    requires machine.Settled() && Attached(machine, drivers)
    requires op.device < |drivers| && WellSized(op.req, drivers[op.device].sectorSize)
    requires buffer.Length == MAX_SECTOR_SIZE && buffer != machine.mem
    modifies machine, machine.mem, drivers, buffer
    ensures !timedOut ==> machine.Settled() && Attached(machine, drivers)
    ensures !timedOut ==> reply == Answer(DiskOf(old(machine.devices)[op.device]), op.req)
    ensures !timedOut ==>
              Disks(machine.devices) ==
                Disks(old(machine.devices))[op.device := After(DiskOf(old(machine.devices)[op.device]), op.req)]
    ensures Unanswerable(Disks(old(machine.devices))[op.device], op.req) ==> timedOut
    ensures timedOut ==> Unanswerable(Disks(old(machine.devices))[op.device], op.req) || Starved(schedule, op.device)
  {
    hide DiskOf, AvailIdx, Quiet, SameOutside;
    var driver := drivers[op.device];
    ghost var m, devs := machine.mem[..], machine.devices;
    var ok;
    ok, timedOut := driver.DoRequest(machine, op.req, buffer, schedule);
    reply := Reply(ok, if op.req.Read? && ok then buffer[..driver.sectorSize] else []);
    if !timedOut {
      forall j | 0 <= j < |drivers| && j != op.device
        ensures drivers[j].Drives(machine) && DiskOf(machine.devices[j]) == DiskOf(devs[j])
      {
        OtherIndicesKept(m, machine.mem[..], j, op.device, driver.sectorSize);
        SameStoreSameDisk(machine.devices[j], devs[j]);
      }
      AnswerSize(devs[op.device], SectorField(op.req));
    }
  }

  /** None of the first n requests is one the host leaves unanswered. */
  predicate AllAnswerable(disks: seq<Disk>, ops: seq<Op>, n: nat)
    requires InRange(disks, ops) && n <= |ops|
  {
    forall k :: 0 <= k < n ==> !Unanswerable(disks[ops[k].device], ops[k].req)
  }

  /**
   A reason to time out: the host leaves the request unanswered, or its device got fewer than five steps over all
   polls.
   */
  predicate Excused(disks: seq<Disk>, ops: seq<Op>, schedules: nat -> Schedule, k: nat)
    requires InRange(disks, ops) && k < |ops|
  {
    Unanswerable(disks[ops[k].device], ops[k].req) || Starved(schedules(k), ops[k].device)
  }

  /**
   Any sequence of requests over any of the devices sharing the DMA area, under any interleaving: up to the
   first timeout, the answers and the disks are those of the plain sector store.
   */
  method RunAll(machine: Machine, drivers: seq<VirtioBlock>, ops: seq<Op>, schedules: nat -> Schedule)
    returns (replies: seq<Reply>, timedOut: bool)
    requires machine.Settled() && Attached(machine, drivers)
    requires forall k :: 0 <= k < |ops| ==>
              ops[k].device < |drivers| && WellSized(ops[k].req, drivers[ops[k].device].sectorSize)
    modifies machine, machine.mem, drivers
    ensures |replies| <= |ops| && (!timedOut ==> |replies| == |ops|)
    ensures InRange(Disks(old(machine.devices)), ops)
    ensures replies == Answers(Disks(old(machine.devices)), ops[..|replies|])
    ensures !timedOut ==> machine.Settled() && Attached(machine, drivers)
    ensures !timedOut ==> Disks(machine.devices) == Final(Disks(old(machine.devices)), ops)
    ensures AllAnswerable(Disks(old(machine.devices)), ops, |replies|)
    ensures timedOut ==> |replies| < |ops| && Excused(Disks(old(machine.devices)), ops, schedules, |replies|)
  {
    hide DiskOf, After, Answer, AvailIdx, Quiet, QueueInMemory, QueueOf, Unanswerable, Final, Answers;
    ghost var disks := Disks(machine.devices);
    var buffer := new byte[MAX_SECTOR_SIZE](_ => 0);
    replies := [];
    NothingDone(disks, ops);
    for k := 0 to |ops|
      invariant |replies| == k && machine.Settled() && Attached(machine, drivers)
      invariant buffer != machine.mem
      invariant replies == Answers(disks, ops[..k]) && Disks(machine.devices) == Final(disks, ops[..k])
      invariant AllAnswerable(disks, ops, k)
    {
      OneMoreOp(disks, ops, k);
      SameRequestsAnswerable(disks, ops[..k], ops[k].device, ops[k].req);
      var reply, late := PerformOp(machine, drivers, ops[k], buffer, schedules(k));
      if late {
        return replies, true;
      }
      replies := replies + [reply];
    }
    assert ops[..|ops|] == ops;
    timedOut := false;
  }
}
