/** From power-on to the last answer: initialise every device, then run any sequence of requests. */
module Boot {
  import opened Bytes
  import opened Options
  import opened Layout
  import opened BlockDevice
  import opened SectorStore
  import opened Protocol
  import opened Exchange
  import opened Driver
  import opened Handshake

  /** What the host puts behind one device. */
  datatype Config = Config(backing: Backing, faults: Faults, capacity: nat, sectorSize: nat, readOnly: bool)
  {
    predicate Valid() {
      DeviceFor(this, 0).Valid() && capacity < U64
    }
  }

  /** The device as the handshake leaves it. */
  function DeviceFor(c: Config, i: nat): Device {
    Device(c.backing, c.faults, c.capacity, c.sectorSize, c.readOnly, QueueOf(i), 0, Idle)
  }

  predicate Bootable(configs: seq<Config>) {
    |configs| <= MAX_INPUT_DEVICES && forall i :: 0 <= i < |configs| ==> configs[i].Valid()
  }

  lemma QueueFits(i: nat)
    requires i < MAX_INPUT_DEVICES
    ensures QueueInMemory(QueueOf(i), SCRATCH_MEM_BASE) && DeviceVqBase(i) + VQ_SIZE_PER_DEVICE < U64
  {
  }

  /** Zeroed memory, one handshake per device, one driver each: the system is at rest and every driver in step. */
  method PowerOn(configs: seq<Config>) returns (machine: Machine, drivers: seq<VirtioBlock>)
    requires Bootable(configs)
    ensures fresh(machine) && fresh(machine.mem) && fresh(drivers)
    ensures |machine.devices| == |configs| && forall i :: 0 <= i < |configs| ==>
              machine.devices[i] == DeviceFor(configs[i], i)
    ensures machine.Settled() && Attached(machine, drivers)
    ensures |drivers| == |configs| && forall i :: 0 <= i < |configs| ==> drivers[i].sectorSize == configs[i].sectorSize
  {
    hide QueueInMemory, AvailIdx, UsedIdx, QueueOf;
    var devices: seq<Device> := [];
    drivers := [];
    for i := 0 to |configs|
      invariant |devices| == i && |drivers| == i && fresh(drivers)
      invariant forall k :: 0 <= k < i ==> devices[k] == DeviceFor(configs[k], k)
      invariant forall k :: 0 <= k < i ==>
                  drivers[k].index == k && drivers[k].sectorSize == configs[k].sectorSize && drivers[k].availIdx == 0
    {
      QueueFits(i);
      var c := configs[i];
      var dev := new MmioDevice(c.capacity, QUEUE_SIZE, RESET);
      var r := Init(dev, DeviceVqBase(i));
      var q := Queue(dev.regs.desc, dev.regs.driver, dev.regs.device);
      QueueFor(i, q);
      devices := devices +
        [Device(c.backing, c.faults, c.capacity, c.sectorSize, c.readOnly, q, dev.regs.lastAvail, Idle)];
      var driver := new VirtioBlock(i, c.sectorSize);
      drivers := drivers + [driver];
    }
    var mem := new byte[SCRATCH_MEM_BASE](_ => 0);
    machine := new Machine(mem, devices);
    AtRest(mem[..], devices, configs);
  }

  lemma QueueFor(i: nat, q: Queue)
    requires q == QueueAt(DeviceVqBase(i))
    ensures q == QueueOf(i)
  {
  }

  lemma AtRest(m: seq<byte>, devices: seq<Device>, configs: seq<Config>)
    requires Bootable(configs) && |devices| == |configs| && |m| == SCRATCH_MEM_BASE && forall a :: 0 <= a < |m| ==>
              m[a] == 0
    requires forall i :: 0 <= i < |configs| ==> devices[i] == DeviceFor(configs[i], i)
    ensures System(m, devices) && AllQuiet(m, devices)
    ensures forall i :: 0 <= i < |devices| ==> devices[i].q == QueueOf(i) && AvailIdx(m, devices[i].q) == 0
  {
    hide AvailIdx, UsedIdx, QueueOf, Quiet;
    forall i | 0 <= i < |devices|
      ensures Sane(devices[i], i, |m|)
    {
      QueueFits(i);
    }
    forall i | 0 <= i < |devices|
      ensures m[devices[i].q.avail + 2..devices[i].q.avail + 4] == [0, 0]
      ensures m[devices[i].q.used + 2..devices[i].q.used + 4] == [0, 0]
    {
      assert QueueInMemory(devices[i].q, |m|);
    }
    FreshSystemIsQuiet(m, devices);
  }

  /** The disks the host configured. */
  function Configured(configs: seq<Config>): (r: seq<Disk>)
    requires Bootable(configs)
    ensures |r| == |configs|
  {
    seq(|configs|, i requires 0 <= i < |configs| => DiskOf(DeviceFor(configs[i], i)))
  }

  /**
   Power on, then any requests under any schedule: the answers are those of the configured disks, up to the first
   time-out.
   */
  method BootAndRun(configs: seq<Config>, ops: seq<Op>, schedules: nat -> Schedule) returns (replies: seq<Reply>,
                    timedOut: bool)
    requires Bootable(configs)
    requires forall k :: 0 <= k < |ops| ==>
              ops[k].device < |configs| && WellSized(ops[k].req, configs[ops[k].device].sectorSize)
    ensures |replies| <= |ops| && (!timedOut ==> |replies| == |ops|)
    ensures InRange(Configured(configs), ops) && replies == Answers(Configured(configs), ops[..|replies|])
    ensures AllAnswerable(Configured(configs), ops, |replies|)
    ensures timedOut ==> |replies| < |ops| && Excused(Configured(configs), ops, schedules, |replies|)
  {
    hide QueueInMemory, AvailIdx, Quiet, QueueOf, DiskOf, Answer, After;
    var machine, drivers := PowerOn(configs);
    assert Disks(machine.devices) == Configured(configs);
    replies, timedOut := RunAll(machine, drivers, ops, schedules);
  }
}
