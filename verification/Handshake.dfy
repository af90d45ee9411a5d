/** Device initialisation: the driver's register writes against the host's MMIO registers. */
module Handshake {
  import opened Bytes
  import opened Options
  import opened Layout
  import opened BlockDevice
  import opened SectorStore
  import opened Protocol
  import opened Exchange

  const MAGIC: nat := 0x74726976
  const VERSION: nat := 2
  const DEVICE_ID_BLOCK: nat := 2

  const REG_MAGIC_VALUE: nat := 0x000
  const REG_VERSION: nat := 0x004
  const REG_DEVICE_ID: nat := 0x008
  const REG_QUEUE_SEL: nat := 0x030
  const REG_QUEUE_NUM_MAX: nat := 0x034
  const REG_QUEUE_NUM: nat := 0x038
  const REG_QUEUE_READY: nat := 0x044
  const REG_STATUS: nat := 0x070
  const REG_QUEUE_DESC_LOW: nat := 0x080
  const REG_QUEUE_DESC_HIGH: nat := 0x084
  const REG_QUEUE_DRIVER_LOW: nat := 0x090
  const REG_QUEUE_DRIVER_HIGH: nat := 0x094
  const REG_QUEUE_DEVICE_LOW: nat := 0x0A0
  const REG_QUEUE_DEVICE_HIGH: nat := 0x0A4
  const REG_CONFIG: nat := 0x100

  const ST_ACKNOWLEDGE: nat := 1
  const ST_DRIVER: nat := 2
  const ST_DRIVER_OK: nat := 4
  const ST_FEATURES_OK: nat := 8

  /** The registers of the device's single queue, plus its status. */
  datatype Regs = Regs(status: nat, num: nat, ready: bool, desc: nat, driver: nat, device: nat, lastAvail: nat)

  const RESET: Regs := Regs(0, 0, false, 0, 0, 0, 0)

  function WithLow(v: nat, half: nat): nat { v / U32 * U32 + half }

  function WithHigh(v: nat, half: nat): nat { v % U32 + half * U32 }

  predicate PowerOfTwo(n: nat)
    decreases n
  {
    n == 1 || (n > 0 && n % 2 == 0 && PowerOfTwo(n / 2))
  }

  class MmioDevice {
    const capacity: nat
    const queueNumMax: nat
    var regs: Regs

    constructor (capacity: nat, queueNumMax: nat, regs: Regs)
      ensures this.capacity == capacity && this.queueNumMax == queueNumMax && this.regs == regs
    {
      this.capacity, this.queueNumMax, this.regs := capacity, queueNumMax, regs;
    }

    function ReadReg(offset: nat): nat
      reads this
    {
      if offset == REG_MAGIC_VALUE then MAGIC
      else if offset == REG_VERSION then VERSION
      else if offset == REG_DEVICE_ID then DEVICE_ID_BLOCK
      else if offset == REG_QUEUE_NUM_MAX then queueNumMax
      else if offset == REG_STATUS then regs.status
      else if offset == REG_CONFIG then capacity % U32
      else if offset == REG_CONFIG + 4 then capacity / U32 % U32
      else 0
    }

    /** A status of zero resets everything; a queue size is taken only if it is a power of two within the maximum. */
    method WriteReg(offset: nat, value: nat)
      requires value < U32
      modifies this
      ensures regs == Written(old(regs), queueNumMax, offset, value)
    {
      if offset == REG_STATUS {
        if value % 256 == 0 {
          regs := RESET;
        } else {
          regs := regs.(status := value % 256);
        }
      } else if offset == REG_QUEUE_NUM {
        if !(value == 0 || value > queueNumMax || !PowerOfTwo(value)) {
          regs := regs.(num := value);
        }
      } else if offset == REG_QUEUE_READY {
        regs := regs.(ready := value != 0);
      } else if offset == REG_QUEUE_DESC_LOW {
        regs := regs.(desc := WithLow(regs.desc, value));
      } else if offset == REG_QUEUE_DESC_HIGH {
        regs := regs.(desc := WithHigh(regs.desc, value));
      } else if offset == REG_QUEUE_DRIVER_LOW {
        regs := regs.(driver := WithLow(regs.driver, value));
      } else if offset == REG_QUEUE_DRIVER_HIGH {
        regs := regs.(driver := WithHigh(regs.driver, value));
      } else if offset == REG_QUEUE_DEVICE_LOW {
        regs := regs.(device := WithLow(regs.device, value));
      } else if offset == REG_QUEUE_DEVICE_HIGH {
        regs := regs.(device := WithHigh(regs.device, value));
      }
    }
  }

  /** The register file after one guest write. */
  function Written(r: Regs, queueNumMax: nat, offset: nat, value: nat): Regs {
    if offset == REG_STATUS then (if value % 256 == 0 then RESET else r.(status := value % 256))
    else if offset == REG_QUEUE_NUM then (if 0 < value <= queueNumMax && PowerOfTwo(value) then r.(num := value) else r)
    else if offset == REG_QUEUE_READY then r.(ready := value != 0)
    else if offset == REG_QUEUE_DESC_LOW then r.(desc := WithLow(r.desc, value))
    else if offset == REG_QUEUE_DESC_HIGH then r.(desc := WithHigh(r.desc, value))
    else if offset == REG_QUEUE_DRIVER_LOW then r.(driver := WithLow(r.driver, value))
    else if offset == REG_QUEUE_DRIVER_HIGH then r.(driver := WithHigh(r.driver, value))
    else if offset == REG_QUEUE_DEVICE_LOW then r.(device := WithLow(r.device, value))
    else if offset == REG_QUEUE_DEVICE_HIGH then r.(device := WithHigh(r.device, value))
    else r
  }

  lemma HalvesMakeAddress(v: nat, addr: nat)
    ensures WithHigh(WithLow(v, addr % U32), addr / U32) == addr
  {
    var k := v / U32;
    assert (k * U32 + addr % U32) % U32 == addr % U32;
  }

  /** Hands a 64-bit address to the device in two halves, low then high. */
  method WriteAddress(dev: MmioDevice, low: nat, addr: nat)
    requires addr < U64
    requires low == REG_QUEUE_DESC_LOW || low == REG_QUEUE_DRIVER_LOW || low == REG_QUEUE_DEVICE_LOW
    modifies dev
    ensures dev.regs == if low == REG_QUEUE_DESC_LOW then old(dev.regs).(desc := addr)
                        else if low == REG_QUEUE_DRIVER_LOW then old(dev.regs).(driver := addr)
                        else old(dev.regs).(device := addr)
  {
    hide WithLow, WithHigh;
    HalvesMakeAddress(dev.regs.desc, addr);
    HalvesMakeAddress(dev.regs.driver, addr);
    HalvesMakeAddress(dev.regs.device, addr);
    dev.WriteReg(low, addr % U32);
    dev.WriteReg(low + 4, addr / U32);
  }

  lemma QueueSizePowerOfTwo()
    ensures PowerOfTwo(QUEUE_SIZE)
  {
    assert PowerOfTwo(8) && PowerOfTwo(64);
  }

  /**
   The driver's initialisation: from any earlier register contents, the device ends up reset, configured with
   exactly the driver's queue addresses, ready, and the driver learns the device's capacity.
   */
  method Init(dev: MmioDevice, vqBase: nat) returns (r: Option<(Queue, nat)>)
    requires vqBase + VQ_SIZE_PER_DEVICE < U64 && dev.capacity < U64 && dev.queueNumMax < U16
    modifies dev
    ensures r == Some((QueueAt(vqBase), dev.capacity))
    ensures dev.regs.ready && dev.regs.lastAvail == 0
    ensures Queue(dev.regs.desc, dev.regs.driver, dev.regs.device) == QueueAt(vqBase)
    ensures dev.regs.status == ST_ACKNOWLEDGE + ST_DRIVER + ST_FEATURES_OK + ST_DRIVER_OK
    ensures dev.regs.num == QUEUE_SIZE <==> dev.queueNumMax >= QUEUE_SIZE
  {
    hide PowerOfTwo, WithLow, WithHigh;
    var q := QueueAt(vqBase);
    if dev.ReadReg(REG_MAGIC_VALUE) != MAGIC || dev.ReadReg(REG_VERSION) != VERSION
      || dev.ReadReg(REG_DEVICE_ID) != DEVICE_ID_BLOCK {
      return None;
    }
    dev.WriteReg(REG_STATUS, 0);
    dev.WriteReg(REG_STATUS, ST_ACKNOWLEDGE);
    dev.WriteReg(REG_STATUS, ST_ACKNOWLEDGE + ST_DRIVER);
    dev.WriteReg(REG_STATUS, ST_ACKNOWLEDGE + ST_DRIVER + ST_FEATURES_OK);
    if dev.ReadReg(REG_STATUS) / ST_FEATURES_OK % 2 == 0 {
      return None;
    }
    dev.WriteReg(REG_QUEUE_SEL, 0);
    var maxSize := dev.ReadReg(REG_QUEUE_NUM_MAX) % U16;  // read as a 16-bit value
    QueueSizePowerOfTwo();
    dev.WriteReg(REG_QUEUE_NUM, if maxSize < QUEUE_SIZE then maxSize else QUEUE_SIZE);
    WriteAddress(dev, REG_QUEUE_DESC_LOW, q.desc);
    WriteAddress(dev, REG_QUEUE_DRIVER_LOW, q.avail);
    WriteAddress(dev, REG_QUEUE_DEVICE_LOW, q.used);
    dev.WriteReg(REG_QUEUE_READY, 1);
    dev.WriteReg(REG_STATUS, ST_ACKNOWLEDGE + ST_DRIVER + ST_FEATURES_OK + ST_DRIVER_OK);
    var low, high := dev.ReadReg(REG_CONFIG), dev.ReadReg(REG_CONFIG + 4);
    return Some((q, low + high * U32));
  }

  /** Driver and device name the same ring slot for every index only if the full queue size was negotiated. */
  lemma RingSlotsAgree(num: nat)
    requires 0 < num <= QUEUE_SIZE
    ensures (forall idx: nat :: idx < U16 ==> idx % num == idx % QUEUE_SIZE) <==> num == QUEUE_SIZE
  {
    if num < QUEUE_SIZE {
      assert num % num == 0 && num % QUEUE_SIZE == num;
    }
  }

  /** Zeroed rings and freshly reset devices: nothing is outstanding anywhere. */
  lemma FreshSystemIsQuiet(m: seq<byte>, devs: seq<Device>)
    requires System(m, devs)
    requires forall j :: 0 <= j < |devs| ==> devs[j].phase == Idle && devs[j].lastAvail == 0
    requires forall j :: 0 <= j < |devs| ==>
               m[devs[j].q.avail + 2..devs[j].q.avail + 4] == [0, 0]
                 && m[devs[j].q.used + 2..devs[j].q.used + 4] == [0, 0]
    ensures AllQuiet(m, devs) && forall j :: 0 <= j < |devs| ==> AvailIdx(m, devs[j].q) == 0
  {
    var zero: seq<byte> := [0, 0];
    assert zero[1..] == [0];
    assert FromLE(zero) == 0;
  }
}
