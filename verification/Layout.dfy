/** Guest physical memory: where the virtqueues and the shared DMA area lie. */
module Layout {

  const QUEUE_SIZE: nat := 256
  const VQ_BASE_START: nat := 0x10_0000
  const VQ_SIZE_PER_DEVICE: nat := 0x1_0000
  const MAX_INPUT_DEVICES: nat := 16
  const DMA_POOL_BASE: nat := 0x20_0000
  const DMA_POOL_END: nat := 0x21_0000
  const SCRATCH_MEM_BASE: nat := 0x30_0000
  const MAX_SECTOR_SIZE: nat := 65536

  /** The three parts of a split virtqueue, as the driver places them. */
  datatype Queue = Queue(desc: nat, avail: nat, used: nat)

  function DeviceVqBase(index: nat): nat {
    VQ_BASE_START + index * VQ_SIZE_PER_DEVICE
  }

  function QueueAt(vqBase: nat): Queue {
    Queue(vqBase, vqBase + QUEUE_SIZE * 16, vqBase + QUEUE_SIZE * 16 + 6 + QUEUE_SIZE * 2)
  }

  function QueueOf(index: nat): Queue {
    QueueAt(DeviceVqBase(index))
  }

  /** A half-open range of addresses. */
  datatype Region = Region(start: nat, end: nat)

  predicate Disjoint(a: Region, b: Region) {
    a.end <= b.start || b.end <= a.start
  }

  /** Descriptor table, available ring (flags, idx, 256 entries) and used ring (flags, idx, 256 elements). */
  function Parts(q: Queue): seq<Region> {
    [Region(q.desc, q.desc + 16 * QUEUE_SIZE),
     Region(q.avail, q.avail + 4 + 2 * QUEUE_SIZE),
     Region(q.used, q.used + 4 + 8 * QUEUE_SIZE)]
  }

  /** Header, data and status bytes of the one request in flight. */
  function DmaArea(sectorSize: nat): Region {
    Region(DMA_POOL_BASE, DMA_POOL_BASE + 16 + sectorSize + 1)
  }

  /** No part of any of the 16 queues meets another part of any queue, or the DMA area. */
  lemma QueuesDisjoint(i: nat, p: nat, j: nat, r: nat, sectorSize: nat)
    requires i < MAX_INPUT_DEVICES && j < MAX_INPUT_DEVICES && p < 3 && r < 3
    requires (i, p) != (j, r)
    requires sectorSize <= MAX_SECTOR_SIZE
    ensures Disjoint(Parts(QueueOf(i))[p], Parts(QueueOf(j))[r])
    ensures Parts(QueueOf(i))[p].end <= DmaArea(sectorSize).start
    ensures DmaArea(sectorSize).end <= SCRATCH_MEM_BASE
  {
    if i < j {
      assert (i + 1) * VQ_SIZE_PER_DEVICE <= j * VQ_SIZE_PER_DEVICE;
    } else if j < i {
      assert (j + 1) * VQ_SIZE_PER_DEVICE <= i * VQ_SIZE_PER_DEVICE;
    }
  }

  /** The pool's declared end is 17 bytes short of the largest request it is documented to hold. */
  lemma DmaAreaInsideDeclaredPool(sectorSize: nat)
    ensures DmaArea(sectorSize).end <= DMA_POOL_END <==> sectorSize <= MAX_SECTOR_SIZE - 17
  {
  }
}
