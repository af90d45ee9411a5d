# instar, modelled in Dafny

instar reads and writes disk images inside a small guest. This project models the parts of it whose correctness spans
several functions or a whole run, and proves what they promise:

- the virtio block driver in the guest together with the device thread on the host, down to the bytes of the
  descriptor table, the rings and the shared DMA area, for every interleaving of the two;
- the configuration hand-off over the serial line;
- refcount blocks at all seven entry widths, the repair planners that rewrite them, the two-pass snapshot update, the
  COPIED-flag walk and the cluster allocator;
- the tools around qcow2: image builder, free-cluster walk, image comparison, snapshot-table canonicaliser, seed
  extractors and metadata corruptor, and the check with its repair of a corrupted image;
- a DMG builder and the DMG reader, end to end, and a LUKS builder and the LUKS unlocker, end to end;
- state machines with a shadow state: the bitmap and bench plans and the issue filer;
- the share distance between two timing files, over exact reals.

`dafny verify dfyconfig.toml` covers every file.

## How it is laid out

| files | what they hold |
|---|---|
| `Bytes`, `Options`, `Decimals` | bytes, integers in both byte orders, patches of a buffer, decimal numbers |
| `Layout`, `BlockDevice`, `SectorStore`, `Protocol`, `Exchange`, `Driver`, `Handshake`, `Placement`, `Boot`, `Launch` | virtio: memory map, device steps, the plain sector store, one request, all runs, the driver, initialisation, device placement, runs from power-on, runs from the VMM's configuration |
| `Framing`, `HandOff` | framed messages and the device configuration |
| `RefcountBlock`, `Repair`, `SnapshotRefcount`, `CopiedFlags`, `SnapshotWalk`, `ClusterAllocator` | refcount entries, repair, snapshot updates, COPIED flags, snapshot trees, cluster allocation |
| `Qcow2Builder`, `FreeClusters`, `FreeCounts`, `CompareImages`, `SnapshotTable`, `NormalizeTable`, `SnapshotSeed`, `Qcow2Metadata`, `Corruptor`, `CorruptionClasses` | qcow2 tooling |
| `ClusterBitmap`, `CheckWalk`, `WalkMarks`, `ImageBytes`, `CountPasses`, `FlagPass`, `RepairTiers`, `RepairOutcome`, `RepairBytes`, `CheckSafety`, `SampleImage`, `HeaderVariants`, `MappedBlock` | the check: its bitmap and walk, its passes and tiers, what they make of a corrupted image, field by field and byte by byte, what they are worth on any image, and small images |
| `DmgTable`, `DmgPlist`, `DmgMarkup`, `DmgImage`, `DmgParse`, `DmgKoly`, `DmgReader`, `DmgRoundTrip`, `DmgDevice` | DMG |
| `AfSplit`, `Luks`, `LuksContainer`, `LuksUnlock` | LUKS |
| `BitmapPicker`, `BenchSchedule`, `BenchTouched`, `BenchPicker`, `IssueFiler` | plans, bench arithmetic, issue filing |
| `Shares`, `TimingCompare`, `TimingVerdict` | timing comparison |
| `VhdSeed` | VHD seed extraction |

Randomness is an arbitrary choice, the device thread's timing is an arbitrary schedule, and hash, key derivation, cipher,
zlib and protobuf are functions of which only the laws the code relies on are used.

## Where the code and what is said about it differ

- The DMA pool is described as rounded up to hold the header, the largest sector and the status byte. Its declared end is
  17 bytes short: a sector fits exactly up to 65519 bytes (`Layout.DmaAreaInsideDeclaredPool`).
- `update_snapshot_refcount` is described as leaving every refcount alone when it fails. It does unless the same cluster
  occurs more than once (`SnapshotRefcount.FailureIsNotAlwaysClean` for create and delete,
  `SnapshotRefcount.SwapFailureIsNotAlwaysClean` for apply, with `SnapshotRefcount.TwoReferencesOneBit` and
  `SnapshotRefcount.SwapLeavesABit` as instances).
- The swap of two snapshots is described as not failing for a cluster shared at its maximum count. It does
  (`SnapshotRefcount.SwapRefusesSharedMaximum`, with `SnapshotRefcount.SharedMaximumRefused` as an instance).
- `format_chain_device_name` and `parse_device_index` agree exactly below 100 (`HandOff.NameRoundTrip`), and a chain of 17
  inputs leaves no room for the output (`HandOff.SeventeenInputsLoseTheOutput`).
- The size negotiated for a virtqueue is not the size the driver indexes with; the two agree exactly at 256
  (`Handshake.RingSlotsAgree`).
- The corruptor reports the cluster of the first L2 entry even when it has corrupted the second
  (`CorruptionClasses.ReportedCluster`), and can return "nothing done" after it has changed the file
  (`CorruptionClasses.GivesUpAfterWriting`). Instances are `SampleImage.OtherClusterReported` and
  `SampleImage.ChangedYetGivenUp`.
- The all tier sets and clears the corrupt bit without looking at the version. In a version 2 header the word at byte 72
  belongs to the header extensions, and loses its bit 1 (`RepairBytes.FeaturesSurvive`, with
  `SampleImage.BackingFormatLost` as an instance).
- A repair of a corruption is not byte for byte what was corrupted: it also sets L1 flags, clears flags of unmapped
  entries and zeroes counts past the last cluster (`RepairBytes.AllTierBytes` says exactly when the file comes back).
- The snapshot walk is described as taking a compressed entry to the cluster that contains its data. It does exactly if
  the data does not go beyond one sector; otherwise the sector count is read as part of the offset
  (`CheckWalk.HostOfPacked`, with `CheckWalk.SectorsTakenForOffset` as an instance).
- A compressed entry that is written for n bytes at an offset inside a sector may be read back as less than n bytes
  (`CheckWalk.WrittenThenRead` says exactly when, `CheckWalk.OneByteShort` is an instance).
- An image that the all tier has repaired is described as clean by construction, because the walk has found no overlap.
  An entry that maps a refcount block can escape the walk; the image is clean exactly if there is no such entry and every
  cluster in use has a place for its count (`CheckSafety.AllTierSafe`, with `MappedBlock.GateMissesBlock` and
  `MappedBlock.NotCleanAfterRepair` as instances).
- The cluster allocator can fail with its clusters already claimed: exactly if the offset of the first fit does not fit
  64 bits (`ClusterAllocator.ClaimedYetFailed`, with `ClusterAllocator.TopOfTheRange` as an instance).
- `af_split` with a single stripe does not split (`AfSplit.SingleStripe`, with
  `AfSplit.SingleStripeLosesKey` as an instance).
- A snapshot-parse seed is self-contained exactly up to 4096 entries (`SnapshotSeed.ExtractSeed`, with
  `SnapshotSeed.SeedCutShort` as an instance).
- Normalising a snapshot table is meant to be canonical. A table over the header can change the fields it was found by
  (`NormalizeTable.PlanKept` says exactly when, `NormalizeTable.NotIdempotentOverHeader` is an instance).
- The DMG reader keys its cached chunk by host offset alone. Reads can be wrong after other reads, exactly if two chunks
  share an offset without being the same piece of the file, or one has the key that stands for an empty cache
  (`DmgReader.ReadsAreRightExactly`, `DmgReader.TableDecides`, with `DmgReader.OneOffsetTwoSizes` as an instance).
- The DMG trailer is described as recovered by the last magic of the device. A magic shortly before it, or inside it, can
  stand for it instead (`DmgKoly.TrailerLocated` says exactly when, `DmgKoly.TrailerMissed` is an instance).

## Model

| member | source | states |
|---|---|---|
| `Layout.QueuesDisjoint` | src/core/src/main.rs:42-75 | Any two different parts (descriptor table, avail ring, used ring) of any of the device queues occupy disjoint memory, all below the DMA area, which ends below scratch memory for every sector size. |
| `Layout.DmaAreaInsideDeclaredPool` | src/shared/src/lib.rs:668-669 | Header, sector and status byte end inside the declared pool exactly for sector sizes up to 65519. |
| `BlockDevice.DescRoundTrip` | src/vmm/src/virtio/block.rs:367-377 | A descriptor written into a table is the descriptor the device reads back. |
| `BlockDevice.HeaderRoundTrip` | src/vmm/src/virtio/block.rs:382-459 | The same for the request header in the DMA area. |
| `BlockDevice.DescriptorByte` | src/vmm/src/virtio/block.rs:367-377 | Every byte of a descriptor: address, length, flags, next index, low byte first. |
| `BlockDevice.RequestByte` | src/vmm/src/virtio/block.rs:382-459 | Every byte of a request header: kind, reserved, sector. |
| `SectorStore.ReadSeesLastWrite` | src/core/src/virtio.rs:211-242 | The reference store: after any sequence of operations on any devices a sector holds the last accepted write to it, or what it held before. |
| `SectorStore.SameRequestsAnswerable` | src/core/src/virtio.rs:211-242 | Whether the host can answer a request does not depend on what was written before. |
| `Protocol.FillDmaCorrect` | src/core/src/virtio.rs:245-269 | Filling the DMA area puts header and data where the device looks for them and 0xFF in the status byte, and changes no byte outside the area. |
| `Protocol.WriteDescCorrect` | src/core/src/virtio.rs:344-355 | Writing one descriptor changes that descriptor and no other of the table. |
| `Protocol.FillQueueChain` | src/core/src/virtio.rs:271-293 | The three descriptors and the ring slot form the chain header, data, status for the index, whatever they held before. |
| `Protocol.FillQueueFrame` | src/core/src/virtio.rs:271-293 | Building a chain touches the descriptor table and the ring slots only. |
| `Protocol.IoAccepted` | src/vmm/src/virtio/block.rs:470-496 | A transfer of one sector is accepted exactly for sectors of the disk, and can be written exactly if it does not run past the backing file. |
| `Protocol.WriteReplacesSector` | src/vmm/src/virtio/block.rs:519-536 | Writing through the backing file replaces one sector of the disk and keeps all others. |
| `Protocol.DiskIsFile` | src/vmm/src/virtio/block.rs:499-517 | The disk is the host file cut into sectors, with zeros past its end. |
| `Protocol.DiskSize` | src/vmm/src/virtio/block.rs:470-496 | It has as many sectors as the device says, as far as they have 64-bit byte offsets. |
| `Protocol.TransferRequest` | src/vmm/src/virtio/block.rs:499-536 | Reads, writes and flushes do to disk and memory what the sector store says, with the status byte that goes with it; where the host file fails to read, write or sync, nothing is changed and no status given. |
| `Protocol.ServeChain` | src/vmm/src/virtio/block.rs:382-459 | Following a chain in guest memory serves exactly the request the driver meant: new disk, answer bytes and status, or no answer where the host file fails. |
| `Exchange.QuietStep` | src/vmm/src/virtio/block.rs:302-313 | A device with nothing to do changes neither memory nor disk, however often it is woken. |
| `Exchange.ServeStep` | src/vmm/src/virtio/block.rs:325-332 | The step that serves the waiting chain answers it once and leaves other queues alone. |
| `Exchange.ListStep` | src/vmm/src/virtio/block.rs:340-348 | The step that fills the used-ring element keeps answer, disk and indices. |
| `Exchange.CompleteStep` | src/vmm/src/virtio/block.rs:350-357 | The step that advances the used index, with wrap-around, finishes the request. |
| `Exchange.InFlightStep` | src/vmm/src/virtio/block.rs:302-363 | Every device step keeps a submitted request in flight and, if it can be answered, brings it one step closer. |
| `Exchange.QuietRun` | src/vmm/src/io_thread.rs:165-188 | With no request outstanding, no schedule of device steps changes anything. |
| `Exchange.OutstandingStep` | src/vmm/src/io_thread.rs:165-188 | With one request outstanding, a step of any device keeps it so, and memory outside that device's queue and the DMA area stays. |
| `Exchange.OutstandingRun` | src/vmm/src/io_thread.rs:165-188 | The same over every schedule, with a count of the steps left. |
| `Exchange.PublishRequest` | src/core/src/virtio.rs:288-300 | Advancing the avail index turns a filled chain into the one outstanding request. |
| `Exchange.FillDmaQuiet` | src/core/src/virtio.rs:245-269 | Filling the shared DMA area wakes no device. |
| `Exchange.FillQueueQuiet` | src/core/src/virtio.rs:271-293 | Nor does building the chain, until it is published. |
| `Exchange.UsedIndexTells` | src/core/src/virtio.rs:307-323 | The used index equals the new avail index exactly when the request has been answered and every device is quiet again. |
| `Driver.Machine.Run` | src/vmm/src/io_thread.rs:165-188 | Any schedule of device steps on shared memory. |
| `Driver.VirtioBlock.WriteRequest` | src/core/src/virtio.rs:249-269 | The header, the byte-by-byte data copy and the status byte make up the filled DMA area. |
| `Driver.VirtioBlock.WriteDescriptor` | src/core/src/virtio.rs:344-355 | The in-place write of one descriptor. |
| `Driver.VirtioBlock.WriteChain` | src/core/src/virtio.rs:271-293 | The in-place writes of chain and ring slot. |
| `Driver.VirtioBlock.Submit` | src/core/src/virtio.rs:245-300 | From a settled machine, with devices running in between, the request is outstanding and the 16-bit index has advanced. |
| `Driver.VirtioBlock.Await` | src/core/src/virtio.rs:305-323 | Polling ends without a time-out exactly if the used index arrives; a time-out means that the host file fails or that the device has had fewer than five steps over all polls. |
| `Driver.VirtioBlock.CopyOut` | src/core/src/virtio.rs:332-339 | Exactly one sector is copied to the caller's buffer. |
| `Driver.VirtioBlock.DoRequest` | src/core/src/virtio.rs:244-342 | One request refines one operation of the sector store: answer, new disk, buffer, index, other devices and all memory outside queue and DMA area; it always times out if the host file fails. |
| `Driver.VirtioBlock.ReadSector` | src/core/src/virtio.rs:211-216 | A read delivers the stored sector or leaves the buffer alone, and times out on a sector the host cannot read; a short buffer is refused without touching anything. |
| `Driver.VirtioBlock.WriteSector` | src/core/src/virtio.rs:218-237 | A write replaces the sector if the store accepts it; a short buffer is refused. |
| `Driver.VirtioBlock.FlushDevice` | src/core/src/virtio.rs:239-242 | A flush succeeds and changes no disk, and times out if the host file cannot be synced. |
| `Driver.AnswerSize` | src/core/src/virtio.rs:332-339 | An accepted read answers with exactly one sector. |
| `Driver.PerformOp` | src/core/src/main.rs:339-354 | An operation on one of several attached devices changes that device's disk only; it times out if the host file fails, and otherwise only if the device was given fewer than five steps over all polls. |
| `Driver.RunAll` | src/core/src/virtio.rs:211-342 | Every finite run over any number of devices sharing the DMA area, under every schedule and across index wrap-around, answers as the plain sector stores do up to the first time-out, and without one ends in their state; a time-out happens only where the host file fails or the device was not given its steps. |
| `Handshake.HalvesMakeAddress` | src/vmm/src/virtio/block.rs:201-287 | Low and high half written one after the other give the 64-bit address. |
| `Handshake.WriteAddress` | src/core/src/virtio.rs:176-185 | Programming a queue address sets that address and no other register. |
| `Handshake.Init` | src/core/src/virtio.rs:103-201 | Initialisation ends with driver and device agreeing on all three queue addresses, a ready queue and the full status; the device's queue size is 256 exactly if it offers that many. |
| `Handshake.RingSlotsAgree` | src/core/src/virtio.rs:168-173 | Driver and device pick the same ring slot for every index exactly if the negotiated size is 256. |
| `Handshake.FreshSystemIsQuiet` | src/core/src/virtio.rs:103-201 | Freshly initialised devices over zeroed rings satisfy the starting condition of every run. |
| `Placement.Start` | src/core/src/main.rs:140-233 | The initialised inputs are a prefix with their own sector sizes, the output sits right behind it, and the cases in which start-up halts or panics are exactly these. |
| `Placement.StartAndPlace` | src/core/src/main.rs:163-233 | All queues of all placed devices are pairwise disjoint and below the DMA pool; the output index is the configured count exactly if every chain input joined. |
| `Boot.PowerOn` | src/core/src/main.rs:140-233 | From zeroed memory, one handshake per configured device leaves a settled machine with every driver attached to its own device. |
| `Boot.BootAndRun` | src/core/src/virtio.rs:103-342 | From power-on, every run of requests under every schedule answers as the configured disks do, up to the first time-out, which needs a failing host file or a device without steps. |
| `Launch.StopsBehindInputs` | src/core/src/main.rs:176-204 | With a disk behind every input and the output, initialisation stops exactly behind the inputs. |
| `Launch.LaunchAndRun` | src/core/src/main.rs:140-233 | From the VMM's list of disks to the last answer: configuration built, framed, sent and read, devices placed and initialised, requests run. The guest comes up exactly if the inputs leave an index for the output, and then answers as the configured disks do up to the first time-out. |
| `Framing.EncodeInto` | crates/guest-protocol/src/lib.rs:68-98 | A frame is written to the front of the buffer exactly if it fits, and otherwise the buffer is untouched. |
| `Framing.FrameBytes` | crates/guest-protocol/src/lib.rs:68-98 | A frame byte by byte: low byte of the length, high byte, message. |
| `Framing.FrameRoundTrip` | crates/guest-protocol/src/lib.rs:991-1042 | A frame followed by anything decodes to its message and its own length. |
| `Framing.PartialFrame` | crates/guest-protocol/src/lib.rs:991-1042 | No proper prefix of a frame decodes. |
| `Framing.PrefixFree` | crates/guest-protocol/src/lib.rs:68-98 | No frame is a prefix of another message's frame. |
| `Framing.StreamRoundTrip` | crates/guest-protocol/src/lib.rs:1023-1042 | A concatenated stream decodes to exactly the messages sent, leaving the undecodable tail. |
| `HandOff.ConfigChainWithOutput` | crates/guest-protocol/src/lib.rs:1185-1214 | The device list is the inputs, cut at 17, then the output if there is room. |
| `HandOff.ParseDeviceIndex` | src/core/src/serial.rs:98-109 | The digit loop computes the decimal value with wrap-around at 64 bits, and zero for anything else. |
| `HandOff.NameRoundTrip` | crates/guest-protocol/src/lib.rs:1217-1229 | Parsing the formatted device name gives the index back exactly below 100. |
| `HandOff.NamesSpelled` | crates/guest-protocol/src/lib.rs:1217-1229 | Two names, letter by letter. |
| `HandOff.AdoptDevices` | src/core/src/serial.rs:131-173 | The loop over the device list gives the adopted configuration. |
| `HandOff.ReadConfig` | src/core/src/serial.rs:112-173 | Byte-by-byte reception gives the configuration as soon as the frame is complete. |
| `HandOff.InputsAbsorbed` | src/core/src/serial.rs:131-173 | A list of n inputs is absorbed into count and sector sizes. |
| `HandOff.ChainHandOff` | src/core/src/serial.rs:112-173 | For every input count from 1 to 16, what the guest reads is the input count, every sector size, the output and the progress value the host meant, and every shorter prefix is still waiting. |
| `HandOff.SeventeenInputsLoseTheOutput` | crates/guest-protocol/src/lib.rs:1185-1214 | A chain that fills the list leaves the guest without an output. |
| `RefcountBlock.EntryInside` | src/crates/snapshot/src/qcow2.rs:51-148 | An entry index is in range exactly if its bytes lie in the block, at every width. |
| `RefcountBlock.EntriesApart` | src/crates/snapshot/src/qcow2.rs:51-148 | Two entries share no byte, or share one byte in different bit fields. |
| `RefcountBlock.EntryOfWith` | src/crates/snapshot/src/qcow2.rs:151-229 | Setting an entry stores the value as its width allows and changes no other entry, co-resident ones included. |
| `RefcountBlock.EntryFits` | src/crates/snapshot/src/qcow2.rs:51-148 | A read entry is below the number of values its width has. |
| `RefcountBlock.SameEntry` | src/crates/snapshot/src/qcow2.rs:151-229 | Storing what an entry already holds changes no byte. |
| `RefcountBlock.PackedFromLowEnd` | src/crates/snapshot/src/qcow2.rs:51-148 | At widths 1, 2 and 4 every byte is the number whose digits are its entries, the first entry lowest. |
| `RefcountBlock.HighByteFirst` | src/crates/snapshot/src/qcow2.rs:51-148 | From 8 bits on, every byte of an entry is the one at its place, high byte first. |
| `Repair.SetRefcount` | src/crates/snapshot/src/qcow2.rs:151-229 | The in-place setter, with its two error cases leaving the block alone. |
| `Repair.ReclaimedEntry` | src/crates/check/src/qcow2.rs:71-86 | Reclaiming sets exactly the unreferenced covered entries to zero. |
| `Repair.ReclaimLeaks` | src/crates/check/src/qcow2.rs:71-86 | The replay loop reclaims every covered entry and counts those that changed, or stops with the error at the end of the block. |
| `Repair.SecondReclamation` | src/fuzz/fuzz_targets/fuzz_check_repair.rs:280-298 | A second reclamation finds nothing and changes no byte. |
| `Repair.CorrectedEntry` | src/crates/check/src/qcow2.rs:226-250 | Correction sets exactly the covered entries to their computed values. |
| `Repair.CorrectRefcounts` | src/crates/check/src/qcow2.rs:226-250 | The loop's result and tallies, exactly when it fails, and that a failing run has still corrected every entry of the block. |
| `Repair.TallyCounts` | src/crates/check/src/qcow2.rs:226-250 | Raised, lowered and freed are the numbers of entries that were too low, too high but in use, and in use without a reference. |
| `Repair.CorrectionGeneralisesReclaim` | src/fuzz/fuzz_targets/fuzz_check_repair.rs:234-298 | With computed = stored where referenced and zero elsewhere, correction equals reclaim byte for byte, frees as many and raises or lowers nothing. |
| `Repair.SecondCorrection` | src/fuzz/fuzz_targets/fuzz_check_repair.rs:413-466 | A second correction changes no byte, and reports nothing exactly if every computed value fits its width. |
| `Repair.AccountReference` | src/crates/check/src/qcow2.rs:125-143 | Counting one reference adds one to one entry, or fails and changes nothing. |
| `Repair.WalkCounts` | src/fuzz/fuzz_targets/fuzz_check_repair.rs:304-373 | Counting a list of references succeeds exactly if every count fits, and then every entry has grown by its number of references. |
| `Repair.RepairRestoresCounts` | src/fuzz/fuzz_targets/fuzz_check_repair.rs:391-467 | Counting from zero and correcting makes every stored count equal the number of references, and doing it again changes nothing. |
| `SnapshotRefcount.CheckAll` | src/crates/snapshot/src/qcow2.rs:970-1096 | The dry run passes exactly if every reference alone has room. |
| `SnapshotRefcount.ApplyAll` | src/crates/snapshot/src/qcow2.rs:1100-1206 | The applying pass in place, up to the first reference without room. |
| `SnapshotRefcount.UpdateRefcounts` | src/crates/snapshot/src/qcow2.rs:766-860 | Create and delete over a list of references: the dry run and the applying pass, in place. |
| `SnapshotRefcount.ApplyCounts` | src/crates/snapshot/src/qcow2.rs:1100-1215 | Applying succeeds exactly if every cluster has room for all its references, and then every count has moved by that many. |
| `SnapshotRefcount.PartialApply` | src/crates/snapshot/src/qcow2.rs:1100-1215 | A pass that stops half way has moved counts only in its direction and never too far. |
| `SnapshotRefcount.FailureIsNotAlwaysClean` | src/crates/snapshot/src/qcow2.rs:719-860 | The update succeeds exactly if all counts fit, and fails after changing bytes exactly if each reference alone passes the dry run but their sum does not fit. |
| `SnapshotRefcount.CleanWithoutRepetition` | src/crates/snapshot/src/qcow2.rs:719-730 | Without repeated clusters a failed update leaves every byte alone, as documented. |
| `SnapshotRefcount.TwoReferencesOneBit` | src/crates/snapshot/src/qcow2.rs:719-730 | An eight-byte block of one-bit counts and two references to one cluster: failure with a changed block. |
| `SnapshotRefcount.EntriesDetermineByte` | src/crates/snapshot/src/qcow2.rs:51-148 | Blocks whose entries agree are equal byte for byte. |
| `SnapshotRefcount.CreateThenDelete` | src/crates/snapshot/src/qcow2.rs:766-860 | Deleting right after creating restores every byte, at every width and with any repetition. |
| `SnapshotRefcount.SwapRefusesSharedMaximum` | src/crates/snapshot/src/qcow2.rs:805-830 | Where applying alone would succeed, the swap is refused exactly if an incoming cluster is at its maximum. |
| `SnapshotRefcount.SwapFailureIsNotAlwaysClean` | src/crates/snapshot/src/qcow2.rs:723-878 | A swap fails after changing bytes exactly if both sides pass their dry runs but do not fit when applied in turn. |
| `SnapshotRefcount.SwapCleanWithoutRepetition` | src/crates/snapshot/src/qcow2.rs:723-730 | Where neither side repeats a cluster a failed swap leaves every byte alone. |
| `SnapshotRefcount.SwapRefcounts` | src/crates/snapshot/src/qcow2.rs:805-878 | The swap in place: both dry runs, then both applying passes. |
| `SnapshotRefcount.SharedMaximumRefused` | src/crates/snapshot/src/qcow2.rs:805-830 | One-bit counts and a cluster that both sides hold: the swap is refused although both passes would succeed. |
| `SnapshotRefcount.SwapLeavesABit` | src/crates/snapshot/src/qcow2.rs:723-730 | One-bit counts and a free cluster that the incoming side holds twice: the swap fails with a bit left set. |
| `SnapshotWalk.ListTable` | src/crates/snapshot/src/qcow2.rs:1008-1093 | The inner loop over one L2 table, with compressed and extended entries. |
| `SnapshotWalk.ListTree` | src/crates/snapshot/src/qcow2.rs:970-1096 | The walk over a tree lists data clusters and table clusters in order, repetitions included, up to the first table or count that is not staged. |
| `SnapshotWalk.UpdateTree` | src/crates/snapshot/src/qcow2.rs:766-860 | Create and delete over a staged tree, in place, with the error for a gap. |
| `SnapshotWalk.SwapTrees` | src/crates/snapshot/src/qcow2.rs:805-878 | Applying a snapshot in place: both trees walked, both checked, outgoing first, then both applied, with the error for a gap. |
| `SnapshotWalk.TreeAllVisited` | src/crates/snapshot/src/qcow2.rs:970-1096 | A complete walk has visited every table and every cluster that an entry refers to. |
| `SnapshotWalk.TreeCounts` | src/crates/snapshot/src/qcow2.rs:970-1096 | A complete walk lists a cluster exactly as often as tables and entries refer to it. |
| `SnapshotWalk.SharedNow` | src/crates/snapshot/src/qcow2.rs:766-860 | After a create every visited cluster that was in use has a count above one. |
| `SnapshotWalk.TreeIsReady` | src/crates/snapshot/src/qcow2.rs:1235-1338 | The tree that was just counted can be reconciled: every table is staged and every count is known. |
| `SnapshotWalk.SnapshotSharesAll` | src/crates/snapshot/src/qcow2.rs:1235-1338 | After creating a snapshot and reconciling the flags of the same tree, no entry in use claims to own its cluster alone. |
| `CopiedFlags.MarkedKeepsRest` | src/crates/snapshot/src/qcow2.rs:451-533 | Setting or clearing the flag changes bit 63 only and neither the offset nor the kind of the entry. |
| `CopiedFlags.RewriteFlag` | src/crates/snapshot/src/qcow2.rs:496-533 | The in-place rewrite of one entry. |
| `CopiedFlags.FixedEntry` | src/crates/snapshot/src/qcow2.rs:1290-1335 | After n entries were visited, those are what the rule says and the others are as they were. |
| `CopiedFlags.FixedElsewhere` | src/crates/snapshot/src/qcow2.rs:485-533 | Bytes outside the entries, the subcluster bitmaps among them, never change. |
| `CopiedFlags.FixedOnlyFlags` | src/crates/snapshot/src/qcow2.rs:1209-1337 | At any stage of the walk over a table nothing but bit 63 of entries differs. |
| `CopiedFlags.FixedTwice` | src/crates/snapshot/src/qcow2.rs:1209-1337 | A second pass over a reconciled table changes no byte and rewrites nothing. |
| `CopiedFlags.ReconcileTable` | src/crates/snapshot/src/qcow2.rs:1290-1335 | The table loop, standard or extended: it fails exactly if some count is not available, at the first such entry, and otherwise reports the rewritten entries, saturating at 32 bits. |
| `CopiedFlags.ReconcileSlot` | src/crates/snapshot/src/qcow2.rs:1253-1335 | One L1 slot with its table, and exactly when it fails. |
| `CopiedFlags.ReconcileTree` | src/crates/snapshot/src/qcow2.rs:1235-1338 | The whole walk over separate buffers: when it fails, what every entry is afterwards, the number of rewrites, and that even a failed walk has changed nothing but flags. |
| `CopiedFlags.TreeAgrees` | src/crates/snapshot/src/qcow2.rs:1209-1337 | After a complete walk every L1 and L2 entry is flagged exactly if its cluster's count is one, and entries without a cluster are not flagged. |
| `CopiedFlags.TreeTwice` | src/fuzz/fuzz_targets/fuzz_check_repair.rs:69-80 | A second walk succeeds, changes nothing and reports no rewrite. |
| `ClusterAllocator.CountsApart` | src/crates/snapshot/src/qcow2.rs:375-392 | Counts of different clusters never share a byte, across block boundaries too. |
| `ClusterAllocator.CountIsField` | src/crates/snapshot/src/qcow2.rs:375-392 | The staged blocks are one run of 16-bit counts, high byte first. |
| `ClusterAllocator.ClaimedCount` | src/crates/snapshot/src/qcow2.rs:411-420 | Claiming sets exactly the counts of the run to one. |
| `ClusterAllocator.ClaimedElsewhere` | src/crates/snapshot/src/qcow2.rs:411-420 | No other byte changes. |
| `ClusterAllocator.Probe` | src/crates/snapshot/src/qcow2.rs:401-410 | The inner scan stops at the first cluster in use or not staged. |
| `ClusterAllocator.Claim` | src/crates/snapshot/src/qcow2.rs:411-420 | The claiming loop, in place. |
| `ClusterAllocator.SkipIsSafe` | src/crates/snapshot/src/qcow2.rs:431-432 | Resuming behind a cluster in use skips no place that would fit. |
| `ClusterAllocator.AnswerIsExact` | src/crates/snapshot/src/qcow2.rs:313-436 | The blocks decide the answer: exhausted exactly if every place meets a cluster in use, the read error of its first unstaged cluster if the first fit is not staged, an offset or an overflow if it is free. |
| `ClusterAllocator.Allocate` | src/crates/snapshot/src/qcow2.rs:345-436 | The allocator with its checks: the first fit is claimed and the cursor lands behind it, or blocks and cursor are as they were. |
| `ClusterAllocator.ClaimedYetFailed` | src/crates/snapshot/src/qcow2.rs:421-429 | Clusters are claimed and the call fails exactly if the offset of the first fit does not fit 64 bits. |
| `ClusterAllocator.TopOfTheRange` | src/crates/snapshot/src/qcow2.rs:421-429 | An instance of it. |
| `ClusterAllocator.AllocateMany` | src/crates/snapshot/src/qcow2.rs:275-290 | Any number of calls with one cursor hand out ranges in order that were free at the start, never share a cluster, and change no other count. |
| `Bytes.HighFirst` | scripts/create-native-luks-testdata.py:526-540 | What a big-endian field of any width holds: byte j is the digit of its place, high byte first. |
| `Qcow2Builder.WriteHeader` | scripts/create-native-luks-testdata.py:490-574 | The 72 header bytes, field by field: magic, version, cluster bits, size, the tables and their places. |
| `Qcow2Builder.WriteL1` | scripts/create-native-luks-testdata.py:490-574 | L1 words point at consecutive L2 clusters. |
| `Qcow2Builder.WriteL2` | scripts/create-native-luks-testdata.py:490-574 | L2 words, over all tables, point at consecutive data clusters. |
| `Qcow2Builder.WriteRefblock` | scripts/create-native-luks-testdata.py:490-574 | Every cluster the block can hold gets count one. |
| `Qcow2Builder.BuildImage` | scripts/create-native-luks-testdata.py:490-574 | The whole image, for every size and content. |
| `Qcow2Builder.GuestSeesContent` | scripts/create-native-luks-testdata.py:490-574 | A reader that checks magic and version and takes cluster size, table size and virtual size from the header gets byte v of the content, zero past its end, and nothing past the virtual size. |
| `Qcow2Builder.L1TableIntact` | scripts/create-native-luks-testdata.py:490-574 | The L1 table survives the L2 writes exactly up to 8192 entries. |
| `Qcow2Builder.EveryClusterReferencedOnce` | scripts/create-native-luks-testdata.py:490-574 | Header, tables and data reference every cluster exactly once, and every stored count is one exactly up to 32768 clusters. |
| `Qcow2Builder.BuiltHeader` | scripts/create-native-luks-testdata.py:490-574 | The free-cluster walk takes the built header for what it is: 64 KiB clusters, and a refcount table of one cluster at byte 72. |
| `Qcow2Builder.BuiltFree` | scripts/create-native-luks-testdata.py:490-574 | Its free clusters are those from 32768 on, so that there are none exactly up to 32768 clusters. |
| `FreeClusters.AddSlot` | scripts/differential-fuzz.py:4285-4298 | One refcount-table slot adds exactly its free clusters. |
| `FreeClusters.WalkComplete` | scripts/differential-fuzz.py:4281-4299 | The early stop misses no free cluster and no bad block. |
| `FreeClusters.FindFreeClusters` | scripts/differential-fuzz.py:4248-4301 | The walk returns exactly the clusters with refcount zero, or nothing for a file whose header or table it cannot take. |
| `FreeClusters.MaskOfParts` | scripts/differential-fuzz.py:4286-4287 | An offset is bits 9 to 55 of an entry, whatever the others. |
| `FreeClusters.ForeignFilesRefused` | scripts/differential-fuzz.py:4255-4278 | Wrong magic, odd cluster sizes, other count widths and tables past the end are refused. |
| `FreeCounts.HeaderTaken` | scripts/differential-fuzz.py:4255-4278 | A well-formed header is taken exactly if its counts have 16 bits, in versions 2 and 3. |
| `FreeCounts.FreeIsZeroCount` | scripts/differential-fuzz.py:4248-4301 | On a well-formed image, of version 2 or of version 3 with 16-bit counts, the walk finds exactly the clusters whose stored count is zero; with counts of another width it finds nothing. |
| `CompareImages.FindDeadClusters` | scripts/differential-fuzz.py:4304-4313 | Clusters free in both images of the same cluster size. |
| `CompareImages.PowersDivideChunk` | scripts/differential-fuzz.py:4349-4353 | Every cluster size up to 2 MiB divides the chunk or is twice the chunk. |
| `CompareImages.PieceInOneCluster` | scripts/differential-fuzz.py:4349-4357 | A cluster-sized piece of a chunk never straddles two clusters. |
| `CompareImages.SearchChunk` | scripts/differential-fuzz.py:4352-4370 | The first counting difference of a chunk, dead clusters skipped, or none. |
| `CompareImages.TailIsZero` | scripts/differential-fuzz.py:4372-4386 | The chunked tail scan decides whether the tail is all zero. |
| `CompareImages.Compare` | scripts/differential-fuzz.py:4316-4386 | Identical exactly if the common prefix agrees outside dead clusters and the longer tail is zero; otherwise the least offending offset with both bytes, or the side with the non-zero tail. |
| `FreeCounts.DeadIsZeroCount` | scripts/differential-fuzz.py:4304-4313 | What the comparator forgives: on two such images, exactly the clusters whose stored count is zero on both sides. |
| `FreeCounts.FreeByteDiffers` | scripts/differential-fuzz.py:4316-4386 | Two version 3 images that differ in a byte of a free cluster: cluster 6 is dead, and no difference counts. |
| `FreeCounts.FreeByteForgiven` | scripts/differential-fuzz.py:4316-4386 | The comparator accepts them. |
| `SnapshotTable.WalkEntries` | scripts/differential-fuzz.py:4219-4236 | The entry walk, with its failures. |
| `SnapshotTable.WalkInOrder` | scripts/differential-fuzz.py:4219-4236 | Entries are in order, apart, and inside the table. |
| `SnapshotTable.WalkEncoded` | scripts/differential-fuzz.py:4219-4236 | A table of any snapshots, laid out as the format says and followed by anything, is walked to its entries. |
| `SnapshotTable.WalkIgnoresDead` | scripts/differential-fuzz.py:4219-4236 | Dates and padding do not influence the walk. |
| `SnapshotTable.TableLength` | scripts/extract-fuzz-corpus.py:140-160 | The extractor's walk succeeds on exactly the tables the canonicaliser's walk accepts, up to 4096 entries, and returns their end. |
| `SnapshotTable.TruncationStable` | scripts/extract-fuzz-corpus.py:140-160 | Walking the table cut at its length, or later, gives the same entries. |
| `SnapshotTable.NothingFollows` | scripts/extract-fuzz-corpus.py:140-160 | A table cut at its length holds no further entry. |
| `NormalizeTable.PatchTable` | scripts/differential-fuzz.py:4237-4244 | The in-place loops set exactly the dates and zero exactly the padding. |
| `NormalizeTable.Normalize` | scripts/differential-fuzz.py:4172-4245 | The file becomes its normal form, and is untouched unless normalised. |
| `NormalizeTable.NormalizeIdempotent` | scripts/differential-fuzz.py:4172-4245 | Normalising twice is normalising once, wherever the table lies, as long as no date and no padding covers the header fields that decide. |
| `NormalizeTable.PlanKept` | scripts/differential-fuzz.py:4172-4245 | The second decision is the first one exactly if the patch has left magic, count and table offset alone, and then nothing more changes. |
| `NormalizeTable.NotIdempotentOverHeader` | scripts/differential-fuzz.py:4172-4245 | A file whose table starts at byte 47: the first patch makes its count 96, and the second stamps 96 dates. |
| `NormalizeTable.CanonicalForm` | scripts/differential-fuzz.py:4172-4245 | Two files have the same normal form exactly if they differ only in dates and padding of their tables. |
| `SnapshotSeed.BuildSeed` | scripts/extract-fuzz-corpus.py:163-192 | The seed's header, every byte of its control block, and its table, where the reader of the seed looks for them. |
| `SnapshotSeed.NeedleFindsId` | scripts/extract-fuzz-corpus.py:163-192 | The search needle of a seed is the first id of its table, up to 64 bytes. |
| `SnapshotSeed.ExtractSeed` | scripts/extract-fuzz-corpus.py:195-231 | Exactly which files give a seed, and that its own table can be walked, with the result of the source file, exactly up to 4096 entries. |
| `SnapshotSeed.SeedCutShort` | scripts/extract-fuzz-corpus.py:195-231 | A file of 4097 snapshots gives a seed that its own header cannot walk. |
| `Qcow2Metadata.CountsApart` | scripts/differential-fuzz.py:4667-4685 | Two clusters' counts occupy different bytes. |
| `Qcow2Metadata.EntriesApart` | scripts/differential-fuzz.py:4688-4699 | Two L2 entries occupy different bytes. |
| `Corruptor.TablesKept` | scripts/differential-fuzz.py:4637-4699 | A change inside one L2 table or refcount block leaves the header and both top-level tables as they were. |
| `Corruptor.L2Written` | scripts/differential-fuzz.py:4660-4664 | Overwriting one L2 entry changes no other entry and no count. |
| `Corruptor.CountWritten` | scripts/differential-fuzz.py:4667-4685 | Overwriting one count changes no other count and no L2 entry. |
| `CorruptionClasses.SetRefcount` | scripts/differential-fuzz.py:4667-4685 | The in-place count write; it fails exactly if the block is missing. |
| `CorruptionClasses.CorruptEffect` | scripts/differential-fuzz.py:4702-4742 | Counts and entries after each class, on any well-formed image, and exactly when it gives up. |
| `CorruptionClasses.ReferencesAfter` | scripts/differential-fuzz.py:4702-4742 | References from metadata stay; only the rewritten entry's reference can move. |
| `CorruptionClasses.InjectsDiscrepancy` | scripts/differential-fuzz.py:4702-4742 | On a clean image, stored count minus references afterwards, for every cluster and every class. |
| `CorruptionClasses.InjectsFlag` | scripts/differential-fuzz.py:4702-4742 | Which COPIED flags are wrong afterwards: the target's for refcount_zero and stale_copied, none otherwise. |
| `CorruptionClasses.InjectsExactly` | scripts/differential-fuzz.py:4702-4742 | Each class succeeds on a clean image, creates exactly its discrepancy and no other, and never leaves the image clean. |
| `CorruptionClasses.ReportedCluster` | scripts/differential-fuzz.py:4742-4742 | The reported cluster is in order exactly if stale_copied took the second entry. |
| `CorruptionClasses.GivesUpAfterWriting` | scripts/differential-fuzz.py:4717-4736 | Returning nothing leaves the file unchanged exactly if the flag already had its new value. |
| `CorruptionClasses.CorruptImage` | scripts/differential-fuzz.py:4702-4742 | The in-place corruptor, for every class and every well-formed image, with its skips. |
| `ClusterBitmap.BitSet` | src/shared/src/bitmap.rs:63-77 | Setting a bit adds its item to the marked ones and no other. |
| `ClusterBitmap.Bitmap.constructor` | src/shared/src/bitmap.rs:44-56 | A bitmap starts empty, and has a bit for every item exactly if scratch memory is large enough. |
| `ClusterBitmap.Bitmap.Set` | src/shared/src/bitmap.rs:63-77 | The in-place set, and its report: new, already set, or beyond the bitmap. |
| `CheckWalk.MarkRange` | src/operations/check/src/main.rs:2712-2731 | Marking the clusters of a top-level table in place. |
| `CheckWalk.ExtentOfPacked` | src/crates/qcow2/src/lib.rs:3353-3371 | A compressed entry put together from flag, sector count and offset gives offset and end of the last sector back. |
| `CheckWalk.EveryPacked` | src/crates/qcow2/src/lib.rs:3353-3371 | Every compressed entry is put together that way. |
| `CheckWalk.WrittenThenRead` | src/crates/qcow2/src/lib.rs:185-194 | Writing a compressed entry and reading it back: the offset, and room for the data exactly if it does not need the rest of its first sector. |
| `CheckWalk.OneByteShort` | src/crates/qcow2/src/lib.rs:185-194 | 512 bytes written at offset 65537 are read back as 511. |
| `CheckWalk.HostOfPacked` | src/crates/snapshot/src/qcow2.rs:655-662 | The snapshot walk takes a compressed entry to the cluster of its data exactly if that does not go beyond one sector. |
| `CheckWalk.SectorsTakenForOffset` | src/crates/snapshot/src/qcow2.rs:655-662 | Two sectors of data in cluster 1 are taken to lie 2^54 bytes further on. |
| `CheckWalk.CheckEntry` | src/operations/check/src/main.rs:3001-3149 | One L2 entry, standard or compressed, in place: what is marked, and what counts as a corruption. |
| `CheckWalk.CheckTable` | src/operations/check/src/main.rs:2880-3154 | The loop over the entries of one L2 table. |
| `CheckWalk.CheckSlot` | src/operations/check/src/main.rs:2778-2878 | One L1 slot: its table, the refcount block that covers it, and its entries. |
| `CheckWalk.WalkImage` | src/operations/check/src/main.rs:2706-3215 | The whole walk in place: top-level tables, the L1/L2 tree, then every refcount block. |
| `WalkMarks.MarksAreUses` | src/operations/check/src/main.rs:2706-3215 | On every image whose pointers lie in the file, compressed entries included, the walk marks exactly the clusters of the metadata, those an entry maps, and those with a byte of compressed data. |
| `WalkMarks.MarksAreReferences` | src/operations/check/src/main.rs:2706-3215 | On every sound image (every pointer names a whole cluster of the file, none is compressed, and the refcount table covers the file) the marked clusters are exactly those with a reference, whatever the stored counts and however often they are referenced. |
| `WalkMarks.NothingOverlaps` | src/operations/check/src/main.rs:3334-3346 | Where no cluster has two references the walk counts no corruption. |
| `WalkMarks.TwiceMapped` | src/operations/check/src/main.rs:3056-3062 | A cluster that two entries map, anywhere in the tree, makes it count one. |
| `WalkMarks.MappedAgain` | src/operations/check/src/main.rs:3056-3062 | So does a mapped cluster that belongs to the header, a table read before, or an earlier entry. |
| `WalkMarks.TableAgain` | src/operations/check/src/main.rs:2820-2827 | And an L2 table on a cluster that was reached before. |
| `CheckSafety.NoCorruptionsPointed` | src/operations/check/src/main.rs:2778-3149 | If the walk counts no corruption, every pointer of the image lies in the file, and without a compressed entry seen there is none. |
| `CountPasses.BlockWritten` | src/crates/check/src/qcow2.rs:226-250 | Replacing one refcount block changes the counts kept there, and no entry, table or other count. |
| `CountPasses.BlockEntriesWritten` | src/crates/check/src/qcow2.rs:226-250 | The same for every entry of every block, and no byte outside that block changes. |
| `CountPasses.CorrectBlock` | src/operations/check/src/main.rs:4201-4240 | Correcting a staged block writes one for every marked cluster and zero for any other. |
| `CountPasses.ReclaimBlock` | src/operations/check/src/main.rs:3907-3930 | Reclaiming in a staged block zeroes the counts of unmarked clusters and no other. |
| `CountPasses.CorrectCounts` | src/operations/check/src/main.rs:4135-4258 | The correcting pass over every row of the refcount table, in place: every entry of every block, those past the last cluster included, and no byte outside the blocks. |
| `CountPasses.ReclaimCounts` | src/operations/check/src/main.rs:3798-3956 | The leaks pass likewise: no byte outside the blocks changes; a total of zero means that none has changed at all. |
| `FlagPass.L1Stored` | src/operations/check/src/main.rs:4403-4413 | An L1 table with the same offsets can be written back without changing any byte outside it, and so no entry, count or header field. |
| `FlagPass.TableStored` | src/operations/check/src/main.rs:4414-4425 | Writing back one L2 table changes its entries and no byte outside it. |
| `FlagPass.Stage` | src/operations/check/src/main.rs:4280-4347 | Staging the tables succeeds exactly if the L2 tables fit the arena by number and by size. |
| `FlagPass.WriteBack` | src/operations/check/src/main.rs:4403-4425 | Writing back the L1 table and every staged table, in place; every byte outside these tables stays. |
| `FlagPass.ReconcileFile` | src/operations/check/src/main.rs:4259-4426 | The flag pass over an image file, compressed entries included: every entry is flagged exactly if its cluster is marked, and every other bit of the tables and every byte outside them stays; or, if the tables do not fit, nothing is written. |
| `RepairTiers.FeaturesWritten` | src/operations/check/src/main.rs:4096-4131 | Setting or clearing the corrupt bit changes eight bytes and nothing that the tables say. |
| `RepairTiers.RepairAll` | src/operations/check/src/main.rs:4033-4468 | The four steps of the all tier: when it completes, what it leaves then, what an aborted run leaves (counts corrected, corrupt bit set), and when it writes nothing. In every case bytes outside the features word, the tables and the blocks stay. |
| `RepairTiers.CheckAndRepair` | src/operations/check/src/main.rs:2514-3460 | The whole check with repair: which headers are accepted, which tier runs, and the file afterwards in every case. |
| `HeaderVariants.WhichAccepted` | src/crates/qcow2/src/lib.rs:369-476 | Of a small image with any version, snapshots, features and refcount order, versions 2 and 3 are accepted, the latter with features below bit 5 and orders up to 6. |
| `HeaderVariants.WhichTier` | src/operations/check/src/main.rs:3330-3364 | Which tier runs on the accepted version 3 variants, for every number of snapshots and every features word, in each mode. |
| `CheckSafety.GateIsSound` | src/operations/check/src/main.rs:3330-3346 | Whatever image the all tier runs on: nothing is compressed, all pointers lie in the file, and no cluster is used twice, unless an entry maps a refcount block. |
| `CheckSafety.AllTierSafe` | src/operations/check/src/main.rs:4033-4468 | Whatever image the all tier runs on, it leaves a clean one exactly if no entry maps a refcount block and every cluster in use has a place for its count. |
| `MappedBlock.GateMissesBlock` | src/operations/check/src/main.rs:3330-3346 | An image with an entry that maps a refcount block, and on which the all tier runs: the block covers no L2 table, so that the walk does not come across it. |
| `MappedBlock.NotCleanAfterRepair` | src/operations/check/src/main.rs:4428-4435 | After its repair the image is not clean. |
| `CheckSafety.LeaksTierSafe` | src/operations/check/src/main.rs:3798-3956 | On every image whose pointers lie in the file, the leaks tier zeroes exactly the counts of clusters not in use. |
| `CheckSafety.CompressedDataKept` | src/operations/check/src/main.rs:3133-3140 | In particular no cluster with a byte of compressed data loses its count. |
| `RepairOutcome.CorruptKeepsTop` | scripts/differential-fuzz.py:4702-4742 | The corruptor never touches the header or the L1 table. |
| `RepairOutcome.StaysPlain` | scripts/differential-fuzz.py:4702-4742 | A corrupted image is one that the check still accepts, tracks and finds sound. |
| `RepairOutcome.CleanTopApart` | src/operations/check/src/main.rs:2712-2731 | In a clean image whose tables start on cluster boundaries, header, L1 table and refcount table do not overlap. |
| `RepairOutcome.ReferencesNow` | scripts/differential-fuzz.py:4702-4742 | How often each cluster is referenced after each class, on a clean image. |
| `RepairOutcome.GateDecides` | src/operations/check/src/main.rs:3340-3346 | On a corrupted clean image the all tier is chosen for every class but overlapping, which the walk counts as a corruption and which falls to the leaks tier. |
| `RepairOutcome.BitmapTells` | src/shared/src/bitmap.rs:86-93 | A bit of the finished bitmap is set exactly if its cluster is referenced. |
| `RepairOutcome.AllTierCleans` | src/operations/check/src/main.rs:4033-4468 | Without a doubly referenced cluster the all tier leaves a clean image, whatever the counts and flags were. |
| `RepairOutcome.AllTierOutcome` | scripts/differential-fuzz.py:4628-4634 | After the all tier the image is clean again, and counts and mapped entries are the original ones exactly for the three classes that neither drop nor move a reference. |
| `RepairOutcome.LeaksTierOutcome` | scripts/differential-fuzz.py:4628-4634 | After the leaks tier, for every class and every cluster and flag: leaks are gone, the displaced cluster of overlapping among them; the target's count stays off by one and the flags stay as they were; no byte outside the refcount blocks changes; the image is clean exactly for leaked_cluster. For overlapping two flagged entries share a cluster whose count is one. |
| `ImageBytes.SameBytes` | scripts/differential-fuzz.py:4628-4634 | Two images with the same tables are the same bytes exactly if L1 entries, L2 entries, block entries, the features word and all bytes outside them agree. |
| `RepairBytes.CorruptKeepsRest` | scripts/differential-fuzz.py:4702-4742 | The corruptor changes no byte outside L2 tables and refcount blocks. |
| `RepairBytes.CorruptKeepsSpare` | scripts/differential-fuzz.py:4702-4742 | It leaves block entries that stand for no cluster of the file alone. |
| `RepairBytes.NoMarkPast` | src/operations/check/src/main.rs:2706-3215 | The walk marks no cluster past the end of the file. |
| `RepairBytes.L1Back` | src/operations/check/src/main.rs:4259-4426 | After the all tier the L1 table is the original one exactly if every entry with a table was flagged. |
| `RepairBytes.L2Back` | src/operations/check/src/main.rs:4259-4426 | The L2 tables are the original ones exactly if no unmapped entry was flagged. |
| `RepairBytes.BlocksBack` | src/operations/check/src/main.rs:4135-4258 | The refcount blocks are the original ones exactly if the counts past the last cluster were zero. |
| `RepairBytes.AllTierBytes` | src/operations/check/src/main.rs:4033-4468 | After a complete all tier the file is the original one, byte for byte, exactly for the three undone classes on an image with flagged L1 entries, no flagged unmapped entry, zero counts past its end, and bit 1 of the word at byte 72 clear. |
| `RepairBytes.LeaksTierBytes` | src/operations/check/src/main.rs:3798-3956 | The leaks tier leaves every byte alone exactly if no unreferenced cluster has a count and the counts past the last cluster are zero. |
| `RepairBytes.LeakedExactly` | scripts/differential-fuzz.py:4702-4742 | Which classes leave a leak: leaked_cluster, and overlapping if the second entry was mapped. |
| `RepairBytes.MappedUntouchable` | src/operations/check/src/main.rs:2706-3215 | In a clean image on cluster boundaries no byte of a mapped cluster belongs to header word, table or block. |
| `RepairBytes.GuestDataKept` | src/operations/check/src/main.rs:4033-4468 | So whatever tier runs, the content of every mapped cluster stays. |
| `RepairBytes.FeaturesSurvive` | src/operations/check/src/main.rs:4428-4460 | The word at byte 72 survives the all tier exactly if its bit 1 was clear, as in every accepted version 3 header. |
| `RepairBytes.CorruptThenRepair` | scripts/differential-fuzz.py:4628-4634 | The in-place corruptor followed by the in-place check, in each mode: acceptance, corruptions, tier, completeness, the resulting counts and flags, when the file is the original one byte for byte, and that no byte outside header word, tables and blocks, and no guest data, ever changes. |
| `SampleImage.SampleClean` | scripts/differential-fuzz.py:4628-4634 | A version 2 image of seven clusters is clean. |
| `SampleImage.SamplePlain` | src/operations/check/src/main.rs:2525-2697 | The check accepts and supports it. |
| `SampleImage.OtherClusterReported` | scripts/differential-fuzz.py:4742-4742 | On it, stale_copied reports cluster 5, which is in order, for cluster 6. |
| `SampleImage.ChangedYetGivenUp` | scripts/differential-fuzz.py:4717-4736 | Without its refcount block, refcount_too_high returns nothing and has changed the file. |
| `SampleImage.BackingFormatLost` | src/operations/check/src/main.rs:4096-4125 | With a backing-format extension behind the header, corrupting and repairing turns the extension's length from three to one. |
| `SampleImage.GivenBack` | scripts/differential-fuzz.py:4628-4634 | Without it, all three undone classes are undone byte for byte. |
| `DmgTable.ParseMishBlock` | src/crates/dmg/src/lib.rs:927-1000 | The entry loop appends exactly the kept chunks, or refuses. |
| `DmgTable.ParseResourceFork` | src/crates/dmg/src/lib.rs:826-893 | The walk over sized resources. |
| `DmgTable.SortedApart` | src/crates/dmg/src/lib.rs:1014-1029 | Checking neighbours is enough: any two chunks of a sorted table are apart. |
| `DmgTable.VerifySorted` | src/crates/dmg/src/lib.rs:1014-1029 | The loop decides sortedness, overflow included. |
| `DmgTable.ChunkLookup` | src/crates/dmg/src/lib.rs:492-549 | Binary search finds the one chunk that holds the sector, and otherwise a gap that ends at the next chunk or at the end of the disk. |
| `DmgPlist.GlibDecode` | src/crates/dmg/src/lib.rs:778-814 | The 32-bit register that is never cleared decodes every complete group of four symbols. |
| `DmgPlist.Alphabet` | src/crates/dmg/src/lib.rs:751-776 | The base64 alphabet, symbol by symbol, padding included. |
| `DmgPlist.ManEncoded` | scripts/differential-fuzz.py:180-206 | "Man" and its beginnings in base64. |
| `DmgPlist.DecodeEncode` | scripts/differential-fuzz.py:180-206 | Decoding standard base64 gives the bytes back, for every length. |
| `DmgPlist.DataTextDecodes` | scripts/differential-fuzz.py:180-206 | The wrapped and indented text of a block decodes to the block. |
| `DmgPlist.FindSubslice` | src/crates/dmg/src/lib.rs:729-745 | The search loop finds the first occurrence. |
| `DmgPlist.ParsePlistRegion` | src/crates/dmg/src/lib.rs:683-726 | The scan over data elements, missing closing tags included. |
| `DmgPlist.PlistWalked` | src/crates/dmg/src/lib.rs:683-726 | The scan sees exactly the data elements, in order, in any surrounding text without a data tag. |
| `DmgMarkup.PlainIsQuiet` | scripts/differential-fuzz.py:180-206 | Text in which no tag starts like the data tag is passed over by the scan. |
| `DmgMarkup.BuildPlist` | scripts/differential-fuzz.py:180-206 | The writer's loop: data elements with the literal markup between them. |
| `DmgMarkup.MarkupQuiet` | scripts/differential-fuzz.py:180-206 | The literal markup never looks like a data tag, whatever the number of entries. |
| `DmgPlist.DataTextSize` | scripts/differential-fuzz.py:180-206 | The length of a block's text: base64 groups, lines, indents and newlines. |
| `DmgMarkup.PlistSizeIs` | scripts/differential-fuzz.py:180-206 | The exact length of a written property list from the sizes of its blocks alone. |
| `DmgKoly.FindLast` | src/shared/src/format_detection.rs:452-462 | The scan for the last magic of a buffer. |
| `DmgKoly.FindFirst` | src/shared/src/format_detection.rs:332-358 | The scan for the first magic of a window. |
| `DmgKoly.Locate` | src/crates/dmg/src/lib.rs:568-623 | The reader's search over the last two sectors of a device: what it returns is the one place where the last magic leads to the first one in the window that ends there. |
| `DmgKoly.TrailerLocated` | src/shared/src/format_detection.rs:332-358 | The trailer of a file on a zero-padded device is located exactly if the last magic of the file leaves room for a trailer and none precedes the trailer in that window. |
| `DmgKoly.LoneTrailerLocated` | src/shared/src/format_detection.rs:332-358 | Without another magic in the last 1023 bytes the trailer is located, at every sector size. |
| `DmgKoly.TrailerMissed` | src/shared/src/format_detection.rs:332-358 | A file of 516 bytes with a second magic in front of its trailer: the trailer is not located. |
| `DmgImage.BuildMish` | scripts/differential-fuzz.py:156-177 | Header fields and entries, each at its place. |
| `DmgParse.BlockParsed` | src/crates/dmg/src/lib.rs:927-1000 | A built block parses to its chunks at absolute sectors and offsets, exactly if every compressed chunk can be staged. |
| `DmgParse.ForkWalked` | src/crates/dmg/src/lib.rs:870-892 | A resource fork yields the blocks put into it. |
| `DmgParse.ChunksJoin` | scripts/differential-fuzz.py:254-280 | Chunks of a later block carry on where the earlier ones stopped, so the table does not depend on the split. |
| `DmgParse.BlocksAssembled` | scripts/differential-fuzz.py:254-280 | All blocks together give one chunk for each specification, in order. |
| `DmgReader.DiskByteIs` | src/crates/dmg/src/lib.rs:492-549 | At most one chunk decides a byte of the disk. |
| `DmgReader.ReadRaw` | src/crates/qcow2/src/lib.rs:17936-17986 | A raw span is read in full exactly if it lies in the file, saturating offsets included. |
| `DmgReader.Reader.Stage` | src/crates/qcow2/src/lib.rs:17987-18075 | Staging in place: a cached key is taken at its word, anything else is inflated over the start of the buffer, and a failed inflation drops the key. |
| `DmgReader.Reader.ReadSpan` | src/crates/qcow2/src/lib.rs:17909-18106 | One span up to the end of its chunk, for every table the reader accepts and every state of the cache. |
| `DmgReader.Reader.Read` | src/crates/qcow2/src/lib.rs:17891-18106 | A range at any offset and length, for every table the reader accepts and every state of the cache. |
| `DmgReader.StageGood` | src/crates/qcow2/src/lib.rs:17987-18075 | From a good cache, staging succeeds exactly if the chunk inflates, and keeps the cache good. |
| `DmgReader.ReadRight` | src/crates/qcow2/src/lib.rs:17891-18106 | From a good cache a range is read exactly if each of its bytes can be, a gap is an error, and the cache stays good. |
| `DmgReader.SafeReads` | src/crates/qcow2/src/lib.rs:17891-18106 | If inflated chunks serve all chunks with their key, no history of reads and no initial buffer misleads a read. |
| `DmgReader.StaleCacheMisleads` | src/crates/qcow2/src/lib.rs:17995-18008 | If one does not, reading it first makes some one-byte read of the other wrong. |
| `DmgReader.ReadsAreRightExactly` | src/crates/qcow2/src/lib.rs:17995-18008 | For an image: reads are right after every history of reads and with every initial buffer exactly if no key stands for an empty cache and every chunk that inflates serves all chunks with its key. |
| `DmgReader.TableDecides` | src/crates/qcow2/src/lib.rs:17995-18008 | For a table: that holds of every image with it exactly if chunks that share a key are the same piece of the file. |
| `DmgReader.EmptyKeyMisleads` | src/crates/qcow2/src/lib.rs:17995-18008 | A chunk at file offset 2^63 - 1 has the key of an empty cache and is read as whatever the buffer holds. |
| `DmgReader.TellingIsSafe` | src/crates/qcow2/src/lib.rs:17995-18008 | A table whose keys tell its chunks apart is safe with every file and every codec. |
| `DmgReader.NotToldApart` | src/crates/qcow2/src/lib.rs:17995-18008 | A table whose keys do not is unsafe with some file and some codec. |
| `DmgReader.OneOffsetTwoSizes` | src/crates/qcow2/src/lib.rs:17995-18008 | A table the reader accepts, with two chunks at one offset, on which a read fails on an empty cache and gives the other chunk's data after it was read. |
| `DmgRoundTrip.BuildKoly` | scripts/differential-fuzz.py:209-227 | The trailer's fields. |
| `DmgRoundTrip.TrailerRead` | src/shared/src/format_detection.rs:476-512 | The reader gets every trailer field back. |
| `DmgRoundTrip.OpenedIsReadable` | src/crates/dmg/src/lib.rs:379-488 | Every table the parser accepts is sorted and has only chunks that fit the staging buffer. |
| `DmgRoundTrip.BuildEntries` | scripts/differential-fuzz.py:258-278 | The chunk loop of one block. |
| `DmgRoundTrip.BuildBlocks` | scripts/differential-fuzz.py:254-280 | The block loop: data fork, mish blocks and total. |
| `DmgRoundTrip.BuildFork` | scripts/differential-fuzz.py:285-296 | The resource fork holds the blocks one behind the other. |
| `DmgRoundTrip.TableTiles` | scripts/differential-fuzz.py:254-282 | The chunks tile the disk without gap or overlap, from zero to exactly the trailer's sector count. |
| `DmgRoundTrip.ByteRead` | src/crates/dmg/src/lib.rs:492-549 | Every byte read through the table is the byte of the payload. |
| `DmgRoundTrip.NothingPastTheEnd` | src/crates/dmg/src/lib.rs:492-549 | Nothing can be read past the sector count. |
| `DmgRoundTrip.CacheTells` | src/crates/qcow2/src/lib.rs:17987-18010 | The chunks of a built image can be told apart by their keys. |
| `DmgRoundTrip.BuildImage` | scripts/differential-fuzz.py:230-315 | The exact size of the file; it opens to its sector count and table exactly if every compressed chunk can be staged, by either table path, whenever the region computed from the chunk counts is within the reader's limit. |
| `DmgRoundTrip.RegionBounds` | scripts/differential-fuzz.py:180-206 | A table region takes at least 40 bytes for each chunk, and at most 271 bytes, 600 for each block and 60 for each chunk. |
| `DmgRoundTrip.BuilderFits` | scripts/differential-fuzz.py:230-250 | Eight chunks in at most two blocks, all that the fuzzer builds, take less than 2000 bytes by either path. |
| `DmgRoundTrip.FileFits` | scripts/differential-fuzz.py:230-315 | Chunks that can be staged, in a region within the limit, make a file of less than 63 bits. |
| `DmgRoundTrip.RoundTrip` | scripts/differential-fuzz.py:230-315 | Building and reading back gives every range of the disk, and fails outside it, for every list of chunks that can be staged, every split into blocks, both table paths, after any other reads and with anything in the reader's buffer. |
| `DmgDevice.OpenDevice` | src/crates/dmg/src/lib.rs:379-488 | Opening a device: the image that ends with the located trailer, or nothing; its table is sorted and can be staged. |
| `DmgDevice.DeviceRoundTrip` | scripts/differential-fuzz.py:230-315 | The same from a device of any sector size: the file is padded, searched for its trailer, opened and read, and the disk comes back whenever the search finds the trailer, which is exactly when it is unmistakable. |
| `AfSplit.XorCancels` | scripts/create-native-luks-testdata.py:98-102 | Exclusive or with the same byte twice is the identity. |
| `AfSplit.DiffuseInPlace` | scripts/create-native-luks-testdata.py:50-73 | The block loop and the partial block compute the diffuser, which keeps the length. |
| `AfSplit.DiffuseByte` | scripts/create-native-luks-testdata.py:50-73 | Every byte of the diffused data: the digest of its block under the block's number, high byte first. |
| `AfSplit.XorBit` | scripts/create-native-luks-testdata.py:98-102 | Every bit of an exclusive or is the parity of the two bits. |
| `AfSplit.Merge` | src/crates/luks/src/lib.rs:650-671 | The merge loop over stripes. |
| `AfSplit.ThreeStripes` | src/crates/luks/src/lib.rs:650-671 | The merge of three stripes, written out. |
| `AfSplit.Split` | scripts/create-native-luks-testdata.py:76-105 | The in-place split changes the last stripe only, to the one computed from the others. |
| `AfSplit.MergeOfSplit` | scripts/create-native-luks-testdata.py:252-260 | Merging a split gives the master key, for any hash, any random stripes, any key length and two stripes or more. |
| `AfSplit.SingleStripe` | scripts/create-native-luks-testdata.py:76-105 | With one stripe it does so exactly if the diffuser maps that stripe to zeros. |
| `AfSplit.SingleStripeLosesKey` | scripts/create-native-luks-testdata.py:76-105 | A one-byte key under a hash of ones does not come back. |
| `Luks.CipherArea` | scripts/create-native-luks-testdata.py:108-138 | Each whole sector goes through the cipher under its own number. |
| `Luks.TweakIs` | scripts/create-native-luks-testdata.py:108-121 | A tweak is sixteen bytes: the sector number, low byte first, then zeros. |
| `Luks.TweaksDiffer` | scripts/create-native-luks-testdata.py:108-121 | Different sectors have different tweaks. |
| `Luks.AreaRoundTrip` | scripts/create-native-luks-testdata.py:108-138 | Decrypting what was encrypted gives the whole sectors back. |
| `Luks.NothingLost` | scripts/create-native-luks-testdata.py:108-138 | It gives everything back exactly if the data is a whole number of sectors. |
| `LuksContainer.WriteNames` | scripts/create-native-luks-testdata.py:156-167 | Magic, version and the three null-padded names. |
| `LuksContainer.WriteNumbers` | scripts/create-native-luks-testdata.py:169-186 | Offsets, key size, digest, salt and iterations. |
| `LuksContainer.WriteSlots` | scripts/create-native-luks-testdata.py:188-200 | The active slot and the seven dead ones. |
| `LuksContainer.BuildContainer` | scripts/create-native-luks-testdata.py:141-238 | The whole container: header, encrypted key material and encrypted payload. |
| `LuksUnlock.HeaderRead` | src/crates/luks/src/lib.rs:112-220 | The reader parses every field of a built header, and uses its first slot. |
| `LuksUnlock.MaterialOpens` | src/crates/luks/src/lib.rs:994-1009 | Decrypting and merging the stored key material gives the master key. |
| `LuksUnlock.UnlocksBuilt` | src/crates/luks/src/lib.rs:973-1032 | The right passphrase recovers the master key of every built container, and the master key its content. |
| `LuksUnlock.AcceptedExactly` | src/crates/luks/src/lib.rs:973-1030 | On a built container a passphrase, right or wrong, is accepted exactly if the key it gives has the master key's digest; if no other key has that digest, only the master key is ever handed out. |
| `LuksUnlock.ForeignRefused` | src/crates/luks/src/lib.rs:973-992 | Only a version 1 header with the one cipher and mode and a key of 32 or 64 bytes is unlocked. |
| `LuksUnlock.UnlockContainer` | src/crates/luks/src/lib.rs:973-1032 | The unlocking steps in order, with every refusal. |
| `LuksUnlock.RoundTrip` | scripts/create-native-luks-testdata.py:141-263 | Building and unlocking, end to end. |
| `Decimals.DecimalRoundTrip` | scripts/differential-fuzz.py:2361-2369 | Decimal text parses back. |
| `BitmapPicker.NamesDiffer` | scripts/differential-fuzz.py:2361-2362 | Different counters give different names. |
| `BitmapPicker.Picker.Emit` | scripts/differential-fuzz.py:2395-2395 | Appending a command the shadow state accepts keeps plan and shadow state in step. |
| `BitmapPicker.Picker.Step` | scripts/differential-fuzz.py:2331-2395 | Any allowed choice is one the replay accepts. |
| `BitmapPicker.Pick` | scripts/differential-fuzz.py:2275-2401 | A plan of any length replays without a refusal into exactly the shadow state, never holds more than six bitmaps and never reuses a name. |
| `BenchSchedule.Schedule` | src/crates/bench/src/lib.rs:285-312 | The iterator yields the offsets of the wrap rule. |
| `BenchSchedule.LinearOffsets` | src/crates/bench/src/lib.rs:238-245 | Below the modulus every offset is the first plus a multiple of the step. |
| `BenchSchedule.NeverWraps` | src/crates/bench/src/lib.rs:238-245 | A schedule never wraps exactly if its last request starts below the modulus, for either rule. |
| `BenchSchedule.ScheduleWraps` | src/crates/bench/src/lib.rs:238-245 | Where it wraps: request k starts k steps behind the first, modulo the room behind a buffer, and ends inside the image. |
| `BenchSchedule.NoRoomNoOffset` | src/crates/bench/src/lib.rs:238-245 | Without room every request but the first starts at zero. |
| `BenchSchedule.NoStepIsBufsize` | src/crates/bench/src/lib.rs:238-245 | A step of zero is a step of the buffer size. |
| `BenchTouched.BoundHolds` | src/crates/bench/src/lib.rs:493-540 | No schedule, wrapping or not, touches more units of the image than the least of the three bounds, with saturating arithmetic. |
| `BenchTouched.WorstCaseHolds` | src/crates/bench/src/lib.rs:493-540 | So for data clusters and for L2 tables. |
| `BenchTouched.ExactWithoutGaps` | src/crates/bench/src/lib.rs:493-540 | Without gaps and wraps the bound is the number of units touched. |
| `BenchTouched.ExactWhenSpread` | src/crates/bench/src/lib.rs:493-540 | And so it is for requests far apart that straddle units at both ends. |
| `BenchTouched.TotalFlushesCounts` | src/crates/bench/src/lib.rs:409-435 | The closed form is the number of requests followed by a flush. |
| `BenchPicker.PickBufsize` | scripts/differential-fuzz.py:2568-2591 | Any choice leaves room for three more buffers in images of 2 KiB or more. |
| `BenchPicker.PickStep` | scripts/differential-fuzz.py:2594-2604 | Any choice is a valid step. |
| `BenchPicker.Pick` | scripts/differential-fuzz.py:3024-3064 | For every sequence of choices the parameters are valid, both wrap rules give the same linear offsets, every request ends before the image, and a flush interval is at least the depth. |
| `IssueFiler.Filer.constructor` | scripts/differential-fuzz.py:5199-5208 | An empty filer's books agree with an empty history. |
| `IssueFiler.Filer.Divergence` | scripts/differential-fuzz.py:5210-5229 | Filing is attempted exactly for a new shape while fewer than the limit have been seen, and the books keep agreeing with the history. |
| `IssueFiler.Filer.Finish` | scripts/differential-fuzz.py:5231-5255 | The comments due and the summary; shapes = filed + failed + suppressed, at most the limit are tried, and all of it if any is suppressed. |
| `IssueFiler.EachRecordedOnce` | scripts/differential-fuzz.py:5210-5217 | Every divergence is recorded under exactly one shape. |
| `IssueFiler.DistinctOnce` | scripts/differential-fuzz.py:5210-5217 | No shape is listed twice. |
| `IssueFiler.CommentCount` | scripts/differential-fuzz.py:5233-5242 | As many comments as filed shapes that repeated. |
| `IssueFiler.CommentPresent` | scripts/differential-fuzz.py:5233-5242 | Each of those has its comment. |
| `Shares.SharesSum` | tools/ci/compare-stestr-timing.py:172-186 | Shares add up to a hundred. |
| `Shares.ScaleFree` | tools/ci/compare-stestr-timing.py:172-186 | Shares do not change when every duration is multiplied by the same factor. |
| `Shares.ShareRatio` | tools/ci/compare-stestr-timing.py:172-186 | Shares are in the ratio of the durations. |
| `Shares.WholeShare` | tools/ci/compare-stestr-timing.py:172-186 | A test has all of the share exactly if it has all of the time. |
| `TimingCompare.DeltasSumToZero` | tools/ci/compare-stestr-timing.py:203-206 | Changes of share add up to zero. |
| `TimingCompare.WeightInRange` | tools/ci/compare-stestr-timing.py:209-212 | The weight moved is between 0 and 100. |
| `TimingCompare.MoveWithinWeight` | tools/ci/compare-stestr-timing.py:209-212 | No test moves more than the weight moved. |
| `TimingCompare.Triangle` | tools/ci/compare-stestr-timing.py:209-212 | The weight obeys the triangle inequality. |
| `TimingCompare.NoWeight` | tools/ci/compare-stestr-timing.py:209-212 | It is zero exactly if every share stays. |
| `TimingCompare.WeightIsLargestGain` | tools/ci/compare-stestr-timing.py:209-212 | The weight is the largest gain in share of any set of tests, and the tests that gained are such a set. |
| `TimingCompare.Thresholds` | tools/ci/compare-stestr-timing.py:189-236 | 2n equal tests, half of them slower and half faster by a fraction e: the weight is 50e, and the verdict material exactly from 2 points for one test or 10 in all. |
| `TimingCompare.Symmetric` | tools/ci/compare-stestr-timing.py:189-236 | Swapping the files changes neither weight nor verdict. |
| `TimingCompare.ScaleInvariant` | tools/ci/compare-stestr-timing.py:189-236 | Scaling either file by any positive factor changes neither weight nor verdict. |
| `TimingVerdict.SharesOf` | tools/ci/compare-stestr-timing.py:172-186 | Every test's share of the total in percent, or an error exactly if the total is not positive. |
| `TimingVerdict.Sort` | tools/ci/compare-stestr-timing.py:207-207 | The movers in order of size, then name, none lost or added. |
| `TimingVerdict.OrderOfRows` | tools/ci/compare-stestr-timing.py:207-207 | Larger moves first, equal ones in the order of a dictionary. |
| `TimingVerdict.Compare` | tools/ci/compare-stestr-timing.py:189-236 | The verdict is material exactly if a test moved two points or ten points moved in all; every test is listed once, in order. |
| `VhdSeed.SlotRead` | scripts/extract-fuzz-corpus.py:314-333 | A locator entry laid out as the format says, at 576 + 24 s, is read as laid out. |
| `VhdSeed.ForeignDisksRefused` | scripts/extract-fuzz-corpus.py:268-312 | Only a differencing disk gives a header, from where its footer says. |
| `VhdSeed.FindRegion` | scripts/extract-fuzz-corpus.py:314-333 | The populated slots, and the least region that spans their in-file data. |
| `VhdSeed.Relocate` | scripts/extract-fuzz-corpus.py:362-370 | Only the offset fields of moved slots change, to the new offsets. |
| `VhdSeed.ExtractSeed` | scripts/extract-fuzz-corpus.py:268-372 | Exactly which files give a seed, and its parts. |
| `VhdSeed.SameBytes` | scripts/extract-fuzz-corpus.py:268-372 | A moved slot names, through the window, exactly the bytes it named in the file; all other slots and fields are unchanged. |
| `VhdSeed.SameDistances` | scripts/extract-fuzz-corpus.py:362-370 | Moved slots keep their distances. |
| `VhdSeed.WhichMove` | scripts/extract-fuzz-corpus.py:342-370 | A slot moves exactly if its data is in the file and ends before the cut. |

## Left out

- The planners for create, resize, rebase, commit and amend, and growing the refcount structures.
- Compressed clusters and snapshots of an image in the corruptor's model: references are those of the header, the tables and the active L2 entries.
- FlagPass.ReconcileFile: needs an L1 table that overlaps neither header nor refcount table.
- RepairBytes.CorruptThenRepair: starts from images that the check accepts and supports: whole clusters everywhere, no snapshots, no compressed entries; that guest data stays also needs refcount blocks on cluster boundaries.
- RepairTiers.CheckAndRepair: needs a well-formed image with 16-bit counts, 8-byte L2 entries and its data in the file itself, and top-level tables that do not overlap; other widths are covered block by block in Repair, extended entries in CopiedFlags.ReconcileTree.
- CheckSafety.AllTierSafe: needs whole clusters for refcount table, L1 table and refcount blocks, top-level tables that do not overlap, and a refcount table that fills its clusters.
- CheckSafety.LeaksTierSafe: needs pointers that lie in the file; what the leaks tier makes of clusters behind other pointers is not stated.
- FreeCounts.FreeIsZeroCount: needs a refcount table that fills its clusters, with block offsets in bits 9 to 55, which is all the walk reads of them.
- The walk of an image with more clusters than the bitmap has bits, on which nothing is repaired, and of one whose last sector is incomplete.
- Read and write errors of the device during a check, and the report's fragmentation and end-offset figures.
- CorruptionClasses.CorruptImage: needs a well-formed image; on a file too short for a table it reads, the original raises an error.
- Which of its refusals the DMG reader reports.
- DmgRoundTrip.TrailerRead: starts from the trailer's place; DmgDevice.DeviceRoundTrip includes the search for it.
- DmgDevice.DeviceRoundTrip: does not say that a built file holds no second magic near its end: base64 text or a size field can spell one.
- The DMG reader's staging buffer is not shared with other formats.
- LUKS version 2, and key material of no stripes, on which the original panics; the unlocker's model refuses it.
- AES, SHA-256, PBKDF2, Argon2, zlib and the protobuf codec: only their laws are used.
- Host files that fail at some times only, and writes that fail half way: which requests a host file refuses is fixed.
- Boot.PowerOn: the messages sent while devices are probed, and the halts when the first input is missing.
- Interrupt status, feature bits and probing messages of the virtio devices, and memory fences: steps take effect one after another, and serving a request is one step.
- Driver.VirtioBlock.DoRequest: a time-out ends the guarantee, because a late answer may arrive during the next request.
- Handshake.FreshSystemIsQuiet: that guest memory starts zeroed is a hypothesis.
- Panics on 32-bit or 64-bit overflow of sizes, indices and shift counts.
- NormalizeTable.CanonicalForm: needs tables without dates or padding on the header fields that decide, because patching those changes where the table is found.
- The text of issue comments, bench argument vectors and timing reports, and floating-point rounding.
- Subprocesses, file handling, logging, the fuzz targets' input decoding, and the text-scanning guards of the build.
