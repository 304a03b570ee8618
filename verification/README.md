# Guest-visible protocols of a virtual machine monitor, modelled and proved in Dafny

The project models the parts of SiliconV that a guest can see and that have to agree with something else: a
printer with its parser, a device with its driver, a cache with the state it caches, a loader with the MMU that
runs what it loaded. Each module follows one source file. Code that changes things step by step is a class whose
methods are proved equal to functions on values (`Blit` for byte memory, `Step` and `Run` for controllers); the
laws are lemmas about those functions, for every input, every run or every reachable state.

- **Device trees** (`DeviceTree`, `DeviceTreeItems`, `DtbWriter`, `DtbGenerate`, `DtbPlatform`, `AppleDt`, `AppleDtNode`): the flattened format of
  the Devicetree Specification v0.4, sections 5.2 to 5.5. Reading what the writer emitted gives the tree back,
  `dtb_generate` followed by the loader is the identity on the platform tree, the reader stays in its block and
  terminates on every block, and the Apple filter keeps exactly the supported nodes.
- **Virtqueues** (`Virtqueue`, `VirtioMmio`, `VirtioBlk`, `VirtioNet`): driver and device interleave over shared
  memory with 16-bit indices and refine two unbounded queues; a device notification is a legal run of the queue's
  steps, so heads are served once and in posting order over any number of notifications; the cached ring pointers
  agree with the address registers; one block notification is the fold of its requests; gathering undoes scattering.
- **NVMe** (`NvmeStore`, `NvmeWire`, `NvmeDrain`, `NvmeTidy`, `NvmeController`, `NvmeHistory`, `NvmeDevice`): ring draining,
  completion posting, the enable/disable state machine, when DMA stays in guest RAM, and a history of reads and writes
  that explains the disk over any run.
- **Interrupt controllers** (`Gic`, `GicRegisters`, `Aic`, `AicBalance`, `AicDevice`): delivery order and register views of the
  GICv3 distributor (Arm IHI 0069), and in Apple's controller two balances over whole runs: raises against
  acknowledges, and acknowledges against ends of interrupt.
- **Kernel loading** (`MachO`, `MachOFormat`, `MachOLoader`, `SoftMmu`, `XnuBoot`): the parser reads back every image as it was
  written, and the loader's placement and the MMU's
  translation compose to the identity on the kernel image.
- **Bit-level arithmetic** (`LogicalImm`, `Dart`): the A64 bitmask immediates (pseudocode function `DecodeBitMasks`
  of Arm DDI 0487) and superpage splitting in the DART page walk.

Functions that read a memory format are tied to an encoding of it by the other side, with byte offsets and register
numbers written out: a driver's descriptors, requests, commands and register writes, a linker's load commands, a device's
completions.

`Bytes`, `Bits`, `ModArith`, `Options` and `DiskFile` hold the machine integers, encodings, bit operations, ring
arithmetic and the C stdio view of a disk image that the others share.

Several documented or natural-looking properties do not hold of the code as it stands; the model keeps the code and
states exactly when they do hold:

- `DeviceTree.PropSlipsExactly`: a property whose 32-bit length wraps passes the reader's bounds check;
  `DeviceTree.FaultExample` is a block that does it, and `DeviceTree.NoFault` the runs that never do.
- `VirtioMmio.CachedPointersAgree`: with guest RAM at address 0 a reset queue looks configured.
- `VirtioMmio.UsedTiedExactly`: a ring address that fails the caching test leaves the previous pointer in place.
- `VirtioNet.RoomExactly`: a buffer of almost 4 GiB passes the 32-bit room test of the packet buffer.
- `VirtioBlk.AnsweredExactly`: the status byte is written exactly when the chain has a data buffer, so a flush in two
  descriptors is never answered.
- `NvmeStore.CountsBlocksExactly`: the largest block count field means no blocks.
- `NvmeStore.CountAgreesExactly`: creating a submission queue twice counts it twice.
- `NvmeStore.StraysExactly`: a data pointer or ring entry whose end wraps past 2^64 passes the DMA callbacks' bounds
  test; `NvmeTidy.StrayExample` is one, and `NvmeTidy.TidyHolds` says what a driver checks to rule it out.
- `NvmeDrain.HaltsExactly`: a doorbell beyond its ring is chased forever unless DMA refuses some entry of the ring.
- `NvmeWire.DriverCreatesSq`: a submission queue is created when completion queue 1 is valid, whichever queue it names.
- `NvmeController.HeadDoorbellMoves`: a completion queue's head doorbell moves the controller's own posting position.
- `AicBalance.NestedAckLosesEoi`: a CPU that acknowledges a second interrupt can no longer end the first; `AckThenEoi` says
  what keeps it able to.
- `AicBalance.Balance`: acknowledges are matched by ends of interrupt exactly when none came while the interrupt ran.
- `Aic.BanksReachExactly`: only the first 17 MASK_SET words of the interrupt controller reach an interrupt; the
  mask-clear, software-set and software-clear registers select none.
- `GicRegisters.MaskIsTruncationExactly`: bit 31 of a written register is taken from all higher bits.
- `SoftMmu.FetchStrayExactly`: an untranslated fetch just below RAM passes the bounds check.
- `XnuBoot.EntryTranslatesExactly`: the physical entry point is the translation of the virtual one.
- `Gic.Distributor.Drain`: an eligible interrupt 1023 ends the drain early.

Where comments or standards and the code differ, the model follows the code: the DART comment gives level 0 the
address bits 31 to 28, the code takes eight bits from bit 28 up; the AIC header calls target 0 broadcast, the code
treats it as CPU 0 and only targets beyond the last CPU as unspecific; the NVMe completion queue of a new submission
queue is read from the low half of CDW11, and the phase bit of a completion is always set.

## Model

| member | source | states |
|---|---|---|
| DeviceTree.SetProp | core/boot/apple/dtre.c:73-103 | the named property takes the value, all others stay, and at most one is appended |
| DeviceTree.ParseNode | core/boot/apple/dtre.c:585-678 | on every block under 2^31 bytes the reader terminates and its cursor neither moves back nor passes the block's end |
| DeviceTree.ParseItems | core/boot/apple/dtre.c:616-677 | the same for the loop over properties and children, malformed children included |
| DeviceTree.PropSlipsExactly | core/boot/apple/dtre.c:642-646 | a value that leaves the block passes the 32-bit check exactly when its padded length wraps |
| DeviceTree.NoFault | core/boot/apple/dtre.c:585-678 | with no PROP token at an aligned position whose padded value would end past 2^32, no run reads a value outside the block |
| DeviceTree.NoFaultItems | core/boot/apple/dtre.c:616-677 | the same for the loop |
| DeviceTree.StaysAligned | core/boot/apple/dtre.c:585-678 | the cursor stays a multiple of four, malformed and wrapping items included |
| DeviceTree.FaultExample | core/boot/apple/dtre.c:642-647 | a block of 20 bytes on which the reader copies 2^32 - 1 bytes |
| DeviceTree.ParseHeader | core/boot/apple/dtre.c:591-613 | token and name of an emitted node read back, cursor past the padding |
| DeviceTree.ParseProp | core/boot/apple/dtre.c:619-649 | an emitted property reads back with its name from the strings block |
| DeviceTree.ParseProps | core/boot/apple/dtre.c:616-650 | a run of emitted properties with distinct names reads back in order |
| DeviceTree.ParseForest | core/boot/apple/dtre.c:651-657 | a run of emitted children reads back in order |
| DeviceTree.ParseEncoded | core/memory/dtb.c:108-135 | reading an emitted node gives the same tree and stops exactly past its END_NODE |
| DeviceTreeItems.NodeReads | core/boot/apple/dtre.c:585-678 | a node spelled out as properties, children and NOP tokens in any order reads as the tree it describes; NOPs change nothing |
| DeviceTreeItems.NopPassed | core/boot/apple/dtre.c:663-664 | a NOP token is passed over |
| DeviceTreeItems.ItemsKeep | core/boot/apple/dtre.c:616-677 | on every block, a node that is being read is never given up and never loses what it had, unless a property wraps |
| DeviceTreeItems.RefusedExactly | core/boot/apple/dtre.c:585-613 | a node is refused exactly when its token is not BEGIN_NODE or its name leaves the block |
| DeviceTreeItems.OthersStop | core/boot/apple/dtre.c:616-677 | any other token, and the end of the block, ends the node where it stands |
| DeviceTreeItems.CutPropStops | core/boot/apple/dtre.c:620-646 | a property that does not fit ends the node with what was read before it |
| DeviceTreeItems.LoadRefusesExactly | core/boot/apple/dtre.c:681-729 | a blob is refused exactly for its size, magic, offsets or root node, when no offset sum wraps |
| DtbWriter.Writer.U32 | core/memory/dtb.c:75-81 | stores four big-endian bytes at the cursor and nothing else |
| DtbWriter.Writer.Align4 | core/memory/dtb.c:67-72 | zero bytes up to the next multiple of four |
| DtbWriter.Writer.Copy | core/memory/dtb.c:84-96 | stores the bytes at the cursor and nothing else |
| DtbWriter.Writer.AddString | core/memory/dtb.c:99-106 | appends the name to the strings block and returns its offset |
| DtbWriter.Writer.BeginNode | core/memory/dtb.c:109-115 | token, name and padding |
| DtbWriter.Writer.EndNode | core/memory/dtb.c:118-122 | token |
| DtbWriter.Writer.PutProp | core/memory/dtb.c:125-135 | the property's encoding in the structure block, its name in the strings block, all else untouched |
| DtbWriter.Writer.PutNode | core/memory/dtb.c:109-135 | a whole node: its encoding at the cursor and its names in the strings block |
| DtbGenerate.ConfigTreeGood | core/memory/dtb.c:220-330 | the platform's tree has NUL-free names and distinct property names in every node |
| DtbGenerate.HeaderFields | core/memory/dtb.c:26-37 | the header's fields are where the loader looks for them |
| DtbGenerate.StandardFields | core/memory/dtb.c:26-37 | total size, reservation block, versions and boot CPU are where the format puts them |
| DtbGenerate.LoadLaidOut | core/boot/apple/dtre.c:681-729 | a blob with header, structure and strings in place loads as its tree |
| DtbGenerate.Assembled | core/memory/dtb.c:193-350 | the finished buffer, cut anywhere past its strings, loads as the tree |
| DtbGenerate.Assemble | core/memory/dtb.c:193-350 | writing any tree that fits gives a conforming version-17 blob, and loading it gives the tree back |
| DtbGenerate.Generate | core/memory/dtb.c:193-350 | dtb_generate refuses a small buffer, and otherwise its blob conforms to version 17 and loads as the described platform |
| DtbPlatform.PlatformTold | core/memory/dtb.c:220-330 | the tree tells where memory is, the boot arguments, one node per CPU from 0 up, and each virtio device with its interrupt |
| DtbPlatform.HexSpells | core/memory/dtb.c:238-240 | unit addresses in node names are the numbers they spell |
| DtbPlatform.DecSpells | core/memory/dtb.c:252-253 | CPU numbers in node names are the numbers they spell |
| AppleDt.FindProp | core/boot/apple/dtre.c:166-175 | finds a property of that name exactly when there is one |
| AppleDt.SupportedExactly | core/boot/apple/dtre.c:214-229 | a node is kept exactly when it has no compatible property or the first string of its first one is a + k + b for a listed driver k |
| AppleDt.WithoutExact | core/boot/apple/dtre.c:232-255 | exactly the blacklisted properties go |
| AppleDt.StripKeepsSupport | core/boot/apple/dtre.c:215-255 | stripping never changes whether a node is kept |
| AppleDt.FilterExact | core/boot/apple/dtre.c:257-292 | the filtered tree lists exactly the nodes that pass with all their non-root ancestors, in order, stripped |
| AppleDt.FilterForestExact | core/boot/apple/dtre.c:268-289 | the same for a list of siblings |
| AppleDt.ListInjective | core/boot/apple/dtre.c:257-292 | the listing determines the tree, so the previous rows fix the filter |
| AppleDt.FilterIdempotent | core/boot/apple/dtre.c:257-292 | filtering twice is filtering once |
| AppleDtNode.SetPropAt | core/boot/apple/dtre.c:78-91 | an update touches the first property of that name and keeps the order |
| AppleDtNode.DtNode.SetProp | core/boot/apple/dtre.c:73-103 | the property list becomes the specified one |
| AppleDtNode.DtNode.AddChild | core/boot/apple/dtre.c:122-133 | the child becomes the last one, its own subtree unchanged |
| AppleDtNode.DtNode.ReadItems | core/boot/apple/dtre.c:616-677 | the loop builds the node that the specified reader builds, with the same cursor |
| AppleDtNode.DtNode.Parse | core/boot/apple/dtre.c:585-678 | the recursive reader builds the specified tree, with the same cursor and the same failures |
| AppleDtNode.DtNode.Load | core/boot/apple/dtre.c:681-729 | apple_dt_load returns a tree exactly when the specification does, and that tree |
| AppleDtNode.DtNode.Unlink | core/boot/apple/dtre.c:236-252 | removes every property of one name, keeping order |
| AppleDtNode.DtNode.RemoveUnsupportedProps | core/boot/apple/dtre.c:232-255 | removes exactly the blacklisted properties |
| AppleDtNode.DtNode.ShouldKeep | core/boot/apple/dtre.c:215-229 | answers whether the node is supported |
| AppleDtNode.DtNode.UnlinkChild | core/boot/apple/dtre.c:276-285 | unlinking one child keeps the others and their order |
| AppleDtNode.DtNode.Filter | core/boot/apple/dtre.c:257-292 | the linked tree becomes the filtered tree |
| Virtqueue.SlotsAgreeExactly | devices/transport/virtio_mmio.c:70-86 | 16-bit indices select the slots of unbounded counters exactly when the size divides 2^16 |
| Virtqueue.DescReads | devices/transport/virtio_mmio.h:60-65 | a descriptor that the driver laid out field by field is the one that virtio_get_desc returns, and continues exactly when bit 0 of its flags is set |
| Virtqueue.OffersExactly | devices/transport/virtio_mmio.c:56-75 | a head is handed out exactly when the queue is ready, its ring is known and bytes 2 and 3 of the ring differ from the cursor; it is the entry the cursor selects |
| Virtqueue.StepPost | devices/transport/virtio_mmio.c:56-75 | a driver's post keeps the invariant and appends to the posted heads |
| Virtqueue.StepTake | devices/transport/virtio_mmio.c:56-75 | virtio_get_avail hands out the oldest head not yet taken and keeps the invariant |
| Virtqueue.StepFinish | devices/transport/virtio_mmio.c:77-96 | virtio_put_used appends the completion and keeps the invariant |
| Virtqueue.StepReap | devices/transport/virtio_mmio.c:77-96 | the driver reads the oldest completion not yet reaped |
| Virtqueue.RunInv | devices/transport/virtio_mmio.c:56-96 | the invariant holds after every legal interleaving |
| Virtqueue.Refinement | devices/transport/virtio_mmio.c:56-96 | over every interleaving and any number of wrap-arounds heads and completions arrive once and in order, and each side sees work exactly when there is some |
| Virtqueue.FinishIsSafe | devices/transport/virtio_mmio.c:85-92 | a completion never overwrites an element that the driver has not read, nor the used index, nor the available ring |
| Virtqueue.ListsNext | devices/transport/virtio_mmio.c:77-96 | publishing one more element keeps the earlier ones of the round |
| Virtqueue.AvailOffers | devices/transport/virtio_mmio.c:56-75 | the pending heads come out one by one, then nothing |
| Virtqueue.ServiceIsRun | devices/transport/virtio_mmio.c:56-96 | any number of rounds of take, fill the buffers and finish is a legal run of the queue's steps |
| Virtqueue.ServiceInOrder | devices/transport/virtio_mmio.c:56-96 | such a notification keeps the queue invariant and completes heads in the order taken |
| Virtqueue.PlayInOrder | devices/transport/virtio_mmio.c:56-96 | the same over any interleaving of notifications with the driver's steps, wrap-arounds included |
| Virtqueue.ServedInPostingOrder | devices/transport/virtio_mmio.c:56-96 | from the start, the completions are the posted heads, each once and in posting order |
| VirtioMmio.WriteAgrees | devices/transport/virtio_mmio.c:200-281 | every register write keeps cached pointers equal to the addresses' RAM offsets |
| VirtioMmio.CachedPointersAgree | devices/transport/virtio_mmio.c:200-281 | that holds after every sequence of writes exactly when RAM does not start at 0 or is empty |
| VirtioMmio.UsedTiedExactly | devices/transport/virtio_mmio.c:262-281 | over every sequence of writes the cached used pointer is the offset of the used address exactly when no address since the last reset passed the caching test or the present one does |
| VirtioMmio.HalvesCommute | devices/transport/virtio_mmio.c:227-230 | the halves of an address may be written in either order |
| VirtioMmio.SetupReaches | devices/transport/virtio_mmio.c:176-281 | the nine register writes that set a queue up leave it with that size, those three addresses and their RAM offsets, ready, and no other queue changed |
| VirtioMmio.PassesExactly | devices/transport/virtio_mmio.c:249-277 | a ring is cached exactly when its first four bytes lie in RAM or wrap past 2^64 to an end not above RAM's |
| VirtioMmio.PointersMove | devices/transport/virtio_mmio.c:224-281 | a cached pointer moves only to an address that passes its test, the address register always |
| VirtioMmio.ReadyBit | devices/transport/virtio_mmio.c:185-187 | bit 0 of QueueReady decides |
| VirtioMmio.VirtioDevice.MmioWrite | devices/transport/virtio_mmio.c:154-281 | the queue registers change as specified and the pointers keep agreeing |
| VirtioMmio.VirtioDevice.GetDesc | devices/transport/virtio_mmio.c:47-54 | inside the table the descriptor that the driver laid out there, whatever it is, and none outside it |
| VirtioMmio.VirtioDevice.GetAvail | devices/transport/virtio_mmio.c:56-75 | the next head and the moved cursor |
| VirtioMmio.VirtioDevice.PutUsed | devices/transport/virtio_mmio.c:77-96 | element and index stored, the rest of memory untouched |
| DiskFile.FileRead | devices/virtio-blk/virtio_blk.c:101-107 | a read is whole exactly when it lies inside the image |
| DiskFile.ReadsImage | devices/virtio-blk/virtio_blk.c:101-107 | a read delivers the image's bytes from its offset on, as many as there are |
| DiskFile.WriteGrows | devices/virtio-blk/virtio_blk.c:118-128 | a write past the end grows the image to its own end and leaves zeros in the gap |
| DiskFile.ReadBack | devices/virtio-blk/virtio_blk.c:101-128 | reading where a write went, of any length and past the end too, returns what was written |
| DiskFile.WriteKeeps | devices/virtio-blk/virtio_blk.c:118-128 | a write changes no byte outside its range and never shrinks the image |
| VirtioBlk.WriteThenRead | devices/virtio-blk/virtio_blk.c:91-133 | a served write is what a later read of the same sectors delivers, whatever requests that leave those sectors alone come between, and changes no other byte of the disk |
| VirtioBlk.DiskKept | devices/virtio-blk/virtio_blk.c:91-133 | a batch keeps every part of the disk that none of its requests writes |
| VirtioBlk.ReadOnlyKeepsDisk | devices/virtio-blk/virtio_blk.c:118-121 | a read-only image survives every batch |
| VirtioBlk.OrderReads | devices/virtio-blk/virtio_blk.c:66-85 | a request that a driver laid out in three descriptors reads as it was ordered; in a chain without data the status byte is taken for the data |
| VirtioBlk.LoneHeaderReads | devices/virtio-blk/virtio_blk.c:72-84 | a header that does not continue is a request without data and status byte |
| VirtioBlk.StatusTells | devices/virtio-blk/virtio_blk.c:87-154 | the status byte is 0 exactly when the request was carried out whole, 1 for any other read or write, 2 for an unknown kind; the reported length counts header, bytes moved and status |
| VirtioBlk.DataMoves | devices/virtio-blk/virtio_blk.c:88-133 | a whole read leaves the disk's bytes in the buffer, a whole write the buffer's on the disk |
| VirtioBlk.AnsweredExactly | devices/virtio-blk/virtio_blk.c:72-84 | the status byte is written exactly when the order has a data buffer; a two-descriptor flush leaves memory as it was |
| VirtioBlk.AfterUndisturbed | devices/virtio-blk/virtio_blk.c:65-155 | the abstract batch leaves rings, table and headers as they were |
| VirtioBlk.Turn | devices/virtio-blk/virtio_blk.c:65-155 | each turn serves the next request and publishes its head |
| VirtioBlk.BlkDevice.ReadChain | devices/virtio-blk/virtio_blk.c:66-85 | the request that the chain describes, as the driver laid it out |
| VirtioBlk.BlkDevice.Move | devices/virtio-blk/virtio_blk.c:87-144 | data, status and length of one request |
| VirtioBlk.BlkDevice.ServeOne | devices/virtio-blk/virtio_blk.c:87-154 | one request with its status byte and reported length |
| VirtioBlk.BlkDevice.ProcessRequest | devices/virtio-blk/virtio_blk.c:60-159 | the queue ends empty, disk and memory are the fold of the requests, and one used element per head follows in the same order |
| VirtioBlk.NotificationServes | devices/virtio-blk/virtio_blk.c:60-159 | the batch is a notification of the queue: a legal run of its steps that serves every posted head in order and leaves the same memory |
| VirtioNet.FillThenJoin | devices/virtio-net/virtio_net.c:144-169 | what is filled into disjoint buffers reads back joined |
| VirtioNet.ChainedReads | devices/virtio-net/virtio_net.c:63-100 | the device walks the buffers that the driver chained, in order and no others |
| VirtioNet.GatherJoins | devices/virtio-net/virtio_net.c:63-90 | what goes out is the chain's bytes after the 12-byte header exactly when those are at most 65536 |
| VirtioNet.ScatterThenGather | devices/virtio-net/virtio_net.c:134-172 | a received packet stands in the chain behind 12 bytes of header as the longest prefix that fits, gathers again, and is reported with 12 plus that prefix's length |
| VirtioNet.NetDevice.GatherChain | devices/virtio-net/virtio_net.c:63-100 | the payload of a chain and its total length modulo 2^32, for the buffers that the driver chained |
| VirtioNet.RoomExactly | devices/virtio-net/virtio_net.c:79-90 | the 32-bit room test is the test it is meant to be exactly when its sum does not wrap |
| VirtioNet.NetDevice.ScatterChain | devices/virtio-net/virtio_net.c:134-172 | the packet spread over the chain behind a header for one buffer |
| VirtioNet.OutboxTurn | devices/virtio-net/virtio_net.c:59-108 | each turn sends the next packet and publishes its head |
| VirtioNet.NetDevice.ProcessTx | devices/virtio-net/virtio_net.c:54-111 | every pending packet goes out once and in order, empty ones skipped, every head comes back |
| VirtioNet.NotificationServes | devices/virtio-net/virtio_net.c:54-111 | the transmit loop is a notification of the queue: a legal run of its steps that serves every posted head in order |
| VirtioNet.NetDevice.PollRx | devices/virtio-net/virtio_net.c:115-176 | a packet fills the first pending chain, or nothing changes |
| NvmeStore.CountsBlocksExactly | devices/apple-nvme/apple_nvme.c:437 | the count is the zero-based field plus one exactly when the field is not 0xFFFF |
| NvmeStore.StraysExactly | core/vm/machine_apple.c:57-83 | a range outside RAM passes the callbacks' 64-bit test exactly when its end wraps to an address not above RAM's end |
| NvmeStore.SucceedsExactly | devices/apple-nvme/apple_nvme.c:445-525 | despite the wrapping block sum a transfer succeeds exactly when it lies in the namespace, is small enough, has a buffer that passes the callbacks' test and, for writes, a writable image; and it leaves RAM exactly when that buffer strays |
| NvmeStore.WriteStores | devices/apple-nvme/apple_nvme.c:492-519 | a successful write from a buffer that does not stray stores exactly its blocks, from guest memory |
| NvmeStore.ReadDelivers | devices/apple-nvme/apple_nvme.c:470-491 | a successful read into a buffer that does not stray delivers exactly the disk's bytes, and changes no disk byte and no other memory |
| NvmeStore.ExecKeepsPairZero | devices/apple-nvme/apple_nvme.c:244-383 | no command makes I/O queue pair 0 valid |
| NvmeStore.CountAgreesExactly | devices/apple-nvme/apple_nvme.c:323-366 | num_io_queues stays the number of valid submission queues exactly when the command neither creates a valid queue again nor deletes an invalid one while others are valid |
| NvmeStore.Exec | devices/apple-nvme/apple_nvme.c:555-602 | a completion carries its command's identifier; I/O commands leave the queue table alone and admin commands the disk |
| NvmeWire.CmdReads | devices/apple-nvme/apple_nvme.h:183-195 | a command filed field by field in a 64-byte entry is the command that the controller reads |
| NvmeWire.WaitingFiled | devices/apple-nvme/apple_nvme.c:547-605 | the commands between head and tail are those that the driver filed in consecutive entries |
| NvmeWire.CqeTells | devices/apple-nvme/apple_nvme.h:170-177 | a posted entry holds DW0, queue identifier, command identifier, a set phase bit and the status at the standard's offsets |
| NvmeWire.DriverReads | devices/apple-nvme/apple_nvme.c:430-525 | a driver's read of n blocks leaves exactly those blocks' bytes in its buffer and nothing else changed, and reports success |
| NvmeWire.DriverWrites | devices/apple-nvme/apple_nvme.c:430-525 | a driver's write stores exactly its blocks; on a read-only image nothing changes and an invalid opcode is reported |
| NvmeWire.StatusTells | devices/apple-nvme/apple_nvme.c:454-519 | which status a transfer inside the namespace reports |
| NvmeWire.RefusalTells | devices/apple-nvme/apple_nvme.c:445-458 | when a transfer is refused for its namespace or its block range |
| NvmeWire.DriverFlushes | devices/apple-nvme/apple_nvme.c:520-525 | a flush changes nothing and succeeds exactly under the namespace and range tests |
| NvmeWire.DriverCreatesCq | devices/apple-nvme/apple_nvme.c:244-277 | a completion queue comes up with the identifier, size and base that the driver filed, others untouched |
| NvmeWire.DriverCreatesSq | devices/apple-nvme/apple_nvme.c:292-332 | a submission queue comes up as filed exactly when completion queue 1 is valid, whichever the driver named |
| NvmeWire.DriverDeletes | devices/apple-nvme/apple_nvme.c:347-371 | exactly the named queue becomes invalid |
| NvmeWire.DriverIdentifies | devices/apple-nvme/apple_nvme.c:186-228 | the asked page stands in the driver's buffer, or the refusal is reported |
| NvmeWire.DriverAsksFeature | devices/apple-nvme/apple_nvme.c:386-428 | four queues of each kind and the write cache, other features refused, nothing changed |
| NvmeWire.DriverAborts | devices/apple-nvme/apple_nvme.c:555-602 | Abort always reports an aborted command; unknown opcodes get no completion |
| NvmeDrain.LeftNext | devices/apple-nvme/apple_nvme.c:604 | each turn brings the head one entry closer to a tail in the ring |
| NvmeDrain.HaltsExactly | devices/apple-nvme/apple_nvme.c:547-605 | the loop comes to a stop exactly when the tail lies in the ring or DMA does not deliver some entry of it |
| NvmeDrain.TurnsAreLeft | devices/apple-nvme/apple_nvme.c:547-605 | it then takes at most (tail - head) mod (size + 1) turns, and exactly that many when every entry is delivered |
| NvmeDrain.ChasedForever | devices/apple-nvme/apple_nvme.c:623-645 | with the whole ring in RAM the loop stops exactly when the tail lies in the ring |
| NvmeDrain.OutcomeCids | devices/apple-nvme/apple_nvme.c:555-602 | completions carry the identifiers of exactly the completing commands, in order |
| NvmeDrain.ExecKeeps | devices/apple-nvme/apple_nvme.c:430-525 | a command changes no memory outside its buffer |
| NvmeDrain.ExecIgnores | devices/apple-nvme/apple_nvme.c:430-525 | a command's outcome does not depend on memory outside its buffer |
| NvmeDrain.PostMirrors | devices/apple-nvme/apple_nvme.c:527-535 | a completion lands in the ring's next slot and in no other |
| NvmeDrain.Simulates | devices/apple-nvme/apple_nvme.c:547-605 | the loop on real memory against executing the waiting commands on abstract memory |
| NvmeDrain.Drains | devices/apple-nvme/apple_nvme.c:539-648 | the loop ends at the tail; disk, queues and memory are those of the commands in order; completions stand in consecutive slots |
| NvmeWire.DrainTells | devices/apple-nvme/apple_nvme.c:527-605 | after a drained doorbell the driver reads at slot (head + i) mod (size + 1) the identifier of the i-th completing command, its queue, DW0, the phase bit and its status |
| NvmeTidy.LowKeeps | core/vm/machine_apple.c:57-83 | no entry of a ring that ends below 2^64 strays |
| NvmeTidy.TidyHolds | devices/apple-nvme/apple_nvme.c:539-648 | a doorbell whose rings end below 2^64, whose waiting data pointers do not stray and overlap no entry still to be fetched never copies outside guest RAM |
| NvmeTidy.StrayExample | core/vm/machine_apple.c:57-83 | two blocks at 0xFFFFFFFFFFFFFE00 pass the test of a 4 KiB RAM at 0x40000000 |
| NvmeTidy.DrainHolds | devices/apple-nvme/apple_nvme.c:539-648 | a doorbell that drains its ring leaves RAM only if one of its commands' data pointers strays |
| NvmeController.CcKeepsLifecycle | devices/apple-nvme/apple_nvme.c:819-878 | configuration writes keep EN, the flags, RDY and the queues in step |
| NvmeController.BringupReaches | devices/apple-nvme/apple_nvme.c:819-909 | whatever the registers held, after AQA, ASQ, ACQ and CC are written the admin pair has those sizes and addresses, empty and valid |
| NvmeController.CcTransitions | devices/apple-nvme/apple_nvme.c:819-868 | CC acts only when its enable bit changes; going down makes every queue invalid and keeps where it is |
| NvmeController.ShutdownBits | devices/apple-nvme/apple_nvme.c:870-876 | bits 14 and 15 of CC turn up in bits 2 and 3 of CSTS, all other bits stay |
| NvmeController.DoorbellsDecode | devices/apple-nvme/apple_nvme.c:916-919 | queue q's tail doorbell is at 0x1000 + 8q, its completion queue's four bytes on |
| NvmeController.TailDoorbellStarts | devices/apple-nvme/apple_nvme.c:921-936 | a tail doorbell works only for a valid pair of an enabled controller |
| NvmeController.HeadDoorbellMoves | devices/apple-nvme/apple_nvme.c:921-936 | a head doorbell sets the position of the next completion and nothing else |
| NvmeController.LoopKeeps | devices/apple-nvme/apple_nvme.c:539-648 | the loops keep pair 0 invalid and every head inside its ring |
| NvmeController.WriteKeepsLifecycle | devices/apple-nvme/apple_nvme.c:811-939 | every register write keeps the lifecycle facts |
| NvmeController.LifecycleAlways | devices/apple-nvme/apple_nvme.c:811-939 | in every reachable state EN, enabled, ready, RDY and admin queue validity agree, a disabled controller has no I/O queue, and pair 0 is never valid |
| NvmeHistory.CommandExplained | devices/apple-nvme/apple_nvme.c:430-536 | each command whose copy stays in RAM is explained by the read or write it adds, and none touches a read-only disk |
| NvmeHistory.LoopExplained | devices/apple-nvme/apple_nvme.c:611-648 | the same for a whole doorbell |
| NvmeHistory.ExplainedUnlessLost | devices/apple-nvme/apple_nvme.c:611-648 | the same over any run at all, as long as no DMA copy has left guest RAM |
| NvmeHistory.TidyRunHolds | devices/apple-nvme/apple_nvme.c:539-648 | no DMA copy of a run with tidy doorbells leaves guest RAM |
| NvmeHistory.StoreExplained | devices/apple-nvme/apple_nvme.c:611-648 | over every run whose doorbells are tidy the disk is the fold of the successful writes in submission order, every successful read got the bytes of its point, and a read-only disk never changes |
| NvmeDevice.Controller.GuestWrite | core/vm/machine_apple.c:71-83 | accepts exactly what passes the 64-bit test; stores exactly the bytes when they lie in RAM, marks the copy as lost when they do not, and otherwise changes nothing |
| NvmeDevice.Controller.GuestRead | core/vm/machine_apple.c:57-69 | accepts exactly what passes the 64-bit test; delivers the bytes when they lie in RAM and marks the copy as lost when they do not |
| NvmeDevice.Controller.PostCompletion | devices/apple-nvme/apple_nvme.c:527-535 | the driver finds the completion's fields in the slot, the position moves on even if DMA refuses it, and an invalid queue gets nothing |
| NvmeDevice.Controller.IoRw | devices/apple-nvme/apple_nvme.c:430-525 | the transfer as specified, with its status |
| NvmeDevice.Controller.AdminIdentify | devices/apple-nvme/apple_nvme.c:186-228 | the identify page delivered, zeros for a namespace that does not exist, with its status |
| NvmeDevice.Controller.CreateIoCq | devices/apple-nvme/apple_nvme.c:244-277 | the completion queue as requested, or the table unchanged |
| NvmeDevice.Controller.CreateIoSq | devices/apple-nvme/apple_nvme.c:292-332 | the submission queue as requested if its completion queue exists |
| NvmeDevice.Controller.DeleteIoQueue | devices/apple-nvme/apple_nvme.c:347-371 | the queue invalid and the count kept non-negative |
| NvmeDevice.Controller.AdminCommand | devices/apple-nvme/apple_nvme.c:555-602 | one turn of the admin loop |
| NvmeDevice.Controller.ProcessAdmin | devices/apple-nvme/apple_nvme.c:539-608 | the whole admin loop |
| NvmeDevice.Controller.IoCommand | devices/apple-nvme/apple_nvme.c:631-642 | one turn of an I/O loop |
| NvmeDevice.Controller.ProcessIo | devices/apple-nvme/apple_nvme.c:611-648 | the whole I/O loop of one queue pair, other pairs untouched |
| NvmeDevice.Controller.WriteConfiguration | devices/apple-nvme/apple_nvme.c:819-878 | the CC register with enabling, disabling and shutdown |
| NvmeDevice.Controller.Doorbell | devices/apple-nvme/apple_nvme.c:916-937 | what each doorbell of an enabled controller does |
| NvmeDevice.Controller.MmioWrite | devices/apple-nvme/apple_nvme.c:811-939 | register writes as specified, keeping the lifecycle |
| Gic.ScanStep | core/irq/gic.c:139-163 | the scan keeps the first interrupt in delivery order |
| Gic.EligibleExactly | core/irq/gic.c:133-163 | a CPU can be given an interrupt exactly when it is pending, enabled, above the lowest priority and, for an SPI, sent to it by the low bits of its route or by its target byte |
| Gic.Distributor.Eoi | core/irq/gic.c:177-188 | ends one interrupt and changes no other |
| Gic.Distributor.WriteRegister | core/irq/gic.c:353-420 | every selected interrupt of the bank takes the operation and no other |
| Gic.DecodesExactly | core/irq/gic.h:38-42 | each bank of each register family has exactly its own word of the register map |
| Gic.Distributor.MmioWrite | core/irq/gic.c:320-458 | the interrupts become what the offset selects: routes, the five families of bits, or priorities; the control register switches affinity routing |
| Gic.StoredKeeps | core/irq/gic.c:320-458 | only the five families change pending, active or enabled bits, only the priority registers a priority and only the route registers a route |
| Gic.RouteDecides | core/irq/gic.c:325-330 | a route write decides which CPU can be given that interrupt and affects no other |
| Gic.RouteThenAcknowledge | core/irq/gic.c:133-175 | after a route write no other CPU is given the interrupt, and the chosen one is if it is its most urgent |
| Gic.PriorityBytes | core/irq/gic.c:422-430 | a priority word sets four interrupts from its four bytes, lowest first |
| Gic.Distributor.WritePriorities | core/irq/gic.c:422-430 | the four priorities of a register take the written bytes |
| Gic.Distributor.MmioRead | core/irq/gic.c:197-281 | the offset selects what is read; set and clear registers read alike |
| Gic.Distributor.ReadRegister | core/irq/gic.c:225-281 | the word that the bank shows |
| Gic.Distributor.Acknowledge | core/irq/gic.c:133-175 | the first by priority and number of what the CPU can be given, made active; 1023 when there is none |
| Gic.Distributor.Drain | core/irq/gic.c:133-175 | acknowledging until 1023 yields every eligible interrupt once, sorted, and changes only those |
| GicRegisters.ReadBit | core/irq/gic.c:225-281 | bit i of a read is the property of interrupt i of the bank |
| GicRegisters.MaskIsTruncationExactly | core/irq/gic.c:353-420 | the written 64-bit value acts like its low word exactly when it fits or has bit 31 set |
| GicRegisters.StepRefines | core/irq/gic.c:177-188 | one write or EOI changes the register words by or / and-not |
| GicRegisters.WriteThenRead | core/irq/gic.c:353-420 | a read after a write shows or / and-not in its own bank and property and is unaffected elsewhere |
| GicRegisters.RegistersRefine | core/irq/gic.c:353-420 | over any sequence of writes and EOIs reads return the running or / and-not of the written words |
| MachO.BaseIsLeast | core/boot/apple/macho.c:56-112 | the base is the least address of a segment with contents or a fileset entry |
| MachO.BaseExactly | core/boot/apple/macho.c:75-112 | the base is the least address of a segment with contents or of a fileset entry, and zero when there is none |
| MachO.EntryIsLast | core/boot/apple/macho.c:85-98 | the entry point is that of a thread command that no other follows |
| MachO.CopiedExactly | core/boot/apple/macho.c:167-203 | a segment is copied exactly when it has file contents, is not below the base and ends inside RAM once slid |
| MachO.CoversExactly | core/boot/apple/macho.c:219-225 | which loaded segments cover an entry point |
| MachO.WalkRefuses | core/boot/apple/macho.c:60-73 | a command that does not fit the file or claims under eight bytes refuses the image |
| MachOFormat.CommandReads | core/boot/apple/macho.h:51-101 | each kind of load command, written field by field in either byte order, is the command that the parser finds |
| MachOFormat.ParseWritten | core/boot/apple/macho.c:22-122 | every image reads as it was written: commands in order, entry, base, file type, in both byte orders |
| MachO.Contents | core/boot/apple/macho.c:203-216 | a segment in memory is its file bytes followed by zeros |
| MachO.LoadKeeps | core/boot/apple/macho.c:153-229 | memory that no copied segment covers stays |
| MachO.LoadPlaces | core/boot/apple/macho.c:153-229 | every copied segment stands whole at its place |
| MachOLoader.Context.Note | core/boot/apple/macho.c:75-107 | the running minimum and the last entry point |
| MachOLoader.Context.Parse | core/boot/apple/macho.c:22-122 | accepts exactly the images whose commands can be walked, and reports the entry, base and type of whatever was written |
| MachOLoader.Context.CopySegment | core/boot/apple/macho.c:203-217 | one segment copied and zero-filled, the rest of RAM untouched |
| MachOLoader.Context.Load | core/boot/apple/macho.c:124-233 | all segments placed and the entry point returned |
| SoftMmu.FetchStrayExactly | hypervisor/tcg/tcg_mmu.c:199-231 | a fetch reads outside RAM exactly when it is untranslated and starts just below RAM |
| SoftMmu.MovesExactly | hypervisor/tcg/tcg_mmu.c:69-133 | translation moves exactly the addresses from the kernel base up in the top 2^48 bytes, all by the same distance |
| SoftMmu.TargetExactly | hypervisor/tcg/tcg_mmu.c:139-193 | a data access goes to a device exactly when it does not lie in RAM |
| SoftMmu.EncodeDecodes | hypervisor/tcg/tcg_mmu.c:174-190 | a stored value of any access size reads back |
| SoftMmu.StoreIsSeen | hypervisor/tcg/tcg_mmu.c:139-231 | data stored at an address is what loads and fetches there deliver |
| SoftMmu.Mmu.Read | hypervisor/tcg/tcg_mmu.c:199-231 | the fetch as specified |
| SoftMmu.Mmu.Resolve | hypervisor/tcg/tcg_mmu.c:139-193 | RAM access in place, device access left to the device |
| XnuBoot.SegmentPlaced | core/boot/apple/macho.c:184-201 | a file-backed segment is copied to its address minus base plus slide |
| XnuBoot.ExtrasKeep | core/boot/apple/xnu_boot.c:189-233 | device tree and BootArgs leave everything below the last MiB alone |
| XnuBoot.TranslationMeetsPlace | core/vm/machine_apple.c:498-502 | the MMU sends a kernel address to where the loader put it, in RAM |
| XnuBoot.ImagePreserved | hypervisor/tcg/tcg_mmu.c:69-133 | for every well-formed kernel, fetching any stretch of a file-backed segment after setup delivers its file bytes, then zeros |
| XnuBoot.WrittenPreserved | hypervisor/tcg/tcg_mmu.c:69-133 | the same for an image as it was written: a fetch from byte i of a written segment delivers the file from its file offset plus i, and zeros past its file size |
| XnuBoot.ExtrasStand | core/boot/apple/xnu_boot.c:189-233 | device tree and BootArgs stand where the boot information says, 1 MiB and 8 KiB below the top of RAM, and the slide is the one asked for |
| XnuBoot.BootsExactly | core/boot/apple/xnu_boot.c:106-187 | set-up succeeds exactly for an image that is no fileset with an entry point that does not come out as zero |
| XnuBoot.EntryTranslatesExactly | core/boot/apple/macho.c:219-225 | the returned entry is the translation of the virtual entry exactly when the entry is loaded or below the image, or the map is the identity |
| XnuBoot.State.Setup | core/boot/apple/xnu_boot.c:106-243 | slide, kernel, device tree and BootArgs placed, and the addresses recorded, or an error |
| LogicalImm.Clz32 | hypervisor/tcg/tcg_decode.c:46-56 | the number of leading zeros |
| LogicalImm.RorBit | hypervisor/tcg/tcg_decode.c:59-65 | bit i of the rotation is bit i + amount around the window |
| LogicalImm.Doubling | hypervisor/tcg/tcg_decode.c:113-116 | one doubling repeats the element twice as often |
| LogicalImm.Replicate | hypervisor/tcg/tcg_decode.c:113-116 | the loop gives the periodic pattern for every power-of-two width and every element |
| LogicalImm.ValidParts | hypervisor/tcg/tcg_decode.c:69-88 | an accepted encoding has a size of at least two and leaves a zero in the element |
| LogicalImm.NeverTrivial | hypervisor/tcg/tcg_decode.c:92-122 | the result is neither zero nor all ones |
| LogicalImm.Decode | hypervisor/tcg/tcg_decode.c:92-122 | bit i is set exactly when (i + R) mod size is at most S |
| LogicalImm.EncodingExists | hypervisor/tcg/tcg_decode.c:69-88 | every size and run length has an accepted encoding that selects it |
| Dart.JoinIsOr | devices/apple-dart/apple_dart.c:63-109 | the model's sums and remainders are the source's masks, shifts and ors |
| Dart.BlockWalk | devices/apple-dart/apple_dart.c:62-77 | a driver's 256 MiB block translates its addresses |
| Dart.TableWalk | devices/apple-dart/apple_dart.c:79-95 | a driver's 1 MiB block below a table translates its addresses |
| Dart.PageWalk | devices/apple-dart/apple_dart.c:97-109 | a driver's page below two tables translates its addresses |
| Dart.FaultWalk | devices/apple-dart/apple_dart.c:62-109 | an invalid entry at any level is a fault |
| Dart.SplitReads | devices/apple-dart/apple_dart.c:50-56 | a split entry points to a table whose entries cover the block |
| Dart.SplitKeeps | devices/apple-dart/apple_dart.c:50-56 | splitting leaves every other entry as it was |
| Dart.SplitPreserves | devices/apple-dart/apple_dart.c:58-110 | replacing a superpage by a table of its 256 parts changes no translation |
| Aic.FirstReady | devices/apple-aic/apple_aic.c:72-93 | the lowest ready interrupt, or none when none is ready |
| Aic.UpdateExactly | devices/apple-aic/apple_aic.c:69-98 | CPUs before the first with something ready get nothing, that one its lowest, later ones keep theirs |
| Aic.ReadyOwned | devices/apple-aic/apple_aic.c:51-92 | an update offers an interrupt only to its target, or to CPU 0 if the target does not exist |
| Aic.BanksReachExactly | devices/apple-aic/apple_aic.c:352-397 | a bank register reaches an interrupt exactly when it is one of the first 17 MASK_SET words |
| Aic.DeadRegisters | devices/apple-aic/apple_aic.c:368-396 | mask-clear, software-set and software-clear writes change no interrupt |
| Aic.StepSound | devices/apple-aic/apple_aic.c:69-199 | every event keeps each CPU's cached interrupt waiting and its own |
| Aic.StepConserves | devices/apple-aic/apple_aic.c:102-199 | one event: what waits is what waited, plus what was made, less what was acknowledged or reset |
| Aic.RunConserves | devices/apple-aic/apple_aic.c:69-199 | the same over every run from every sound state, whatever the targets |
| Aic.Conservation | devices/apple-aic/apple_aic.c:15-199 | from reset: raises that made an interrupt pending equal its acknowledges, plus those a soft reset forgot, plus one if it is pending |
| AicBalance.EoiEnds | devices/apple-aic/apple_aic.c:183-199 | an end of interrupt by the CPU that holds it stops it running, keeps whether it waits, frees the CPU and touches no other; by anyone else it does nothing |
| AicBalance.RaiseWaits | devices/apple-aic/apple_aic.c:102-116 | a raise enables an interrupt and makes it wait, whether or not it runs |
| AicBalance.AckRuns | devices/apple-aic/apple_aic.c:145-181 | an answering acknowledge makes the cached interrupt run, no longer wait, and held by the CPU |
| AicBalance.StepBalances | devices/apple-aic/apple_aic.c:102-199 | one event: what runs is what ran, plus what was acknowledged anew, less what was ended or forgotten |
| AicBalance.RunBalances | devices/apple-aic/apple_aic.c:69-199 | the same over every run from every sound state |
| AicBalance.Balance | devices/apple-aic/apple_aic.c:15-199 | from reset: acknowledges that answer an interrupt equal the ends of interrupt that stopped it, plus those a soft reset forgot, plus one if it runs, plus those that came while it ran |
| AicBalance.AckThenEoi | devices/apple-aic/apple_aic.c:145-199 | whatever happens in between, short of a reset or another acknowledge by the same CPU, the end of interrupt by the CPU that acknowledged stops it |
| AicBalance.NestedAckLosesEoi | devices/apple-aic/apple_aic.c:145-199 | after a second acknowledge by the same CPU the first interrupt's end of interrupt is ignored and it goes on running |
| AicBalance.OfferedExactly | devices/apple-aic/apple_aic.c:69-98 | a CPU is offered exactly the waiting, enabled, unmasked interrupts that belong to it |
| AicBalance.UnmaskWord | devices/apple-aic/apple_aic.c:356-364 | a MASK_SET word enables and unmasks exactly the interrupts its bits name |
| AicBalance.CpuControl | devices/apple-aic/apple_aic.c:331-336 | bits 0 and 1 of a CPU's control register turn it on and mask it |
| AicBalance.FirstOpenExactly | devices/apple-aic/apple_aic.c:59-66 | the first CPU that is on and not masked, or CPU 0 if none is |
| AicDevice.Controller.constructor | devices/apple-aic/apple_aic.c:15-32 | the reset state |
| AicDevice.Controller.FindTargetCpu | devices/apple-aic/apple_aic.c:51-66 | the target, or the first open CPU |
| AicDevice.Controller.UpdatePending | devices/apple-aic/apple_aic.c:69-98 | the cache as specified, and the CPU and interrupt that are signalled |
| AicDevice.Controller.RaiseIrq | devices/apple-aic/apple_aic.c:102-116 | the raise as specified |
| AicDevice.Controller.LowerIrq | devices/apple-aic/apple_aic.c:118-132 | the lowering as specified |
| AicDevice.Controller.AcknowledgeIrq | devices/apple-aic/apple_aic.c:145-181 | the answer and the new state |
| AicDevice.Controller.EndOfInterrupt | devices/apple-aic/apple_aic.c:183-199 | the end of interrupt in place, as AicBalance.EoiEnds characterises it |
| AicDevice.Controller.UnmaskBank | devices/apple-aic/apple_aic.c:356-364 | exactly the selected interrupts are enabled and unmasked |
| AicDevice.Controller.MaskBank | devices/apple-aic/apple_aic.c:368-375 | exactly the selected interrupts are masked |
| AicDevice.Controller.EachOfBank | devices/apple-aic/apple_aic.c:379-395 | the selected interrupts raised or lowered one after another |
| AicDevice.Controller.MmioWrite | devices/apple-aic/apple_aic.c:295-398 | register writes as specified, keeping every cache sound |

## Left out

- Device tree blobs of 2^31 bytes and more, and names or property names that run past the end of their block: C reads on there.
- DeviceTree.ParseNode: a property whose 32-bit length wraps has the outcome `Fault`; what the copy out of the block then delivers is not modelled.
- AppleDtNode.DtNode.ShouldKeep: a `compatible` value without a NUL is cut at its end, where `strstr` reads on.
- AppleDtNode.DtNode.Parse: children and properties are sequences of nodes, not `next` pointers; order, ownership and update in place are kept, the pointer chains are not.
- `apple_dt_serialize` (core/boot/apple/dtre.c:304-472): it copies property names into the structure block, so its output reads back only for trees without properties.
- DtbGenerate.Generate: buffers of 4096 bytes or more that the tree does not fit, which the source accepts and overruns; its writer checks no bound.
- DtbGenerate.ConfigTree: the nodes are emitted by a traversal of the platform's tree, in the order of the source's calls; malloc and logging are not modelled.
- Virtio feature negotiation, configuration space, interrupt status and the notify dispatch: plumbing around the queues.
- VirtioMmio.VirtioDevice.MmioWrite: queue registers written while the selected queue lies outside the device's array, which the source does not check.
- VirtioMmio.VirtioDevice.PutUsed: a cached used pointer that is not the offset of the used address; VirtioMmio.UsedTiedExactly says when that happens, and what the source then overwrites is not modelled.
- VirtioBlk.BlkDevice.ProcessRequest: host I/O succeeds, sectors are below 2^54, and chains keep clear of the rings, the table and the request headers.
- VirtioNet.NetDevice.GatherChain: buffers within 64 KiB of 4 GiB, for which the room test wraps (VirtioNet.RoomExactly) and the source overruns its packet buffer.
- VirtioNet.NetDevice.ProcessTx: chains are acyclic and lie in guest RAM; the backend takes every packet.
- NVMe Identify contents are parameters; the interrupt line, INTMS and INTMC are not part of the model.
- NvmeController.Write: tail doorbells whose loop never ends (NvmeDrain.HaltsExactly); completion queue head doorbells move the controller's own posting position, and no completion property is stated across them.
- NvmeDrain.Drains: both rings lie in guest RAM, and rings and buffers do not overlap.
- NvmeStore.Transfer: once a copy has left guest RAM (`lost`), what C's memory and disk hold is undefined and no further property is stated; guest RAM ends below 2^64.
- NvmeStore.CreateSq: a completion queue number beyond the array of four reads past it in C; the answer there is a parameter.
- GIC: ITARGETSR, ICFGR and SGIR, whose offsets the priority range catches first; `gic_raise_spi` on an active interrupt; groups, redistributors, and reads of the priority and route registers.
- AIC inter-processor interrupts, which share numbers 32 to 35 with device lines, and level-triggered lines in the conservation law.
- Aic.Write: the interrupt callback is a result of AicDevice.Controller.UpdatePending, and the global enable bit, which nothing reads, is not kept.
- DART: stream registers, TLB commands and `apple_dart_translate`, which never calls the walk.
- MachOLoader.Context.Parse: images whose command fields extend past the end of the file (`Unknown` in MachO.Parse), because C then reads beyond it.
- MachOLoader.Context.Load: images of which a copy would leave the file or RAM, since C copies all the same; the fileset branch loads nothing, as no caller in the boot path selects a kernel core.
- XnuBoot.State.Setup: the serialised device tree and the BootArgs block are parameters with the sizes that the source allows.
- SoftMmu.Mmu.Read: a fetch whose copy leaves the RAM buffer (`SoftMmu.FetchStrayExactly` says which); what it delivers is undefined in C.
- SoftMmu.Mmu.Resolve: an access that straddles the end of the address space, and device callbacks beyond the value they return.
- Instruction execution (hypervisor/tcg/tcg_decode.c:429 on), NVRAM, LZFSE, UART, PSCI, timer, SPMI, SEP and the front ends: thin, foreign or easy.
