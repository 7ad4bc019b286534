# Virtio block and network drivers: driver-side virtqueue bookkeeping

This project models the driver half of the two virtio drivers in
`virtio-net.c` and `virtio-blk.c` and proves properties of that model. It
covers what the drivers write into their split virtqueues: the
descriptor table, the avail ring with its `flags` and `idx`, the device
status register and the guest feature bits. It also covers the driver's
own state: `running`, the MAC address, and the file-scope globals
`net_hdr_size`, `last_rx_idx` and `last_tx_idx`.

The layouts follow two standards. The legacy layout is the one in
appendix C of the Virtio PCI Card Specification v0.8.10. The VIRTIO 1.0
layout applies when `dev->features` has `VIRTIO_F_VERSION_1`, except
for the block request header, whose byte order `virtioblk_transfer`
chooses by `dev->features != 0` (see the quirks below). The relevant
VIRTIO 1.0 sections are:

- section 2.1: device status;
- sections 2.4.5, 2.4.6 and 2.4.8: descriptor table, avail ring and used ring;
- section 3.1.1: initialisation;
- section 3.2.1: supplying buffers;
- section 5.1.6: the net header;
- section 5.2.6: the block request.

Files:

- `virtio.dfy` (module `Virtio`) holds what both drivers share:
  - the C integer widths, as subset types with explicit truncation;
  - the status, feature and descriptor-flag constants;
  - the descriptor record and the host-owned used ring, which is a value the drivers read;
  - a `Device` class (status byte, feature bits, guest features);
  - a `VirtQueue` class (descriptor table and avail ring as arrays, avail flags and idx, buffer-pool pointer).

  A ghost trace on each queue records, in order:
  - every descriptor, avail ring, flags and idx store, and every notify;
  - every `sync()`/`mb()`;
  - the driver's own stores into memory the device reads through the
    queue: the frame copied into the transmit pool (virtio-net.c:315) and
    the `fill_blk_hdr` stores into the request header (virtio-blk.c:149);
  - the copy of a received frame out of the receive pool (virtio-net.c:413).

  `VirtQueue.PublishIdx`, the avail `idx` store, requires that no traced
  descriptor, ring or buffer store is still unfenced, and
  `BarrierBeforePublish` states the resulting order over a whole trace.
  Each operation's contract gives its exact trace. So a driver body that
  dropped a barrier, filled the block header after the idx store, or
  copied a received frame out after handing its descriptor back would not
  verify. Data the caller puts in a block write's buffer before calling
  `virtioblk_transfer` is outside the driver and is not traced.
- `virtio_net.dfy` (module `Net`) holds:
  - the class `VirtioNet`, with `virtionet_init`, `_term`, `_xmit`, `_receive_check`, `_receive` and `_init_pci`/`_mmio`;
  - the `virtionet_read`/`_write` guards;
  - the pool layout and index arithmetic, as functions and lemmas.
- `virtio_blk.dfy` (module `Blk`) holds `virtioblk_init`, `_shutdown`,
  `fill_blk_hdr` and `_transfer`, with the capacity, sector and
  descriptor-id arithmetic as functions and lemmas.

The host is nondeterministic. Whatever it decides or reports is a method
input, including:

- the outcome of feature negotiation and the status it reads back;
- whether queue setup succeeds;
- what the pool allocations return;
- configuration-space bytes and fields;
- the used ring and used idx;
- the address `virtio_desc_addr` yields, and the bytes stored there.

Quirks of the code are exposed as lemmas rather than hidden:

- The block chain uses slots `id+1` and `id+2` without reducing them
  modulo the queue size (virtio-blk.c:158, 164, 167), and some avail idx
  puts the head in the last slot (`Blk.BlkChainCanEscape`,
  `Blk.BlkChainAtLastSlot`).
- `fill_blk_hdr` takes a `bool is_modern` but is passed `dev->features`
  (virtio-blk.c:97-98, 149). So a device whose `dev->features` has any
  bit set, a legacy one included, gets a little-endian header
  (`Blk.LegacyDeviceGetsLittleEndianHeader`). The sector goes through a
  `uint32_t` parameter, so it is truncated to 32 bits
  (`Blk.BlkSectorTruncates`).
- The capacity check `blocknum + cnt - 1 > capacity` (virtio-blk.c:134)
  is strict, so a request whose last block is numbered `capacity` is
  accepted (`Blk.CapacityAcceptsLastBlockAtCapacity`,
  `Blk.CapacityScenario`).
- `virtioblk_transfer` documents its result as the number of blocks
  transferred (virtio-blk.c:118) but returns 0 on every path, success
  included (virtio-blk.c:136, 144, 178; `Blk.Transfer`).
- If the transmit pool allocation fails (virtio-net.c:194-197), the
  receive pool allocated at virtio-net.c:184-189 is not freed:
  `virtionet_init` takes the `dev_error` exit with `rx.bufMem` still set
  (`Net.VirtioNet.Init`).
- `virtionet_term` frees only the receive pool (virtio-net.c:276). It sets
  the transmit pool pointer to null without freeing it (virtio-net.c:278),
  so every init/term cycle leaks the transmit pool (`Net.VirtioNet.Term`).
- The transmit pool is sized from the receive queue (virtio-net.c:178,
  192-193) but indexed by the transmit queue's size (virtio-net.c:311-314).
  With a transmit queue four times the receive queue's size,
  `virtionet_xmit` copies past the end of the pool
  (`Net.TxBufferOverrunsRxSizedPool`, `Net.TxBufferOverrunScenario`).
  Up to twice the size the buffer fits (`Net.TxBufferFitsRxSizedPool`).

## Model

| member | source | states |
|---|---|---|
| `Virtio.Failed` | virtio-blk.c:77 | status OR FAILED has the FAILED bit set |
| `Virtio.DriverReady` | virtio-net.c:225 | status OR DRIVER_OK OR FEATURES_OK has both bits set |
| `Virtio.BarrierBeforePublish` | virtio-net.c:327-330 | in a trace the queues can produce, every descriptor/ring/buffer write is followed by a barrier before any later avail idx store |
| `Virtio.VirtQueue.WriteRing` | virtio-net.c:327 | one avail ring store (also virtio-net.c:212, 419 and virtio-blk.c:171): ring[pos] := val, nothing else in the ring changed, appended to the trace, which is then pending |
| `Virtio.VirtQueue.WriteFlags` | virtio-net.c:216-221 | the avail flags stores at virtio-net.c:216 and 221: flags := val, appended to the trace, pending state unchanged |
| `Virtio.VirtQueue.Sync` | cpu.h:26-30 | sync()/mb() (called at virtio-net.c:214, 328, 330, 420 and virtio-blk.c:172): appends a barrier, after which nothing is pending; the only way to clear a pending write |
| `Virtio.VirtQueue.NoteBufferWrite` | virtio-net.c:315 | a driver store into memory the device reads (the memcpy here and the fill_blk_hdr stores at virtio-blk.c:149): appended to the trace, which is then pending |
| `Virtio.VirtQueue.NoteBufferRead` | virtio-net.c:413 | the memcpy out of a device-filled buffer: appended to the trace, pending state unchanged |
| `Virtio.VirtQueue.PublishIdx` | virtio-net.c:329 | the avail idx store; callable only when no data write is unfenced, and keeps the trace disciplined |
| `Virtio.VirtQueue.SetAvail` | virtio-net.c:216-222 | avail flags := flags, then avail idx := idx; callable only with no unfenced write |
| `Virtio.VirtQueue.Publish` | virtio-net.c:327-329 | ring[pos] := head, a barrier, then avail idx := newIdx, in that order in the trace, nothing else in the ring changed |
| `Net.HdrSize` | virtio-net.c:155-163 | the header is 12 bytes exactly when dev->features has VERSION_1, 10 bytes exactly when it does not |
| `Net.TxPoolSize` | virtio-net.c:192-193 | the transmit pool holds size/2 frame buffers of 1514 bytes |
| `Net.RxPoolSize` | virtio-net.c:184-185 | the receive pool holds size/2 buffers of header plus 1514 bytes |
| `Net.RxBuffersAdjacent` | virtio-net.c:201-202 | the address of buffer i is base + i*(1514+h): buffer 0 starts the pool and each buffer starts right after the one before |
| `Net.RxHdrDesc` | virtio-net.c:201-206 | the header descriptor of buffer i starts the buffer, is h bytes, device-writable, has NEXT and names 2i+1 |
| `Net.RxDataDesc` | virtio-net.c:208-210 | the data descriptor of buffer i follows its header, is 1514 device-writable bytes and ends the chain |
| `Net.RxBuffersDisjointInPool` | virtio-net.c:184-210 | every receive buffer (header plus 1514 data bytes) lies inside the pool of (1514+h)*size/2 bytes, and two different buffers do not overlap |
| `Net.RxPostedDescsContent` | virtio-net.c:200-210 | after n loop iterations, slot 2k holds the header descriptor and slot 2k+1 the data descriptor of buffer k, for every k < n; later slots are untouched |
| `Net.RxPostedRingContent` | virtio-net.c:200-212 | after n loop iterations ring slot k names descriptor 2k for k < n; later slots are untouched |
| `Net.TxHeadId` | virtio-net.c:310-311 | the transmit head (idx*2) % size is in the table, even, and its data slot id+1 is in the table too |
| `Net.TxBufIndex` | virtio-net.c:312 | buf_index is below size/2 |
| `Net.TxBufOffset` | virtio-net.c:312-314 | the transmit buffer offset is a multiple of 1514 and a whole 1514-byte buffer from it fits in the pool of 1514*size/2 bytes (virtio-net.c:192-193) |
| `Net.TxBufferFitsRxSizedPool` | virtio-net.c:178-193 | with the pool sized from the receive queue, the transmit buffer still fits while the transmit queue is at most twice the receive queue |
| `Net.TxBufferOverrunsRxSizedPool` | virtio-net.c:311-315 | with a transmit queue four times the receive queue, the packet at avail idx r-1 is copied past the end of the pool |
| `Net.TxBufferOverrunScenario` | virtio-net.c:311-315 | receive queue 256, transmit queue 1024, avail idx 255: offset 386070 in a 193792-byte pool |
| `Net.TxBufferSharedAcrossChains` | virtio-net.c:311-314 | with 4q slots, the packets at idx and idx+q use different chains but the same transmit buffer |
| `Net.RecvLen` | virtio-net.c:381-389 | the reported length never exceeds (uint32_t)maxlen; it is used len - header when that fits, the wrapped difference whenever it is below the clamp, and the clamp only when the wrapped difference reaches it |
| `Net.RecvLenIsMin` | virtio-net.c:381-389 | for maxlen >= 0 and a frame at least a header long, the result is min(used len - header, maxlen) |
| `Net.ShortFrameCopiesMaxlen` | virtio-net.c:381-389 | a used length shorter than the header wraps and is clamped to maxlen, so maxlen bytes are copied |
| `Net.RecycledId` | virtio-net.c:379-380 | the id written back at virtio-net.c:419 is never the last slot: it is 0xffff or below size-1 |
| `Net.RecycledIdIsReported` | virtio-net.c:379-380 | when reported id + 1 < size, the id written back, ((id+1)%size)-1, is the reported id |
| `Net.RecycledIdOfLastSlot` | virtio-net.c:419 | when (id+1)%size is 0, the id written back is 0xffff, outside every queue |
| `Net.NetInitPath` | virtio-net.c:148-197 | init succeeds exactly when the driver is not running, negotiation succeeds (or the device is legacy), both queues initialise and both allocations succeed; it stops early exactly when running |
| `Net.NetInitStatusWrites` | virtio-net.c:151-247 | the driver's own set_status calls in init write nothing when already running, and otherwise ACK OR DRIVER first and exactly one more value |
| `Net.NetInitStatusOutcome` | virtio-net.c:172-247 | every failure exit ends on a status with FAILED; a queue failure ends on exactly ACK OR DRIVER OR FAILED; success ends with DRIVER_OK OR FEATURES_OK set |
| `Net.VirtioNet.InitTransport` | virtio-net.c:82-101 | a null device returns -1 and changes nothing; otherwise the feature bits of the given device are copied, the device is reset (status 0), then acknowledged, and 0 is returned |
| `Net.VirtioNet.FillRxRing` | virtio-net.c:200-213 | afterwards every receive buffer i is posted as header descriptor 2i chained to data descriptor 2i+1, ring slot i names 2i, the upper ring half is unchanged, and the trace holds the writes in loop order |
| `Net.VirtioNet.FillRxPair` | virtio-net.c:201-212 | one loop iteration: descriptors 2i and 2i+1 and ring slot i set, nothing else in the table or ring changed |
| `Net.VirtioNet.ReadMac` | virtio-net.c:233-235 | the MAC holds configuration bytes 0..5 in order |
| `Net.VirtioNet.ArmQueues` | virtio-net.c:199-222 | the receive ring is fully posted, then a barrier, avail flags 0 and idx size/2; last_rx_idx is the used idx; the transmit queue gets NO_INTERRUPT and idx 0 |
| `Net.VirtioNet.Negotiate` | virtio-net.c:151-163 | ACK OR DRIVER is written; a refused VERSION_1 negotiation writes status OR FAILED and fails; otherwise the header size follows the device kind and a legacy device gets guest features 0 |
| `Net.VirtioNet.SetUpQueues` | virtio-net.c:170-197 | a queue failure writes ACK OR DRIVER OR FAILED; each allocation is stored as it returns, and the first failed one writes status OR FAILED |
| `Net.VirtioNet.Prepare` | virtio-net.c:151-197 | the status writes, guest features, header size and pool pointers of each init exit up to the ring setup |
| `Net.VirtioNet.Start` | virtio-net.c:199-232 | the rings are armed, DRIVER_OK OR FEATURES_OK is ORed into status, the receive queue is notified and the driver is running |
| `Net.VirtioNet.Finish` | virtio-net.c:199-235 | the successful tail of init, ending with the MAC read |
| `Net.VirtioNet.Boot` | virtio-net.c:151-248 | init on a stopped driver: returns 0 exactly on success and -1 on every failure exit, with the status writes, pool pointers and ring state of that exit |
| `Net.VirtioNet.Init` | virtio-net.c:134-248 | a running driver is left alone and 0 returned; otherwise the exit taken decides the return value, the status writes, the header size, the pool pointers and whether the rings are armed. On success every receive buffer is posted and published behind a barrier, the transmit queue is empty, running is set and the MAC read |
| `Net.VirtioNet.Term` | virtio-net.c:256-284 | nothing happens when not running; otherwise status FAILED, then reset, then running cleared and both pool pointers null; returns 0 |
| `Net.VirtioNet.Xmit` | virtio-net.c:290-339 | len > 1514 returns 0 and changes no descriptor, ring slot, idx or pool byte. Otherwise: the caller's len bytes are copied to the pool at the buffer offset; the old chain is freed and the header (nethdr, net_hdr_size, NEXT, id+1) and data (buf_addr, len, 0, 0) descriptors written; ring[idx % size] := id, a barrier, avail idx := idx+1 mod 2^16, another barrier and a notify; the trace starts with the pool copy, so the copy is fenced before the idx store; last_tx_idx is the used idx; len is returned |
| `Net.VirtioNet.Send` | virtio-net.c:315-336 | the pool copy, then the chain set-up and publication, in that order in the trace |
| `Net.VirtioNet.CopyIn` | virtio-net.c:314-315 | the pool holds the caller's bytes at [off, off+len) and is unchanged elsewhere; the copy is appended to the transmit trace |
| `Net.VirtioNet.SubmitTx` | virtio-net.c:317-336 | the queue side of a transmit, writes in source order, ending with no unfenced write |
| `Net.VirtioNet.SetTxChain` | virtio-net.c:317-325 | slots id and id+1 are freed, then written with the header and data descriptors |
| `Net.VirtioNet.ReceiveCheck` | virtio-net.c:341-358 | returns 0 when last_rx_idx equals the used idx, else the raw used len of entry last_rx_idx % size (header included); changes nothing |
| `Net.VirtioNet.Receive` | virtio-net.c:363-427 | nothing new: returns 0 and changes nothing. Otherwise: the reported length is copied into buf and the rest of buf kept; last_rx_idx and avail idx each advance by 1 mod 2^16; ring[avail_idx % size] := ((id+1)%size)-1; then a barrier, the idx store and a notify; the trace puts the copy out of the device buffer before the ring store that recycles it; the length is returned |
| `Net.VirtioNet.Consume` | virtio-net.c:413-424 | the frame is copied out, then its descriptor is recycled, fenced, published and notified, in that order in the trace |
| `Net.VirtioNet.CopyOut` | virtio-net.c:404-413 | buf holds len bytes from the device address and is unchanged after them; the copy is appended to the receive trace and leaves nothing unfenced that was not before |
| `Net.Read` | virtio-net.c:469-474 | a null handle or buffer gives -1; otherwise the receive result, never above (uint32_t)len |
| `Net.Write` | virtio-net.c:476-481 | a null handle or buffer gives -1; otherwise 0 for an oversized frame and len for an accepted one |
| `Blk.CapacityExceeded` | virtio-blk.c:134 | the check in uint64_t arithmetic; without 64-bit wrap-around it rejects exactly when the last block is past capacity |
| `Blk.Misaligned` | virtio-blk.c:142 | blk_size % 512 is nonzero, with C's truncating remainder on a signed int |
| `Blk.CapacityAcceptsLastBlockAtCapacity` | virtio-blk.c:134-137 | a request whose last block equals capacity passes the check |
| `Blk.CapacityScenario` | virtio-blk.c:134-137 | capacity 1000: 2 blocks at 999 and at 998 pass, 2 blocks at 1000 are refused |
| `Blk.ZeroCountAtBlockZeroRefused` | virtio-blk.c:134 | count 0 at block 0 wraps to 2^64-1 and is refused unless capacity is 2^64-1 |
| `Blk.BlkSector` | virtio-blk.c:149-150 | the sector passed to fill_blk_hdr; when nothing wraps it is blocknum*blk_size/512 |
| `Blk.BlkSectorScenario` | virtio-blk.c:149-150 | with 512-byte blocks, block 998 is sector 998 |
| `Blk.BlkSectorTruncates` | virtio-blk.c:98 | the uint32_t sector parameter maps block 2^32 of a 512-byte-block disk to sector 0 |
| `Blk.Encode` | virtio-blk.c:100-108 | a field keeps its value and is little-endian exactly when is_modern holds |
| `Blk.BlkHeader.Fill` | virtio-blk.c:97-109 | type and sector hold the given values, little-endian exactly when is_modern; ioprio is not written; the 16-byte store at the header's address is appended to the queue's trace |
| `Blk.LegacyDeviceGetsLittleEndianHeader` | virtio-blk.c:149 | a device whose dev->features is BLK_SIZE alone, which is not VERSION_1, gets a little-endian header, because is_modern is dev->features |
| `Blk.BlkHeadId` | virtio-blk.c:153 | the chain head (avail_idx*3) % size is inside the table |
| `Blk.BlkHdrDesc` | virtio-blk.c:155-158 | the header descriptor covers the 16-byte request, is device-readable, has NEXT and names id+1 |
| `Blk.BlkDataDesc` | virtio-blk.c:160-164 | the data descriptor covers the buffer and length, has NEXT, names id+2, and has WRITE exactly for an even type (a read) |
| `Blk.BlkStatusDesc` | virtio-blk.c:166-169 | the status descriptor is one device-writable byte and ends the chain |
| `Blk.BlkChainCanEscape` | virtio-blk.c:153-167 | for every power-of-two size some avail idx puts the head in the last slot, size-1, so that id+1 and id+2 are past the end of the table |
| `Blk.BlkChainAtLastSlot` | virtio-blk.c:155-169 | for a head in the last slot, the header names slot size, outside the table, as its successor; given the model's choice for an out-of-table virtio_fill_desc (see Left out), the three fills then change only the header slot |
| `Blk.BlkNextAvailIdx` | virtio-blk.c:146-173 | the stored avail idx, (idx % size) + 1, is between 1 and size |
| `Blk.BlkAvailIdxFallsBack` | virtio-blk.c:146-173 | at idx = size the stored idx drops back to 1 rather than size+1 |
| `Blk.BlkAvailIdxAdvances` | virtio-blk.c:146-173 | below size the stored idx advances by one |
| `Blk.FillChain` | virtio-blk.c:155-169 | the three fill_desc calls at id, id+1, id+2 in order; a slot past the table is recorded but not written |
| `Blk.Submit` | virtio-blk.c:155-176 | the chain, then ring[pos] := id, a barrier, the idx store and the notify |
| `Blk.Transfer` | virtio-blk.c:120-179 | returns 0 on every path. A capacity overrun or a misaligned blk_size changes no descriptor, ring, idx or header. Otherwise: the header gets the type and the 32-bit sector, little-endian iff dev->features != 0, and that store comes first in the trace, before the barrier and the idx store; the chain is header, data and status at id, id+1, id+2; ring[avail_idx % size] := id, a barrier, avail idx := (idx % size) + 1, then the notify |
| `Blk.BlkInitPathOf` | virtio-blk.c:48-61 | init succeeds exactly when negotiation succeeds (or the device is legacy) and the queue initialises |
| `Blk.BlkInitStatusWrites` | virtio-blk.c:36-79 | the driver's own set_status and reset calls in init write four values, the first three being reset (0), ACK and ACK OR DRIVER |
| `Blk.BlkInitStatusOutcome` | virtio-blk.c:63-79 | both failure exits end on a status with FAILED, success on one with DRIVER_OK; a legacy device ends on ACK OR DRIVER OR DRIVER_OK |
| `Blk.BlkInitResult` | virtio-blk.c:67-79 | 0 on failure; on success the configured blk_size when BLK_SIZE is offered, else 512 |
| `Blk.BlkInitZeroSizeLooksLikeFailure` | virtio-blk.c:74-79 | a successful init with a configured blk_size of 0 returns the same value as a failed one |
| `Blk.Init` | virtio-blk.c:30-80 | the status writes, final status, guest features (BLK_SIZE for a legacy device) and return value of the exit taken |
| `Blk.Shutdown` | virtio-blk.c:87-95 | status FAILED, then reset |

## Left out

- `virtionet_open`, `virtionet_close` and `virtionet_handle_interrupt` are not modelled; they only allocate or free the driver object, or pass the interrupt status from one transport call to another.
- `virtio.c`, `virtio-net.h`, `virtio-blk.h` and `virtio-internal.h` are not part of this model.
  - The transport primitives are modelled only by their effect on state: `virtio_fill_desc`, `virtio_free_desc`, `virtio_set_status`, `virtio_reset_device`, `virtio_set_guest_features` and `virtio_queue_notify`.
  - `virtio_queue_ready` and `virtio_queue_term_vq` are not modelled.
  - The constants are taken from VIRTIO 1.0: the status bits from section 2.1, the header sizes 10 and 12 from section 5.1.6, and the 16-byte `virtio_blk_req` from section 5.2.6. BUFFER_ENTRY_SIZE is 1514.
- The byte-order helpers are handled as follows:
  - `modern16/32` and `cpu_to_le*` are the identity for ring and descriptor values.
  - The block header records only which encoding was applied.
- Addresses are unbounded naturals, so the model does not capture a 64-bit address wrap.
- `SLOF_alloc_mem_aligned` is an input that yields a base address or a failure. `SLOF_free_mem_aligned` is not modelled; `virtionet_term` sets both pointers to null.
- `sync()` and `mb()` are only trace events. The hardware memory model is not modelled.
- `printf`/`dprintf` logging, the `#if 0` packet dump and the CHERI capability derivation (virtio-net.c:391-410) are not modelled.
- Host concurrency is not modelled: the used ring and used idx are inputs at each call.
- A round trip (a frame sent by `xmit` and looped back by a host comes out of `receive` unchanged) is not stated, because the host is not modelled. Each half is stated: what `Xmit` copies into the pool, and what `Receive` copies out of the device address.
- Net.VirtioNet.Xmit: the receive and transmit queues are assumed to have the same size (`VirtioNet.Valid`), and the transmit pool is sized from that common size. So the model's promise that the copy stays inside the pool does not cover a transmit queue more than twice the receive queue, where the source overruns the pool (`Net.TxBufferOverrunsRxSizedPool`).
- Net.VirtioNet.Xmit: does not require `running`. After `virtionet_term` the source's `buf_mem` is NULL, and the memcpy at virtio-net.c:315 writes through it. The model instead still copies into `txMem`, and the data descriptor's address is the buffer offset alone.
- `virtio_queue_init_vq` is modelled only by its success or failure; what it does to a queue's memory is not. So the descriptor tables and avail rings keep their contents across `Net.VirtioNet.Term` and a later `Init`, and across `Blk.Shutdown` and a later `Blk.Init`. The receive fill loop rewrites every receive descriptor and the lower half of the receive ring; the transmit table and ring keep whatever the last transmits left there. The network driver's init sets both queues' avail flags and idx itself (virtio-net.c:216-222); the block driver's init does not, so its queue's avail idx carries over as well.
- Net.VirtioNet.Xmit: requires `0 <= len`, and `len <= buf.Length` for a frame it accepts. For a negative `len` the source passes it to `memcpy` as a huge `size_t`, which the model does not follow.
- Net.VirtioNet.Receive: requires the caller's buffer to hold `(uint32_t)maxlen` bytes, which the source silently trusts.
- Net.Read: requires, for a non-null handle and buffer, the same conditions as `Receive`. Its ensures state only the -1 guard and the bound on the result; the copy and the queue effects are stated by `Receive`.
- Net.Write: requires, for a non-null handle and buffer, the same conditions as `Xmit`. Its ensures state only the -1 guard and the return value; the copy and the queue effects are stated by `Xmit`.
- Virtio.VirtQueue.FillDesc: a `virtio_fill_desc` or `virtio_free_desc` at an id past the table is recorded in the trace but leaves the table unchanged, because the transport's own bounds handling is not part of this model. So `Blk.Transfer` does not say what happens to the data and status descriptors of a chain whose head is the last slot.
- `virtio_negotiate_guest_features` is modelled only by its outcome and the status read back after it (virtio-net.c:156-159, virtio-blk.c:50-53). The FEATURES_OK status write and the guest-feature write it makes are not in `Device.statusLog` or `Device.guestFeatures`; for a VIRTIO 1.0 device those stay as they were. The feature sets the drivers ask for (`DRIVER_FEATURE_SUPPORT`, virtio-net.c:49 and virtio-blk.c:24) do not appear, since only the outcome is modelled.
- Blk.Transfer: requires that no queue write is unfenced on entry. `cnt * blk_size` is taken as the 32-bit truncation of the exact product; the overflow of the `long` multiplication is not modelled.
- The receive-ring loop keeps `i * 2` exact. The source's `uint32_t` id cannot wrap for any queue size the standard allows.
