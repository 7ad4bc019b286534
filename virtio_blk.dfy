/** The virtio block driver (virtio-blk.c): device bring-up and shutdown,
    the request header, and the submission of one read or write request as a
    three-descriptor chain on queue 0.  Host-side values (configuration
    space, the outcome of feature negotiation and of queue setup, the status
    the device reports) are inputs. */
module Blk {
  import opened Virtio

  const DEFAULT_SECTOR_SIZE := 512
  /** sizeof(struct virtio_blk_req): le32 type, le32 ioprio, le64 sector. */
  const BLK_REQ_SIZE: U32 := 16
  /** VIRTIO_BLK_F_BLK_SIZE, feature bit 6 (section 5.2.3 of VIRTIO 1.0). */
  const F_BLK_SIZE: bv64 := 0x40
  /** Request types (section 5.2.6 of VIRTIO 1.0). */
  const T_IN: U32 := 0
  const T_OUT: U32 := 1

  // ---------------------------------------------------------------------
  // The capacity and alignment checks of virtioblk_transfer

  /** blocknum + cnt - 1 > capacity, evaluated as C does: the long count is
      converted to uint64_t, so the sum wraps modulo 2^64.  Without
      wrap-around it is the plain comparison of the last block with the
      capacity, in both directions. */
  predicate CapacityExceeded(blocknum: U64, cnt: I64, capacity: U64)
    ensures cnt >= 1 && blocknum + cnt - 1 < 0x1_0000_0000_0000_0000 ==>
      (CapacityExceeded(blocknum, cnt, capacity) <==> blocknum + cnt - 1 > capacity)
  {
    ToU64(blocknum + cnt - 1) > capacity
  }

  /** The comparison is strict, so a request whose last block is block
      number capacity itself is let through. */
  lemma CapacityAcceptsLastBlockAtCapacity(blocknum: U64, cnt: I64, capacity: U64)
    requires cnt >= 1 && blocknum + cnt - 1 == capacity
    ensures !CapacityExceeded(blocknum, cnt, capacity)
  {
  }

  /** A device of 1000 sectors accepts 2 blocks from block 999. */
  lemma CapacityScenario()
    ensures !CapacityExceeded(999, 2, 1000)
    ensures !CapacityExceeded(998, 2, 1000)
    ensures CapacityExceeded(1000, 2, 1000)
  {
  }

  /** A request for no blocks at block 0 wraps to 2^64 - 1 and is refused on
      every device but one of the largest capacity. */
  lemma ZeroCountAtBlockZeroRefused(capacity: U64)
    requires capacity < 0xFFFF_FFFF_FFFF_FFFF
    ensures CapacityExceeded(0, 0, capacity)
  {
  }

  /** C's % on int: the quotient truncates toward zero, so the remainder
      takes the sign of a. */
  function CRem(a: int, n: nat): int
    requires n > 0
  {
    if a >= 0 then a % n else -((-a) % n)
  }

  /** blk_size % DEFAULT_SECTOR_SIZE != 0 on the int read from configuration
      space.  Dafny's remainder is Euclidean, C's truncates, but the two are
      zero for the same operands. */
  predicate Misaligned(blkSize: I32)
    ensures Misaligned(blkSize) <==> CRem(blkSize, DEFAULT_SECTOR_SIZE) != 0
  {
    blkSize % DEFAULT_SECTOR_SIZE != 0
  }

  // ---------------------------------------------------------------------
  // The request header

  /** The sector field: blocknum * blk_size / 512 in uint64_t arithmetic (the
      int blk_size converted to uint64_t), then truncated to the uint32_t
      sector parameter of fill_blk_hdr.  When nothing wraps, it is the byte
      offset in 512-byte units. */
  function BlkSector(blocknum: U64, blkSize: I32): (s: U32)
    ensures 0 <= blkSize && blocknum * blkSize < 0x1_0000_0000_0000_0000 &&
            blocknum * blkSize / DEFAULT_SECTOR_SIZE < 0x1_0000_0000 ==>
      s == blocknum * blkSize / DEFAULT_SECTOR_SIZE
  {
    NoWrap(blkSize);
    NoWrap(blocknum * blkSize);
    ToU32(ToU64(blocknum * ToU64(blkSize)) / DEFAULT_SECTOR_SIZE)
  }

  /** A value that fits in 64 bits survives the conversion to uint64_t. */
  lemma NoWrap(x: int)
    ensures 0 <= x < 0x1_0000_0000_0000_0000 ==> ToU64(x) == x
  {
  }

  /** With 512-byte blocks the sector is the block number. */
  lemma BlkSectorScenario()
    ensures BlkSector(998, 512) == 998
  {
  }

  /** The uint32_t sector parameter loses the high half: block 2^32 of a disk
      with 512-byte blocks is addressed as sector 0. */
  lemma BlkSectorTruncates()
    ensures BlkSector(0x1_0000_0000, 512) == 0
  {
    assert 0x1_0000_0000 * 512 == 0x200_0000_0000;
    assert ToU64(0x200_0000_0000) == 0x200_0000_0000;
  }

  /** A header field as it lies in memory: in the CPU's native byte order, or
      converted with cpu_to_le32/cpu_to_le64.  The conversions themselves are
      not modelled, only which one was applied. */
  datatype Wire = Native(v: nat) | LittleEndian(v: nat)

  function Encode(isModern: bool, v: nat): (w: Wire)
    ensures w.v == v
    ensures w.LittleEndian? <==> isModern
  {
    if isModern then LittleEndian(v) else Native(v)
  }

  /** struct virtio_blk_req, the header the device reads first. */
  class BlkHeader {
    var reqType: Wire
    var ioprio: Wire
    var sector: Wire

    constructor ()
      ensures reqType == Native(0) && ioprio == Native(0) && sector == Native(0)
    {
      reqType := Native(0);
      ioprio := Native(0);
      sector := Native(0);
    }

    /** fill_blk_hdr: type and sector, little-endian on a modern device; the
        ioprio store is commented out in the source, so ioprio is ignored.
        The header lies at pa and the device reads it through vq, so the
        stores are recorded in vq's trace. */
    method Fill(vq: VirtQueue, pa: nat, isModern: bool, reqType: U32, ioprio: U32, sector: U32)
      requires vq.Valid()
      modifies this`reqType, this`sector, vq`trace
      ensures this.reqType == Encode(isModern, reqType)
      ensures this.sector == Encode(isModern, sector)
      ensures vq.Valid() && vq.trace == old(vq.trace) + [BufferWrite(pa, BLK_REQ_SIZE)]
    {
      vq.NoteBufferWrite(pa, BLK_REQ_SIZE);
      if isModern {
        this.reqType := LittleEndian(reqType);
        this.sector := LittleEndian(sector);
      } else {
        this.reqType := Native(reqType);
        this.sector := Native(sector);
      }
    }
  }

  /** virtioblk_transfer passes dev->features where fill_blk_hdr expects
      is_modern, so a legacy device whose dev->features has any bit set,
      BLK_SIZE say, gets a little-endian header. */
  lemma LegacyDeviceGetsLittleEndianHeader(reqType: U32)
    ensures !IsModern(F_BLK_SIZE)
    ensures Encode(F_BLK_SIZE != 0, reqType) == LittleEndian(reqType)
  {
  }

  // ---------------------------------------------------------------------
  // The descriptor chain

  /** Head of the chain: id = (avail_idx * 3) % size. */
  function BlkHeadId(availIdx: nat, qsize: nat): (id: nat)
    requires qsize > 0
    ensures id < qsize
  {
    (availIdx * 3) % qsize
  }

  /** The header descriptor: the device reads the 16-byte request header
      and goes on to slot id + 1. */
  function BlkHdrDesc(hdrPa: nat, id: nat): (d: Desc)
    ensures d.addr == hdrPa && d.len == BLK_REQ_SIZE
    ensures d.flags & DESC_F_NEXT == DESC_F_NEXT && d.flags & DESC_F_WRITE == 0
    ensures id + 1 < 0x1_0000 ==> d.next == id + 1
  {
    Desc(hdrPa, BLK_REQ_SIZE, DESC_F_NEXT, ToU16(id + 1))
  }

  /** The data descriptor covers the caller's buffer, always chains on to
      slot id + 2, and is device-writable exactly when the request type is
      even: read requests (T_IN) let the device write the buffer, write
      requests (T_OUT) do not. */
  function BlkDataDesc(buf: nat, len: U32, reqType: U32, id: nat): (d: Desc)
    ensures d.addr == buf && d.len == len
    ensures d.flags & DESC_F_NEXT == DESC_F_NEXT
    ensures d.flags & DESC_F_WRITE == DESC_F_WRITE <==> reqType % 2 == 0
    ensures reqType == T_IN ==> d.flags & DESC_F_WRITE == DESC_F_WRITE
    ensures reqType == T_OUT ==> d.flags & DESC_F_WRITE == 0
    ensures id + 2 < 0x1_0000 ==> d.next == id + 2
  {
    Desc(buf, len, DESC_F_NEXT | (if reqType % 2 == 1 then 0 else DESC_F_WRITE), ToU16(id + 2))
  }

  /** The status descriptor: one device-writable byte that ends the chain. */
  function BlkStatusDesc(statusPa: nat): (d: Desc)
    ensures d.addr == statusPa && d.len == 1
    ensures d.flags & DESC_F_WRITE == DESC_F_WRITE && d.flags & DESC_F_NEXT == 0
  {
    Desc(statusPa, 1, DESC_F_WRITE, 0)
  }

  /** Since 3 has an inverse modulo a power of two, some avail idx puts the
      head in the last slot; then the data and status descriptors, at
      id + 1 and id + 2, are past the end of the table (BlkChainAtLastSlot). */
  lemma BlkChainCanEscape(qsize: nat)
    requires IsPow2(qsize) && qsize >= 2
    ensures exists a :: 0 <= a < qsize && BlkHeadId(a, qsize) == qsize - 1
  {
    Pow2NotMultipleOf3(qsize);
    var a := LastSlotWitness(qsize);
    assert BlkHeadId(a, qsize) == qsize - 1;
  }

  /** An a < n with (3a) % n == n - 1, for n not a multiple of 3. */
  lemma LastSlotWitness(n: nat) returns (a: nat)
    requires n >= 2 && n % 3 != 0
    ensures a < n && (a * 3) % n == n - 1
  {
    if n % 3 == 1 {
      a := (n - 1) / 3;
      assert a * 3 == n - 1;
      ModSmall(n - 1, n);
    } else {
      a := (2 * n - 1) / 3;
      assert a * 3 == (n - 1) + n;
      ModShift(n - 1, n);
    }
  }

  /** The chain whose head is the last slot: the header names slot size as
      its successor, which is outside the table.  Under this model's
      virtio_fill_desc, which leaves the table alone for an id past its end,
      the fills at size and size + 1 then change nothing, so the table only
      gains the header; what the transport itself does there is not part of
      this model. */
  lemma BlkChainAtLastSlot(s: seq<Desc>, hdrPa: nat, buf: nat, len: U32, reqType: U32, statusPa: nat)
    requires 1 <= |s| <= MAX_QUEUE_SIZE
    ensures var id := |s| - 1;
      && BlkHdrDesc(hdrPa, id).next == |s|
      && Store(Store(Store(s, id, BlkHdrDesc(hdrPa, id)), id + 1, BlkDataDesc(buf, len, reqType, id)),
               id + 2, BlkStatusDesc(statusPa))
         == s[id := BlkHdrDesc(hdrPa, id)]
  {
  }

  lemma ModSmall(a: nat, n: nat)
    requires a < n
    ensures a % n == a
  {
  }

  lemma ModShift(a: nat, n: nat)
    requires a < n
    ensures (a + n) % n == a
  {
  }

  /** The avail idx virtioblk_transfer stores: (idx % size) + 1, always
      between 1 and size. */
  function BlkNextAvailIdx(idx: U16, qsize: nat): (r: U16)
    requires 0 < qsize <= MAX_QUEUE_SIZE
    ensures 1 <= r <= qsize
  {
    idx % qsize + 1
  }

  /** The stored idx is not a free-running counter: after reaching size it
      drops back to 1 instead of moving on to size + 1. */
  lemma BlkAvailIdxFallsBack(qsize: nat)
    requires 0 < qsize <= MAX_QUEUE_SIZE
    ensures BlkNextAvailIdx(qsize, qsize) == 1
    ensures BlkNextAvailIdx(qsize, qsize) != ToU16(qsize + 1)
  {
  }

  /** Below size the stored idx does advance by one. */
  lemma BlkAvailIdxAdvances(idx: U16, qsize: nat)
    requires 0 < qsize <= MAX_QUEUE_SIZE && idx < qsize
    ensures BlkNextAvailIdx(idx, qsize) == idx + 1
  {
    ModSmall(idx, qsize);
  }

  // ---------------------------------------------------------------------
  // virtioblk_transfer

  /** The three virtio_fill_desc calls of a request.  Slots id+1 and id+2
      are not reduced mod size; a slot past the table is not written. */
  method FillChain(vq: VirtQueue, id: nat, hdr: Desc, data: Desc, status: Desc)
    requires vq.Valid()
    modifies vq`trace, vq.desc
    ensures vq.Valid()
    ensures vq.desc[..] == Store(Store(Store(old(vq.desc[..]), id, hdr), id + 1, data), id + 2, status)
    ensures vq.trace == old(vq.trace) + [DescWrite(id, hdr), DescWrite(id + 1, data), DescWrite(id + 2, status)]
  {
    vq.FillDesc(id, hdr);
    vq.FillDesc(id + 1, data);
    vq.FillDesc(id + 2, status);
  }

  /** The queue side of virtioblk_transfer once the request is accepted:
      the chain at id, its head in ring slot pos, a barrier, the new avail
      idx, then the notification. */
  method Submit(vq: VirtQueue, id: nat, hdr: Desc, data: Desc, status: Desc, pos: nat, newIdx: U16)
    requires vq.Valid() && id < vq.size && pos < vq.size
    modifies vq`trace, vq`availIdx, vq.desc, vq.ring
    ensures vq.Valid() && !Pending(vq.trace)
    ensures vq.desc[..] == Store(Store(Store(old(vq.desc[..]), id, hdr), id + 1, data), id + 2, status)
    ensures vq.ring[..] == old(vq.ring[..])[pos := id] && vq.availIdx == newIdx
    ensures vq.trace == old(vq.trace) +
      [DescWrite(id, hdr), DescWrite(id + 1, data), DescWrite(id + 2, status), RingWrite(pos, id), MemBarrier,
       IdxWrite(newIdx), Notify]
  {
    FillChain(vq, id, hdr, data, status);
    vq.Publish(pos, id, newIdx);
    vq.Kick();
  }

  /** virtioblk_transfer.  capacity and blkSizeCfg are the two configuration
      reads; hdr is data->blkhdr, at physical address hdrPa, and statusPa the
      address of the status byte.  The function returns 0 on every path. */
  method Transfer(dev: Device, vq: VirtQueue, hdr: BlkHeader, hdrPa: nat, statusPa: nat, buf: nat,
                  blocknum: U64, cnt: I64, reqType: U32, capacity: U64, blkSizeCfg: U32)
    returns (r: int)
    requires vq.Valid() && !Pending(vq.trace) && vq.size <= MAX_QUEUE_SIZE
    modifies vq`trace, vq`availIdx, vq.desc, vq.ring, hdr`reqType, hdr`sector
    ensures r == 0 && vq.Valid() && !Pending(vq.trace)
    ensures CapacityExceeded(blocknum, cnt, capacity) || Misaligned(ToInt32(blkSizeCfg)) ==>
      unchanged(vq, vq.desc, vq.ring, hdr)
    ensures !CapacityExceeded(blocknum, cnt, capacity) && !Misaligned(ToInt32(blkSizeCfg)) ==>
      var blkSize := ToInt32(blkSizeCfg);
      var a := old(vq.availIdx) % vq.size;
      var id := BlkHeadId(a, vq.size);
      var h := BlkHdrDesc(hdrPa, id);
      var d := BlkDataDesc(buf, ToU32(cnt * blkSize), reqType, id);
      var s := BlkStatusDesc(statusPa);
      && hdr.reqType == Encode(dev.features != 0, reqType)
      && hdr.sector == Encode(dev.features != 0, BlkSector(blocknum, blkSize))
      && vq.desc[..] == Store(Store(Store(old(vq.desc[..]), id, h), id + 1, d), id + 2, s)
      && vq.ring[..] == old(vq.ring[..])[a := id]
      && vq.availIdx == BlkNextAvailIdx(old(vq.availIdx), vq.size)
      && vq.trace == old(vq.trace) +
           [BufferWrite(hdrPa, BLK_REQ_SIZE), DescWrite(id, h), DescWrite(id + 1, d), DescWrite(id + 2, s),
            RingWrite(a, id), MemBarrier, IdxWrite(vq.availIdx), Notify]
  {
    if ToU64(blocknum + cnt - 1) > capacity {
      return 0;
    }
    var blkSize := ToInt32(blkSizeCfg);
    if blkSize % DEFAULT_SECTOR_SIZE != 0 {
      return 0;
    }
    var availIdx: U16 := vq.availIdx % vq.size;

    hdr.Fill(vq, hdrPa, dev.features != 0, reqType, 1, BlkSector(blocknum, blkSize));

    var id := BlkHeadId(availIdx, vq.size);
    ModSmall(availIdx, vq.size);
    Submit(vq, id, BlkHdrDesc(hdrPa, id), BlkDataDesc(buf, ToU32(cnt * blkSize), reqType, id),
           BlkStatusDesc(statusPa), availIdx % vq.size, availIdx + 1);
    r := 0;
  }

  // ---------------------------------------------------------------------
  // virtioblk_init and virtioblk_shutdown

  datatype BlkInitPath = NegotiationFailed | QueueInitFailed | Ready

  /** Which exit virtioblk_init takes. */
  function BlkInitPathOf(modern: bool, negotiated: bool, queueOk: bool): (p: BlkInitPath)
    ensures p == Ready <==> (modern ==> negotiated) && queueOk
  {
    if modern && !negotiated then NegotiationFailed
    else if !queueOk then QueueInitFailed
    else Ready
  }

  /** The values virtioblk_init writes to the status register: the reset,
      ACKNOWLEDGE, ACKNOWLEDGE | DRIVER, then one final write.  On a VIRTIO
      1.0 device that final write builds on the status read back after
      negotiation (hostStatus). */
  function BlkInitStatusWrites(path: BlkInitPath, modern: bool, hostStatus: bv8): (w: seq<bv8>)
    ensures |w| == 4 && w[0] == 0 && w[1] == STAT_ACKNOWLEDGE && w[2] == STAT_ACKNOWLEDGE | STAT_DRIVER
  {
    var first: bv8 := STAT_ACKNOWLEDGE | STAT_DRIVER;
    var later := if modern && path != NegotiationFailed then hostStatus else first;
    [0, STAT_ACKNOWLEDGE, first, if path == Ready then later | STAT_DRIVER_OK else Failed(later)]
  }

  /** The final status has FAILED set on both failure exits and DRIVER_OK set
      on success; a legacy device ends on ACKNOWLEDGE | DRIVER | DRIVER_OK. */
  lemma BlkInitStatusOutcome(path: BlkInitPath, modern: bool, hostStatus: bv8)
    ensures var w := BlkInitStatusWrites(path, modern, hostStatus);
      && (path != Ready ==> w[3] & STAT_FAILED == STAT_FAILED)
      && (path == Ready ==> w[3] & STAT_DRIVER_OK == STAT_DRIVER_OK)
      && (path == Ready && !modern ==> w[3] == STAT_ACKNOWLEDGE | STAT_DRIVER | STAT_DRIVER_OK)
      && (path == NegotiationFailed ==> w[3] == STAT_ACKNOWLEDGE | STAT_DRIVER | STAT_FAILED)
  {
  }

  /** What virtioblk_init returns: 0 on failure, otherwise the block size,
      taken from configuration space (an int read of the uint32 field) when
      the host offers BLK_SIZE and 512 when it does not. */
  function BlkInitResult(path: BlkInitPath, hostFeatures: bv64, cfgBlkSize: U32): (r: int)
    ensures path != Ready ==> r == 0
    ensures path == Ready && hostFeatures & F_BLK_SIZE == 0 ==> r == DEFAULT_SECTOR_SIZE
    ensures path == Ready && hostFeatures & F_BLK_SIZE != 0 ==> r == ToInt32(cfgBlkSize)
  {
    if path != Ready then 0
    else if hostFeatures & F_BLK_SIZE != 0 then ToInt32(cfgBlkSize)
    else DEFAULT_SECTOR_SIZE
  }

  /** Failure is reported as block size 0, so a device that succeeds with a
      configured blk_size of 0 cannot be told apart from one that failed. */
  lemma BlkInitZeroSizeLooksLikeFailure(hostFeatures: bv64)
    requires hostFeatures & F_BLK_SIZE != 0
    ensures BlkInitResult(Ready, hostFeatures, 0) == BlkInitResult(QueueInitFailed, hostFeatures, 0)
  {
  }

  /** virtioblk_init.  negotiated is the outcome of
      virtio_negotiate_guest_features, hostStatus the status read back after
      it, queueOk whether virtio_queue_init_vq succeeds, hostFeatures what
      virtio_get_host_features returns and cfgBlkSize the blk_size field of
      configuration space. */
  method Init(dev: Device, negotiated: bool, hostStatus: bv8, queueOk: bool, hostFeatures: bv64, cfgBlkSize: U32)
    returns (r: int)
    modifies dev
    ensures dev.features == old(dev.features)
    ensures var modern := IsModern(old(dev.features));
      var path := BlkInitPathOf(modern, negotiated, queueOk);
      var w := BlkInitStatusWrites(path, modern, hostStatus);
      && r == BlkInitResult(path, hostFeatures, cfgBlkSize)
      && dev.statusLog == old(dev.statusLog) + w
      && dev.status == w[3]
      && dev.guestFeatures == (if modern then old(dev.guestFeatures) else F_BLK_SIZE)
  {
    var status: bv8 := STAT_ACKNOWLEDGE;
    dev.Reset();
    dev.SetStatus(status);
    status := status | STAT_DRIVER;
    dev.SetStatus(status);

    var ok := true;
    if IsModern(dev.features) {
      if !negotiated {
        ok := false;
      } else {
        status := hostStatus;
      }
    } else {
      dev.SetGuestFeatures(F_BLK_SIZE);
    }
    if ok && !queueOk {
      ok := false;
    }
    if !ok {
      dev.SetStatus(Failed(status));
      return 0;
    }

    status := status | STAT_DRIVER_OK;
    dev.SetStatus(status);
    if hostFeatures & F_BLK_SIZE != 0 {
      r := ToInt32(cfgBlkSize);
    } else {
      r := DEFAULT_SECTOR_SIZE;
    }
  }

  /** virtioblk_shutdown: quiesce with FAILED, then reset. */
  method Shutdown(dev: Device)
    modifies dev
    ensures dev.statusLog == old(dev.statusLog) + [STAT_FAILED, 0] && dev.status == 0
    ensures dev.features == old(dev.features) && dev.guestFeatures == old(dev.guestFeatures)
  {
    dev.SetStatus(STAT_FAILED);
    dev.Reset();
  }
}
