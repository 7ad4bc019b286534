/** The virtio network driver: one receive and one transmit virtqueue, a
    receive pool whose buffers are all published at initialisation and then
    recycled, and a transmit pool written per packet.  Layout of the legacy
    device per appendix C of the Virtio PCI Card Specification v0.8.10, and of
    the VIRTIO 1.0 device per section 5.1.6 of that standard. */
module Net {
  import opened Virtio

  /** Bytes of packet data per buffer (one Ethernet frame without FCS). */
  const BUFFER_ENTRY_SIZE := 1514

  /** sizeof(struct virtio_net_hdr) and sizeof(struct virtio_net_hdr_v1). */
  const NET_HDR_SIZE := 10
  const NET_HDR_V1_SIZE := 12

  /** The packet header size selected at initialisation. */
  function HdrSize(features: bv64): (h: nat)
    ensures h == NET_HDR_V1_SIZE <==> IsModern(features)
    ensures h == NET_HDR_SIZE <==> !IsModern(features)
  {
    if IsModern(features) then NET_HDR_V1_SIZE else NET_HDR_SIZE
  }

  // ---------------------------------------------------------------------
  // Arithmetic helpers

  lemma ModUnique(a: nat, n: nat, k: nat, r: nat)
    requires n > 0 && r < n && a == k * n + r
    ensures a % n == r
  {
    var q, s := a / n, a % n;
    assert a == q * n + s;
    MulMono(k + 1, q, n);
    MulMono(q + 1, k, n);
    assert (k + 1) * n == k * n + n;
    assert (q + 1) * n == q * n + n;
  }

  lemma MulMono(a: nat, b: nat, c: nat)
    ensures a <= b ==> a * c <= b * c
  {
  }

  // ---------------------------------------------------------------------
  // Pools and descriptor layout

  /** BUFFER_ENTRY_SIZE * queue_size / 2: one frame buffer per two-slot chain. */
  function TxPoolSize(qsize: nat): (n: nat)
    ensures qsize % 2 == 0 ==> n == (qsize / 2) * BUFFER_ENTRY_SIZE
  {
    BUFFER_ENTRY_SIZE * qsize / 2
  }

  /** (BUFFER_ENTRY_SIZE + h) * queue_size / 2: a header and a frame buffer
      per two-slot chain. */
  function RxPoolSize(h: nat, qsize: nat): (n: nat)
    ensures qsize % 2 == 0 ==> n == (qsize / 2) * (BUFFER_ENTRY_SIZE + h)
  {
    var w := BUFFER_ENTRY_SIZE + h;
    assert qsize % 2 == 0 ==> w * qsize == 2 * ((qsize / 2) * w);
    w * qsize / 2
  }

  /** Start of receive buffer i (header first, then data). */
  function RxBufAddr(base: nat, h: nat, i: nat): nat { base + i * (BUFFER_ENTRY_SIZE + h) }

  /** Buffer 0 starts the pool, and each later buffer starts right after
      the header and data bytes of the one before: the buffers tile the
      pool with no gap. */
  lemma RxBuffersAdjacent(base: nat, h: nat, i: nat)
    ensures RxBufAddr(base, h, 0) == base
    ensures RxBufAddr(base, h, i + 1) == RxBufAddr(base, h, i) + BUFFER_ENTRY_SIZE + h
  {
  }

  /** Header descriptor of receive buffer i: the device writes the h-byte
      header at the start of the buffer and goes on to slot 2i + 1. */
  function RxHdrDesc(base: nat, h: U32, i: nat): (d: Desc)
    ensures d.addr == RxBufAddr(base, h, i) && d.len == h
    ensures d.flags & DESC_F_WRITE == DESC_F_WRITE && d.flags & DESC_F_NEXT == DESC_F_NEXT
    ensures 2 * i + 1 < 0x1_0000 ==> d.next == 2 * i + 1
  {
    Desc(RxBufAddr(base, h, i), h, DESC_F_NEXT | DESC_F_WRITE, ToU16(2 * i + 1))
  }

  /** Data descriptor of receive buffer i: BUFFER_ENTRY_SIZE device-writable
      bytes right after the header, ending the chain. */
  function RxDataDesc(base: nat, h: U32, i: nat): (d: Desc)
    ensures d.addr == RxHdrDesc(base, h, i).addr + h && d.len == BUFFER_ENTRY_SIZE
    ensures d.flags & DESC_F_WRITE == DESC_F_WRITE && d.flags & DESC_F_NEXT == 0
  {
    Desc(RxBufAddr(base, h, i) + h, BUFFER_ENTRY_SIZE, DESC_F_WRITE, 0)
  }

  /** Receive buffers are pairwise disjoint and lie inside the receive pool:
      buffer i spans [RxBufAddr(i), RxBufAddr(i) + h + BUFFER_ENTRY_SIZE). */
  lemma RxBuffersDisjointInPool(base: nat, h: nat, qsize: nat, i: nat, j: nat)
    requires qsize % 2 == 0 && i < qsize / 2 && j < qsize / 2
    ensures RxBufAddr(base, h, i) + h + BUFFER_ENTRY_SIZE <= base + RxPoolSize(h, qsize)
    ensures i != j ==>
      RxBufAddr(base, h, i) + h + BUFFER_ENTRY_SIZE <= RxBufAddr(base, h, j) ||
      RxBufAddr(base, h, j) + h + BUFFER_ENTRY_SIZE <= RxBufAddr(base, h, i)
  {
    RxBufferInPool(base, h, qsize, i);
    if i < j {
      RxBufferBefore(base, h, i, j);
    } else if j < i {
      RxBufferBefore(base, h, j, i);
    }
  }

  lemma RxBufferInPool(base: nat, h: nat, qsize: nat, i: nat)
    requires qsize % 2 == 0 && i < qsize / 2
    ensures RxBufAddr(base, h, i) + h + BUFFER_ENTRY_SIZE <= base + RxPoolSize(h, qsize)
  {
    var w, n := BUFFER_ENTRY_SIZE + h, qsize / 2;
    MulMono(i + 1, n, w);
    assert (i + 1) * w == i * w + w;
    assert w * qsize / 2 == n * w by {
      assert w * qsize == 2 * (n * w);
    }
  }

  lemma RxBufferBefore(base: nat, h: nat, i: nat, j: nat)
    requires i < j
    ensures RxBufAddr(base, h, i) + h + BUFFER_ENTRY_SIZE <= RxBufAddr(base, h, j)
  {
    var w := BUFFER_ENTRY_SIZE + h;
    MulMono(i + 1, j, w);
    assert (i + 1) * w == i * w + w;
  }

  /** The descriptor table after the receive-ring loop has posted its first
      n header/data pairs. */
  function RxPostedDescs(s: seq<Desc>, base: nat, h: U32, n: nat): (r: seq<Desc>)
    requires 2 * n <= |s|
    ensures |r| == |s|
  {
    if n == 0 then s
    else
      var i := n - 1;
      RxPostedDescs(s, base, h, i)[2 * i := RxHdrDesc(base, h, i)][2 * i + 1 := RxDataDesc(base, h, i)]
  }

  /** The avail ring after the receive-ring loop has filled its first n slots. */
  function RxPostedRing(s: seq<U16>, n: nat): (r: seq<U16>)
    requires n <= |s| && n <= MAX_QUEUE_SIZE
    ensures |r| == |s|
  {
    if n == 0 then s else RxPostedRing(s, n - 1)[n - 1 := 2 * (n - 1)]
  }

  /** Pair k of the first n is header then data descriptor of buffer k; the
      slots past the pairs keep their old contents. */
  lemma {:induction false} RxPostedDescsContent(s: seq<Desc>, base: nat, h: U32, n: nat)
    requires 2 * n <= |s|
    ensures forall k :: 0 <= k < n ==>
      RxPostedDescs(s, base, h, n)[2 * k] == RxHdrDesc(base, h, k) &&
      RxPostedDescs(s, base, h, n)[2 * k + 1] == RxDataDesc(base, h, k)
    ensures forall j :: 2 * n <= j < |s| ==> RxPostedDescs(s, base, h, n)[j] == s[j]
  {
    if n > 0 {
      RxPostedDescsContent(s, base, h, n - 1);
    }
  }

  /** Slot k of the first n points at descriptor 2k; the others keep their
      old contents. */
  lemma {:induction false} RxPostedRingContent(s: seq<U16>, n: nat)
    requires n <= |s| && n <= MAX_QUEUE_SIZE
    ensures forall k :: 0 <= k < n ==> RxPostedRing(s, n)[k] == 2 * k
    ensures forall j :: n <= j < |s| ==> RxPostedRing(s, n)[j] == s[j]
  {
    if n > 0 {
      RxPostedRingContent(s, n - 1);
    }
  }

  /** The writes the receive-ring loop makes for its first n buffers. */
  function RxFillEvents(base: nat, h: U32, n: nat): (t: seq<Event>)
    requires n <= MAX_QUEUE_SIZE / 2
    ensures |t| == 3 * n
  {
    if n == 0 then []
    else
      var i := n - 1;
      RxFillEvents(base, h, i) +
        [DescWrite(2 * i, RxHdrDesc(base, h, i)), DescWrite(2 * i + 1, RxDataDesc(base, h, i)), RingWrite(i, 2 * i)]
  }

  /** Head descriptor of the transmit chain for avail idx idx: two slots per
      packet, so the head is even and its data descriptor is in the table. */
  function TxHeadId(idx: U16, qsize: nat): (id: nat)
    requires qsize >= 2 && qsize % 2 == 0
    ensures id < qsize && id % 2 == 0 && id + 1 < qsize
  {
    var a := idx * 2;
    var id := a % qsize;
    ModUnique(a, qsize, a / qsize, id);
    assert id == 2 * (idx - (a / qsize) * (qsize / 2)) by {
      assert a == (a / qsize) * qsize + id;
      assert qsize == 2 * (qsize / 2);
      assert (a / qsize) * qsize == 2 * ((a / qsize) * (qsize / 2));
    }
    id
  }

  /** The buf_index of the source: (idx*2) % (qsize/2). */
  function TxBufIndex(idx: nat, qsize: nat): (b: nat)
    requires qsize >= 2
    ensures b < qsize / 2
  {
    (idx * 2) % (qsize / 2)
  }

  /** Offset of the transmit buffer in the transmit pool; the whole buffer,
      BUFFER_ENTRY_SIZE bytes, lies inside the pool. */
  function TxBufOffset(idx: nat, qsize: nat): (off: nat)
    requires qsize >= 2
    ensures off % BUFFER_ENTRY_SIZE == 0
    ensures off + BUFFER_ENTRY_SIZE <= TxPoolSize(qsize)
  {
    var b := TxBufIndex(idx, qsize);
    assert (b / 2 + 1) * BUFFER_ENTRY_SIZE <= (qsize / 2) * BUFFER_ENTRY_SIZE;
    (b / 2) * BUFFER_ENTRY_SIZE
  }

  /** The transmit pool is sized from the receive queue (one buffer per two
      receive slots) but indexed by the transmit queue size.  The buffer
      still fits while the transmit queue is at most twice the receive one. */
  lemma TxBufferFitsRxSizedPool(idx: nat, tsize: nat, rsize: nat)
    requires 2 <= tsize <= 2 * rsize && rsize % 2 == 0
    ensures TxBufOffset(idx, tsize) + BUFFER_ENTRY_SIZE <= TxPoolSize(rsize)
  {
    var b := TxBufIndex(idx, tsize);
    assert b / 2 + 1 <= rsize / 2;
    MulMono(b / 2 + 1, rsize / 2, BUFFER_ENTRY_SIZE);
    assert (b / 2 + 1) * BUFFER_ENTRY_SIZE == (b / 2) * BUFFER_ENTRY_SIZE + BUFFER_ENTRY_SIZE;
  }

  /** With a transmit queue four times the receive queue, the packet at
      avail idx r - 1 is copied past the end of the pool. */
  lemma TxBufferOverrunsRxSizedPool(r: nat)
    requires r >= 2 && r % 2 == 0
    ensures TxBufOffset(r - 1, 4 * r) + BUFFER_ENTRY_SIZE > TxPoolSize(r)
  {
    var m := 2 * r;
    assert (4 * r) / 2 == m && (r - 1) * 2 == m - 2;
    ModUnique(m - 2, m, 0, m - 2);
    assert TxBufIndex(r - 1, 4 * r) == m - 2;
    assert (m - 2) / 2 == r - 1;
    assert TxBufOffset(r - 1, 4 * r) == (r - 1) * BUFFER_ENTRY_SIZE;
    assert TxPoolSize(r) == (r / 2) * BUFFER_ENTRY_SIZE;
    MulMono(r / 2, r - 1, BUFFER_ENTRY_SIZE);
  }

  /** A receive queue of 256 and a transmit queue of 1024 slots: the packet
      at avail idx 255 would be copied at offset 386070 of a 193792-byte pool. */
  lemma TxBufferOverrunScenario()
    ensures TxBufOffset(255, 1024) == 386070 && TxPoolSize(256) == 193792
    ensures TxBufOffset(255, 1024) + BUFFER_ENTRY_SIZE > TxPoolSize(256)
  {
    TxBufferOverrunsRxSizedPool(256);
  }

  /** Transmit buffers are reused twice as often as transmit descriptors:
      with a queue of 4q slots, the packets at avail idx idx and idx + q
      occupy different chains but the same buffer. */
  lemma TxBufferSharedAcrossChains(idx: U16, q: nat)
    requires q >= 1 && idx + q < 0x1_0000
    ensures TxBufOffset(idx + q, 4 * q) == TxBufOffset(idx, 4 * q)
    ensures TxHeadId(idx + q, 4 * q) != TxHeadId(idx, 4 * q)
  {
    var m := 2 * q;
    assert 4 * q == 2 * m && (4 * q) / 2 == m && (idx + q) * 2 == idx * 2 + m;
    assert TxBufIndex(idx + q, 4 * q) == TxBufIndex(idx, 4 * q) by {
      ShiftKeeps(idx * 2, m);
    }
    assert TxHeadId(idx + q, 4 * q) != TxHeadId(idx, 4 * q) by {
      ShiftMoves(idx * 2, m);
    }
  }

  lemma DivMod(a: nat, n: nat)
    requires n > 0
    ensures a == (a / n) * n + a % n && a % n < n
  {
  }

  /** Adding m leaves a residue mod m alone. */
  lemma ShiftKeeps(a: nat, m: nat)
    requires m > 0
    ensures (a + m) % m == a % m
  {
    DivMod(a, m);
    var q, r := a / m, a % m;
    assert a + m == (q + 1) * m + r by {
      assert (q + 1) * m == q * m + m;
    }
    ModUnique(a + m, m, q + 1, r);
  }

  /** Adding m moves a residue mod 2m. */
  lemma ShiftMoves(a: nat, m: nat)
    requires m > 0
    ensures (a + m) % (2 * m) != a % (2 * m)
  {
    var n := 2 * m;
    DivMod(a, n);
    var q, r := a / n, a % n;
    if r < m {
      assert a + m == q * n + (r + m);
      ModUnique(a + m, n, q, r + m);
    } else {
      assert a + m == (q + 1) * n + (r - m) by {
        assert (q + 1) * n == q * n + n;
      }
      ModUnique(a + m, n, q + 1, r - m);
    }
  }

  /** Payload length virtionet_receive reports: the used length less the
      header, in unsigned 32-bit arithmetic, clamped to (uint32_t)maxlen. */
  function RecvLen(usedLen: U32, hdr: nat, maxlen: int): (len: U32)
    ensures len <= ToU32(maxlen)
    ensures hdr <= usedLen && usedLen - hdr <= ToU32(maxlen) ==> len == usedLen - hdr
    ensures len < ToU32(maxlen) ==> len == ToU32(usedLen - hdr)
    ensures len == ToU32(maxlen) ==> ToU32(usedLen - hdr) >= ToU32(maxlen)
  {
    var l := ToU32(usedLen - hdr);
    if l > ToU32(maxlen) then ToU32(maxlen) else l
  }

  /** With a non-negative maxlen and a frame at least a header long, the
      result is min(usedLen - hdr, maxlen), never more than maxlen. */
  lemma RecvLenIsMin(usedLen: U32, hdr: nat, maxlen: I32)
    requires 0 <= maxlen && hdr <= usedLen
    ensures ToInt32(RecvLen(usedLen, hdr, maxlen)) == if usedLen - hdr <= maxlen then usedLen - hdr else maxlen
  {
  }

  /** A used entry shorter than the header is not rejected: the unsigned
      subtraction wraps and the driver copies maxlen bytes. */
  lemma ShortFrameCopiesMaxlen(usedLen: U32, hdr: nat, maxlen: I32)
    requires 0 <= maxlen && usedLen < hdr <= NET_HDR_V1_SIZE
    ensures RecvLen(usedLen, hdr, maxlen) == maxlen
  {
  }

  /** The id virtionet_receive stores back into the avail ring:
      ((reported + 1) % size) - 1 as uint32, then truncated to 16 bits. */
  function RecycledId(reported: U32, qsize: nat): (back: U16)
    requires qsize > 0
    ensures back == 0xffff || back + 1 < qsize
  {
    ToU16(ToU32(ToU32(reported + 1) % qsize - 1))
  }

  /** For a head id the driver published (reported + 1 < size) the recycled
      id is the reported one. */
  lemma RecycledIdIsReported(reported: U32, qsize: nat)
    requires 0 < qsize <= MAX_QUEUE_SIZE && reported + 1 < qsize
    ensures RecycledId(reported, qsize) == reported
  {
    var next := ToU32(reported + 1);
    assert next == reported + 1;
    ModUnique(next, qsize, 0, next);
    var back := ToU32(next % qsize - 1);
    assert back == reported;
    assert ToU16(back) == reported;
  }

  /** An id in the last slot, or one congruent to it, comes back as 0xffff,
      which is outside every queue. */
  lemma RecycledIdOfLastSlot(reported: U32, qsize: nat)
    requires 0 < qsize <= MAX_QUEUE_SIZE && ToU32(reported + 1) % qsize == 0
    ensures RecycledId(reported, qsize) == 0xffff
    ensures RecycledId(reported, qsize) >= qsize
  {
  }

  // ---------------------------------------------------------------------
  // Initialisation outcome and the status it writes

  datatype InitPath = AlreadyRunning | NegotiationFailed | QueueInitFailed | RxAllocFailed | TxAllocFailed | Ready

  /** Which exit virtionet_init takes. */
  function NetInitPath(running: bool, modern: bool, negotiated: bool, queuesOk: bool,
                       rxAlloc: Option<nat>, txAlloc: Option<nat>): (p: InitPath)
    ensures p == Ready <==> !running && (modern ==> negotiated) && queuesOk && rxAlloc.Some? && txAlloc.Some?
    ensures p == AlreadyRunning <==> running
  {
    if running then AlreadyRunning
    else if modern && !negotiated then NegotiationFailed
    else if !queuesOk then QueueInitFailed
    else if rxAlloc.None? then RxAllocFailed
    else if txAlloc.None? then TxAllocFailed
    else Ready
  }

  /** The values virtionet_init writes to the status register.  hostStatus is
      what the device reports after feature negotiation on a VIRTIO 1.0 device. */
  function NetInitStatusWrites(path: InitPath, modern: bool, hostStatus: bv8): (w: seq<bv8>)
    ensures w == [] <==> path == AlreadyRunning
    ensures w != [] ==> |w| == 2 && w[0] == STAT_ACKNOWLEDGE | STAT_DRIVER
  {
    var first: bv8 := STAT_ACKNOWLEDGE | STAT_DRIVER;
    var later := if modern then hostStatus else first;
    match path
    case AlreadyRunning => []
    case NegotiationFailed => [first, Failed(first)]
    case QueueInitFailed => [first, STAT_ACKNOWLEDGE | STAT_DRIVER | STAT_FAILED]
    case RxAllocFailed => [first, Failed(later)]
    case TxAllocFailed => [first, Failed(later)]
    case Ready => [first, DriverReady(later)]
  }

  /** Every exit of virtionet_init except the early one for a running driver
      ends on a status with FAILED set, except the successful exit, which sets
      DRIVER_OK and FEATURES_OK. */
  lemma NetInitStatusOutcome(path: InitPath, modern: bool, hostStatus: bv8)
    ensures var w := NetInitStatusWrites(path, modern, hostStatus);
      && (path != AlreadyRunning && path != Ready ==> w[1] & STAT_FAILED == STAT_FAILED)
      && (path == QueueInitFailed ==> w[1] == STAT_ACKNOWLEDGE | STAT_DRIVER | STAT_FAILED)
      && (path == Ready ==> w[1] & (STAT_DRIVER_OK | STAT_FEATURES_OK) == STAT_DRIVER_OK | STAT_FEATURES_OK)
      && (path == Ready && !modern ==> w[1] == STAT_ACKNOWLEDGE | STAT_DRIVER | STAT_DRIVER_OK | STAT_FEATURES_OK)
  {
  }

  // ---------------------------------------------------------------------
  // The driver

  /** struct virtio_net with its driver fields; netHdrSize, lastRxIdx and
      lastTxIdx are file-scope globals in the source (one driver instance). */
  class VirtioNet {
    const dev: Device
    const rx: VirtQueue
    const tx: VirtQueue
    /** The bytes of the transmit pool, whose address is tx.bufMem. */
    const txMem: array<U8>
    const mac: array<U8>
    /** Addresses of the two all-zero static transmit headers. */
    const legacyHdrAddr: nat
    const v1HdrAddr: nat
    var running: bool
    var netHdrSize: nat
    var lastRxIdx: U16
    var lastTxIdx: U16

    ghost predicate Valid()
      reads this`netHdrSize, rx`trace, tx`trace
    {
      rx != tx && rx.desc != tx.desc && rx.ring != tx.ring &&
      rx.Valid() && tx.Valid() && rx.size == tx.size && rx.size >= 2 &&
      !Pending(rx.trace) && !Pending(tx.trace) &&
      txMem.Length == TxPoolSize(tx.size) && mac.Length == 6 && mac != txMem &&
      netHdrSize <= NET_HDR_V1_SIZE
    }

    /** Every receive buffer i of the pool at base is posted: slot 2i holds
        its header descriptor chained to slot 2i+1, which holds its data
        descriptor, and avail ring entry i names slot 2i. */
    ghost predicate RxPosted(base: nat)
      reads this`netHdrSize, rx.desc, rx.ring
    {
      netHdrSize <= NET_HDR_V1_SIZE && rx.desc.Length == rx.size && rx.ring.Length == rx.size && rx.size % 2 == 0 &&
      forall i :: 0 <= i < rx.size / 2 ==>
        rx.desc[2 * i] == RxHdrDesc(base, netHdrSize, i) &&
        rx.desc[2 * i + 1] == RxDataDesc(base, netHdrSize, i) &&
        rx.ring[i] == 2 * i
    }

    constructor (qsize: nat, features: bv64, legacyHdrAddr: nat, v1HdrAddr: nat)
      requires IsPow2(qsize) && 2 <= qsize <= MAX_QUEUE_SIZE
      ensures Valid() && !running && netHdrSize == 0 && lastRxIdx == 0
      ensures dev.features == features && rx.size == qsize
    {
      dev := new Device(features);
      rx := new VirtQueue(qsize);
      tx := new VirtQueue(qsize);
      txMem := new U8[TxPoolSize(qsize)](_ => 0);
      mac := new U8[6](_ => 0);
      this.legacyHdrAddr := legacyHdrAddr;
      this.v1HdrAddr := v1HdrAddr;
      running := false;
      netHdrSize := 0;
      lastRxIdx, lastTxIdx := 0, 0;
    }

    /** The transmit pool pointer as C uses it (NULL is address 0). */
    function TxBase(): nat
      reads tx
    {
      if tx.bufMem.Some? then tx.bufMem.value else 0
    }

    /** virtionet_init_pci and virtionet_init_mmio (identical): copy the
        device structure given by the transport, reset it and acknowledge it. */
    method InitTransport(src: Option<bv64>) returns (r: int)
      modifies dev
      ensures src.None? ==> r == -1 && unchanged(dev)
      ensures src.Some? ==> r == 0 && dev.features == src.value && dev.status == STAT_ACKNOWLEDGE
      ensures src.Some? ==> dev.statusLog == old(dev.statusLog) + [0, STAT_ACKNOWLEDGE]
      ensures dev.guestFeatures == old(dev.guestFeatures)
    {
      if src.None? {
        return -1;
      }
      dev.features := src.value;
      dev.Reset();
      dev.SetStatus(STAT_ACKNOWLEDGE);
      r := 0;
    }

    /** The receive-ring loop of virtionet_init: describe every receive
        buffer as a header/data pair of device-writable descriptors and make
        ring slot i point at pair i. */
    method FillRxRing(base: nat)
      requires rx.Valid() && rx.size >= 2 && netHdrSize <= NET_HDR_V1_SIZE
      modifies rx`trace, rx.desc, rx.ring
      ensures rx.Valid()
      ensures RxPosted(base)
      ensures forall i :: rx.size / 2 <= i < rx.size ==> rx.ring[i] == old(rx.ring[i])
      ensures rx.trace == old(rx.trace) + RxFillEvents(base, netHdrSize, rx.size / 2)
    {
      Pow2Halves(rx.size);
      var n, h := rx.size / 2, netHdrSize;
      ghost var d0, r0, t0 := rx.desc[..], rx.ring[..], rx.trace;
      var i := 0;
      while i < n
        invariant 0 <= i <= n && rx.Valid()
        invariant rx.desc[..] == RxPostedDescs(d0, base, h, i)
        invariant rx.ring[..] == RxPostedRing(r0, i)
        invariant rx.trace == t0 + RxFillEvents(base, h, i)
      {
        FillRxPair(base, i);
        i := i + 1;
      }
      RxPostedIntro(base, d0, r0);
    }

    /** The loop's final state, stated pointwise. */
    lemma RxPostedIntro(base: nat, d0: seq<Desc>, r0: seq<U16>)
      requires rx.Valid() && rx.size >= 2 && rx.size % 2 == 0 && netHdrSize <= NET_HDR_V1_SIZE
      requires |d0| == rx.size && |r0| == rx.size
      requires rx.desc[..] == RxPostedDescs(d0, base, netHdrSize, rx.size / 2)
      requires rx.ring[..] == RxPostedRing(r0, rx.size / 2)
      ensures RxPosted(base)
      ensures forall i :: rx.size / 2 <= i < rx.size ==> rx.ring[i] == r0[i]
    {
      RxPostedDescsContent(d0, base, netHdrSize, rx.size / 2);
      RxPostedRingContent(r0, rx.size / 2);
    }

    /** One iteration of the receive-ring loop: pair i and ring slot i. */
    method FillRxPair(base: nat, i: nat)
      requires rx.Valid() && 2 * i + 1 < rx.size && netHdrSize <= NET_HDR_V1_SIZE
      modifies rx`trace, rx.desc, rx.ring
      ensures rx.Valid()
      ensures rx.desc[..] == old(rx.desc[..])[2 * i := RxHdrDesc(base, netHdrSize, i)]
                                             [2 * i + 1 := RxDataDesc(base, netHdrSize, i)]
      ensures rx.ring[..] == old(rx.ring[..])[i := 2 * i]
      ensures rx.trace == old(rx.trace) +
        [DescWrite(2 * i, RxHdrDesc(base, netHdrSize, i)), DescWrite(2 * i + 1, RxDataDesc(base, netHdrSize, i)),
         RingWrite(i, 2 * i)]
    {
      var id := i * 2;
      rx.FillDesc(id, RxHdrDesc(base, netHdrSize, i));
      rx.FillDesc(id + 1, RxDataDesc(base, netHdrSize, i));
      rx.WriteRing(i, id);
    }

    /** The MAC read of virtionet_init: the address, byte by byte from configuration space. */
    method ReadMac(cfg: nat -> U8)
      requires mac.Length == 6
      modifies mac
      ensures mac[..] == [cfg(0), cfg(1), cfg(2), cfg(3), cfg(4), cfg(5)]
    {
      for i := 0 to 6
        invariant forall k :: 0 <= k < i ==> mac[k] == cfg(k)
      {
        mac[i] := cfg(i);
      }
    }

    /** The ring setup of virtionet_init once both pools exist: every receive
        buffer posted and published with a barrier before the idx store, and
        the transmit queue left empty with interrupts suppressed. */
    method ArmQueues(base: nat, rxUsedIdx: U16)
      requires Valid()
      modifies rx`trace, rx`availIdx, rx`availFlags, rx.desc, rx.ring, tx`trace, tx`availIdx, tx`availFlags,
               this`lastRxIdx
      ensures Valid()
      ensures RxPosted(base)
      ensures forall i :: rx.size / 2 <= i < rx.size ==> rx.ring[i] == old(rx.ring[i])
      ensures rx.availFlags == 0 && rx.availIdx == rx.size / 2 && lastRxIdx == rxUsedIdx
      ensures rx.trace == old(rx.trace) + RxFillEvents(base, netHdrSize, rx.size / 2)
                          + [MemBarrier, FlagsWrite(0), IdxWrite(rx.size / 2)]
      ensures tx.availFlags == AVAIL_F_NO_INTERRUPT && tx.availIdx == 0
      ensures tx.trace == old(tx.trace) + [FlagsWrite(AVAIL_F_NO_INTERRUPT), IdxWrite(0)]
    {
      FillRxRing(base);
      rx.Sync();
      rx.SetAvail(0, rx.size / 2);
      lastRxIdx := rxUsedIdx;
      tx.SetAvail(AVAIL_F_NO_INTERRUPT, 0);
    }

    /** What virtionet_init leaves behind, for the exit that the inputs
        select: the return value, the status writes, the guest features,
        running, the header size and the pool pointers; on every failure exit
        rings and MAC untouched, and on success every receive buffer posted
        and published behind a barrier, the transmit queue empty and the MAC
        read. */
    twostate predicate InitOutcome(negotiated: bool, hostStatus: bv8, rxQueueOk: bool, txQueueOk: bool,
                                   rxAlloc: Option<nat>, txAlloc: Option<nat>, rxUsedIdx: U16, cfg: nat -> U8,
                                   r: int)
      reads this, dev, rx, tx, rx.desc, rx.ring, tx.desc, tx.ring, mac
    {
      var modern := IsModern(old(dev.features));
      var path := NetInitPath(old(running), modern, negotiated, rxQueueOk && txQueueOk, rxAlloc, txAlloc);
      var w := NetInitStatusWrites(path, modern, hostStatus);
      && r == (if path == AlreadyRunning || path == Ready then 0 else -1)
      && dev.statusLog == old(dev.statusLog) + w
      && dev.status == (if w == [] then old(dev.status) else w[|w| - 1])
      && dev.guestFeatures == (if path != AlreadyRunning && !modern then 0 else old(dev.guestFeatures))
      && running == (old(running) || path == Ready)
      && netHdrSize == (if path == AlreadyRunning || path == NegotiationFailed then old(netHdrSize) else HdrSize(old(dev.features)))
      && rx.bufMem == (if path == RxAllocFailed || path == TxAllocFailed || path == Ready then rxAlloc else old(rx.bufMem))
      && tx.bufMem == (if path == TxAllocFailed || path == Ready then txAlloc else old(tx.bufMem))
      && (path != Ready ==>
            unchanged(rx`trace, rx`availIdx, rx`availFlags, tx`trace, tx`availIdx, tx`availFlags) &&
            unchanged(rx.desc, rx.ring, mac) && lastRxIdx == old(lastRxIdx))
      && (path == Ready ==>
            var base := rxAlloc.value;
            && rx.size <= MAX_QUEUE_SIZE
            && RxPosted(base)
            && (forall i :: rx.size / 2 <= i < rx.size ==> rx.ring[i] == old(rx.ring[i]))
            && rx.availFlags == 0 && rx.availIdx == rx.size / 2 && lastRxIdx == rxUsedIdx
            && rx.trace == old(rx.trace) + RxFillEvents(base, netHdrSize, rx.size / 2)
                           + [MemBarrier, FlagsWrite(0), IdxWrite(rx.size / 2), Notify]
            && tx.availFlags == AVAIL_F_NO_INTERRUPT && tx.availIdx == 0
            && tx.trace == old(tx.trace) + [FlagsWrite(AVAIL_F_NO_INTERRUPT), IdxWrite(0)]
            && unchanged(tx.desc, tx.ring)
            && mac[..] == [cfg(0), cfg(1), cfg(2), cfg(3), cfg(4), cfg(5)])
    }

    /** virtionet_init.  The host's side is given as inputs: whether feature
        negotiation succeeds and the status it then reports, whether the two
        queues initialise, what the two pool allocations return, the receive
        used idx, and the configuration space bytes. */
    method Init(negotiated: bool, hostStatus: bv8, rxQueueOk: bool, txQueueOk: bool,
                rxAlloc: Option<nat>, txAlloc: Option<nat>, rxUsedIdx: U16, cfg: nat -> U8)
      returns (r: int)
      requires Valid()
      modifies dev, rx`bufMem, rx`trace, rx`availIdx, rx`availFlags, rx.desc, rx.ring,
               tx`bufMem, tx`trace, tx`availIdx, tx`availFlags, mac, this`running, this`netHdrSize, this`lastRxIdx
      ensures Valid() && dev.features == old(dev.features)
      ensures InitOutcome(negotiated, hostStatus, rxQueueOk, txQueueOk, rxAlloc, txAlloc, rxUsedIdx, cfg, r)
    {
      if running {
        return 0;
      }
      r := Boot(negotiated, hostStatus, rxQueueOk, txQueueOk, rxAlloc, txAlloc, rxUsedIdx, cfg);
    }

    /** virtionet_init on a driver that is not yet running. */
    method Boot(negotiated: bool, hostStatus: bv8, rxQueueOk: bool, txQueueOk: bool,
                rxAlloc: Option<nat>, txAlloc: Option<nat>, rxUsedIdx: U16, cfg: nat -> U8)
      returns (r: int)
      requires Valid() && !running
      modifies dev, rx`bufMem, rx`trace, rx`availIdx, rx`availFlags, rx.desc, rx.ring,
               tx`bufMem, tx`trace, tx`availIdx, tx`availFlags, mac, this`running, this`netHdrSize, this`lastRxIdx
      ensures Valid() && dev.features == old(dev.features)
      ensures InitOutcome(negotiated, hostStatus, rxQueueOk, txQueueOk, rxAlloc, txAlloc, rxUsedIdx, cfg, r)
    {
      var ok, status := Prepare(negotiated, hostStatus, rxQueueOk && txQueueOk, rxAlloc, txAlloc);
      if !ok {
        return -1;
      }
      Finish(status, rxAlloc.value, rxUsedIdx, cfg);
      r := 0;
    }

    /** The successful tail of virtionet_init, ending with the MAC read. */
    method Finish(status: bv8, base: nat, rxUsedIdx: U16, cfg: nat -> U8)
      requires Valid()
      modifies dev, rx`trace, rx`availIdx, rx`availFlags, rx.desc, rx.ring, tx`trace, tx`availIdx, tx`availFlags,
               mac, this`running, this`lastRxIdx
      ensures Valid() && running
      ensures dev.statusLog == old(dev.statusLog) + [DriverReady(status)]
      ensures dev.status == DriverReady(status)
      ensures dev.features == old(dev.features) && dev.guestFeatures == old(dev.guestFeatures)
      ensures RxPosted(base)
      ensures forall i :: rx.size / 2 <= i < rx.size ==> rx.ring[i] == old(rx.ring[i])
      ensures rx.availFlags == 0 && rx.availIdx == rx.size / 2 && lastRxIdx == rxUsedIdx
      ensures rx.trace == old(rx.trace) + RxFillEvents(base, netHdrSize, rx.size / 2)
                          + [MemBarrier, FlagsWrite(0), IdxWrite(rx.size / 2), Notify]
      ensures tx.availFlags == AVAIL_F_NO_INTERRUPT && tx.availIdx == 0
      ensures tx.trace == old(tx.trace) + [FlagsWrite(AVAIL_F_NO_INTERRUPT), IdxWrite(0)]
      ensures mac[..] == [cfg(0), cfg(1), cfg(2), cfg(3), cfg(4), cfg(5)]
    {
      Start(status, base, rxUsedIdx);
      ReadMac(cfg);
    }

    /** virtionet_init up to the point where both pools exist: negotiation,
        queue set-up and allocation, with every failure exit.  On success
        only the first status write has happened. */
    method Prepare(negotiated: bool, hostStatus: bv8, queuesOk: bool, rxAlloc: Option<nat>, txAlloc: Option<nat>)
      returns (ok: bool, status: bv8)
      requires rx != tx
      modifies dev, rx`bufMem, tx`bufMem, this`netHdrSize
      ensures
        var modern := IsModern(old(dev.features));
        var path := NetInitPath(false, modern, negotiated, queuesOk, rxAlloc, txAlloc);
        var w := NetInitStatusWrites(path, modern, hostStatus);
        && ok == (path == Ready)
        && (ok ==> status == if modern then hostStatus else STAT_ACKNOWLEDGE | STAT_DRIVER)
        && dev.statusLog == old(dev.statusLog) + (if ok then [w[0]] else w)
        && dev.status == (if ok then w[0] else w[1])
        && dev.guestFeatures == (if !modern then 0 else old(dev.guestFeatures))
        && netHdrSize == (if path == NegotiationFailed then old(netHdrSize) else HdrSize(old(dev.features)))
        && rx.bufMem == (if path == RxAllocFailed || path == TxAllocFailed || path == Ready then rxAlloc else old(rx.bufMem))
        && tx.bufMem == (if path == TxAllocFailed || path == Ready then txAlloc else old(tx.bufMem))
      ensures dev.features == old(dev.features)
    {
      ok, status := Negotiate(negotiated, hostStatus);
      if !ok {
        return;
      }
      ok := SetUpQueues(status, queuesOk, rxAlloc, txAlloc);
    }

    /** The first steps of virtionet_init: announce ACKNOWLEDGE | DRIVER, then
        on a VIRTIO 1.0 device negotiate features (a refusal takes the
        dev_error exit, which reports status | FAILED) and read back the
        device status; a legacy device gets no guest features.  Either way
        the header size follows the kind of device. */
    method Negotiate(negotiated: bool, hostStatus: bv8) returns (ok: bool, status: bv8)
      modifies dev, this`netHdrSize
      ensures var modern := IsModern(dev.features);
        && ok == (!modern || negotiated)
        && (ok ==> status == if modern then hostStatus else STAT_ACKNOWLEDGE | STAT_DRIVER)
        && dev.statusLog == old(dev.statusLog) + [STAT_ACKNOWLEDGE | STAT_DRIVER] +
                            (if ok then [] else [Failed(STAT_ACKNOWLEDGE | STAT_DRIVER)])
        && dev.status == (if ok then STAT_ACKNOWLEDGE | STAT_DRIVER else Failed(STAT_ACKNOWLEDGE | STAT_DRIVER))
        && dev.guestFeatures == (if modern then old(dev.guestFeatures) else 0)
        && netHdrSize == (if ok then HdrSize(dev.features) else old(netHdrSize))
      ensures dev.features == old(dev.features)
    {
      status := STAT_ACKNOWLEDGE | STAT_DRIVER;
      dev.SetStatus(status);
      if IsModern(dev.features) {
        if !negotiated {
          status := Failed(status);
          dev.SetStatus(status);
          return false, status;
        }
        netHdrSize := NET_HDR_V1_SIZE;
        status := hostStatus;
      } else {
        netHdrSize := NET_HDR_SIZE;
        dev.SetGuestFeatures(0);
      }
      ok := true;
    }

    /** The queue setup of virtionet_init up to the rings: both queues must
        initialise (otherwise ACKNOWLEDGE | DRIVER | FAILED is reported), then
        the two pool allocations are each stored in their queue's buf_mem as
        soon as they return; the first that fails takes the dev_error exit,
        which reports status | FAILED. */
    method SetUpQueues(status: bv8, queuesOk: bool, rxAlloc: Option<nat>, txAlloc: Option<nat>)
      returns (ok: bool)
      requires rx != tx
      modifies dev, rx`bufMem, tx`bufMem
      ensures ok <==> queuesOk && rxAlloc.Some? && txAlloc.Some?
      ensures rx.bufMem == (if queuesOk then rxAlloc else old(rx.bufMem))
      ensures tx.bufMem == (if queuesOk && rxAlloc.Some? then txAlloc else old(tx.bufMem))
      ensures var failure := if queuesOk then Failed(status) else STAT_ACKNOWLEDGE | STAT_DRIVER | STAT_FAILED;
        && dev.statusLog == old(dev.statusLog) + (if ok then [] else [failure])
        && dev.status == (if ok then old(dev.status) else failure)
      ensures dev.features == old(dev.features) && dev.guestFeatures == old(dev.guestFeatures)
    {
      if !queuesOk {
        dev.SetStatus(STAT_ACKNOWLEDGE | STAT_DRIVER | STAT_FAILED);
        return false;
      }
      rx.bufMem := rxAlloc;
      if rxAlloc.None? {
        dev.SetStatus(Failed(status));
        return false;
      }
      tx.bufMem := txAlloc;
      if txAlloc.None? {
        dev.SetStatus(Failed(status));
        return false;
      }
      ok := true;
    }

    /** The successful tail of virtionet_init: arm both rings, report
        DRIVER_OK | FEATURES_OK on top of status, notify the receive queue,
        and mark the driver running. */
    method Start(status: bv8, base: nat, rxUsedIdx: U16)
      requires Valid()
      modifies dev, rx`trace, rx`availIdx, rx`availFlags, rx.desc, rx.ring, tx`trace, tx`availIdx, tx`availFlags,
               this`running, this`lastRxIdx
      ensures Valid() && running
      ensures dev.statusLog == old(dev.statusLog) + [DriverReady(status)]
      ensures dev.status == DriverReady(status)
      ensures dev.features == old(dev.features) && dev.guestFeatures == old(dev.guestFeatures)
      ensures RxPosted(base)
      ensures forall i :: rx.size / 2 <= i < rx.size ==> rx.ring[i] == old(rx.ring[i])
      ensures rx.availFlags == 0 && rx.availIdx == rx.size / 2 && lastRxIdx == rxUsedIdx
      ensures rx.trace == old(rx.trace) + RxFillEvents(base, netHdrSize, rx.size / 2)
                          + [MemBarrier, FlagsWrite(0), IdxWrite(rx.size / 2), Notify]
      ensures tx.availFlags == AVAIL_F_NO_INTERRUPT && tx.availIdx == 0
      ensures tx.trace == old(tx.trace) + [FlagsWrite(AVAIL_F_NO_INTERRUPT), IdxWrite(0)]
    {
      ArmQueues(base, rxUsedIdx);
      dev.SetStatus(DriverReady(status));
      rx.Kick();
      running := true;
    }

    /** virtionet_term: quiesce (status FAILED), reset, then drop the pools. */
    method Term() returns (r: int)
      requires Valid()
      modifies dev, rx`bufMem, tx`bufMem, this`running
      ensures Valid() && r == 0 && !running
      ensures !old(running) ==> unchanged(dev) && rx.bufMem == old(rx.bufMem) && tx.bufMem == old(tx.bufMem)
      ensures old(running) ==>
        dev.statusLog == old(dev.statusLog) + [STAT_FAILED, 0] && dev.status == 0 &&
        rx.bufMem == None && tx.bufMem == None
      ensures dev.features == old(dev.features) && dev.guestFeatures == old(dev.guestFeatures)
    {
      if !running {
        return 0;
      }
      dev.SetStatus(STAT_FAILED);
      dev.Reset();
      running := false;
      rx.bufMem := None;
      tx.bufMem := None;
      r := 0;
    }

    /** virtionet_xmit.  txUsedIdx is the transmit used idx the host holds. */
    method Xmit(buf: array<U8>, len: I32, txUsedIdx: U16) returns (r: I32)
      requires Valid() && 0 <= len && (len <= BUFFER_ENTRY_SIZE ==> len <= buf.Length) && buf != txMem
      modifies tx`trace, tx`availIdx, tx.desc, tx.ring, txMem, this`lastTxIdx
      ensures Valid()
      ensures len > BUFFER_ENTRY_SIZE ==>
        r == 0 && unchanged(tx, tx.desc, tx.ring, txMem) && lastTxIdx == old(lastTxIdx)
      ensures len <= BUFFER_ENTRY_SIZE ==>
        var idx := old(tx.availIdx);
        var id := TxHeadId(idx, tx.size);
        var off := TxBufOffset(idx, tx.size);
        var hdr := Desc(if IsModern(dev.features) then v1HdrAddr else legacyHdrAddr,
                        netHdrSize, DESC_F_NEXT, ToU16(id + 1));
        var data := Desc(TxBase() + off, len, 0, 0);
        && r == len
        && (forall k :: 0 <= k < txMem.Length ==>
              txMem[k] == if off <= k < off + len then buf[k - off] else old(txMem[k]))
        && tx.desc[..] == old(tx.desc[..])[id := hdr][id + 1 := data]
        && tx.ring[..] == old(tx.ring[..])[idx % tx.size := ToU16(id)]
        && tx.availIdx == ToU16(idx + 1)
        && lastTxIdx == txUsedIdx
        && tx.trace == old(tx.trace) +
             [BufferWrite(off, len), DescFree(id), DescFree(id + 1), DescWrite(id, hdr), DescWrite(id + 1, data),
              RingWrite(idx % tx.size, ToU16(id)), MemBarrier, IdxWrite(ToU16(idx + 1)), MemBarrier, Notify]
    {
      if len > BUFFER_ENTRY_SIZE {
        return 0;
      }
      var nethdr := if IsModern(dev.features) then v1HdrAddr else legacyHdrAddr;
      var idx := tx.availIdx;
      var id := TxHeadId(idx, tx.size);
      var off := TxBufOffset(idx, tx.size);
      var bufAddr := TxBase() + off;

      Send(buf, off, len, id, Desc(nethdr, netHdrSize, DESC_F_NEXT, ToU16(id + 1)), Desc(bufAddr, len, 0, 0),
               idx % tx.size, ToU16(idx + 1));

      lastTxIdx := txUsedIdx;
      r := len;
    }

    /** The body of a transmit once the frame is accepted: copy it into the
        pool at off, then set up and publish the chain at id. */
    method Send(buf: array<U8>, off: nat, len: nat, id: nat, hdr: Desc, data: Desc, pos: nat, newIdx: U16)
      requires tx.Valid() && len <= buf.Length && off + len <= txMem.Length && buf != txMem
      requires id + 1 < tx.size && pos < tx.size
      modifies txMem, tx`trace, tx`availIdx, tx.desc, tx.ring
      ensures forall k :: 0 <= k < txMem.Length ==>
        txMem[k] == if off <= k < off + len then buf[k - off] else old(txMem[k])
      ensures tx.Valid() && !Pending(tx.trace)
      ensures tx.desc[..] == old(tx.desc[..])[id := hdr][id + 1 := data]
      ensures tx.ring[..] == old(tx.ring[..])[pos := ToU16(id)] && tx.availIdx == newIdx
      ensures tx.trace == old(tx.trace) +
        [BufferWrite(off, len), DescFree(id), DescFree(id + 1), DescWrite(id, hdr), DescWrite(id + 1, data),
         RingWrite(pos, ToU16(id)), MemBarrier, IdxWrite(newIdx), MemBarrier, Notify]
    {
      CopyIn(buf, off, len);
      SubmitTx(id, hdr, data, pos, newIdx);
    }

    /** memcpy of the caller's frame into the transmit pool at off, recorded
        in the transmit trace. */
    method CopyIn(buf: array<U8>, off: nat, len: nat)
      requires tx.Valid() && len <= buf.Length && off + len <= txMem.Length && buf != txMem
      modifies txMem, tx`trace
      ensures forall k :: 0 <= k < txMem.Length ==>
        txMem[k] == if off <= k < off + len then buf[k - off] else old(txMem[k])
      ensures tx.Valid() && tx.trace == old(tx.trace) + [BufferWrite(off, len)]
    {
      forall k | 0 <= k < len {
        txMem[off + k] := buf[k];
      }
      tx.NoteBufferWrite(off, len);
    }

    /** The queue side of a transmit: free the two slots of the previous
        chain at id, write the header and data descriptors of the new one,
        publish its head at ring slot pos and fence again after the avail
        idx store. */
    method SubmitTx(id: nat, hdr: Desc, data: Desc, pos: nat, newIdx: U16)
      requires tx.Valid() && id + 1 < tx.size && pos < tx.size
      modifies tx`trace, tx`availIdx, tx.desc, tx.ring
      ensures tx.Valid() && !Pending(tx.trace)
      ensures tx.desc[..] == old(tx.desc[..])[id := hdr][id + 1 := data]
      ensures tx.ring[..] == old(tx.ring[..])[pos := ToU16(id)] && tx.availIdx == newIdx
      ensures tx.trace == old(tx.trace) +
        [DescFree(id), DescFree(id + 1), DescWrite(id, hdr), DescWrite(id + 1, data),
         RingWrite(pos, ToU16(id)), MemBarrier, IdxWrite(newIdx), MemBarrier, Notify]
    {
      SetTxChain(id, hdr, data);
      tx.Publish(pos, ToU16(id), newIdx);
      tx.Sync();
      tx.Kick();
    }

    /** Free the two slots of the previous transmit chain at id and write the
        header and data descriptors of the new one. */
    method SetTxChain(id: nat, hdr: Desc, data: Desc)
      requires tx.Valid() && id + 1 < tx.size
      modifies tx`trace, tx.desc
      ensures tx.Valid() && tx.desc[..] == old(tx.desc[..])[id := hdr][id + 1 := data]
      ensures tx.trace == old(tx.trace) + [DescFree(id), DescFree(id + 1), DescWrite(id, hdr), DescWrite(id + 1, data)]
    {
      tx.FreeDesc(id);
      tx.FreeDesc(id + 1);
      tx.FillDesc(id, hdr);
      tx.FillDesc(id + 1, data);
    }

    /** virtionet_receive_check: the raw used length of the next completion
        (header included), or 0 when the host has published nothing new. */
    method ReceiveCheck(used: UsedRing) returns (len: U32)
      requires Valid() && |used.ring| == rx.size
      ensures lastRxIdx == used.idx ==> len == 0
      ensures lastRxIdx != used.idx ==> len == used.ring[lastRxIdx % rx.size].len
    {
      var idx := used.idx;
      if lastRxIdx == idx {
        return 0;
      }
      len := used.ring[lastRxIdx % rx.size].len;
    }

    /** virtionet_receive.  devAddr is what virtio_desc_addr yields for the
        data descriptor the reported id points at, and mem the bytes there. */
    method Receive(buf: array<U8>, maxlen: I32, used: UsedRing, devAddr: nat, mem: nat -> U8)
      returns (r: int)
      requires Valid() && |used.ring| == rx.size && ToU32(maxlen) <= buf.Length
      modifies rx`trace, rx`availIdx, rx.ring, buf, this`lastRxIdx
      ensures Valid()
      ensures old(lastRxIdx) == used.idx ==>
        r == 0 && unchanged(rx, rx.ring, buf) && lastRxIdx == old(lastRxIdx)
      ensures old(lastRxIdx) != used.idx ==>
        var e := used.ring[old(lastRxIdx) % rx.size];
        var len := RecvLen(e.len, netHdrSize, maxlen);
        var slot := old(rx.availIdx) % rx.size;
        var back := RecycledId(e.id, rx.size);
        && r == ToInt32(len)
        && (forall k :: 0 <= k < buf.Length ==> buf[k] == if k < len then mem(devAddr + k) else old(buf[k]))
        && lastRxIdx == ToU16(old(lastRxIdx) + 1)
        && rx.availIdx == ToU16(old(rx.availIdx) + 1)
        && rx.ring[..] == old(rx.ring[..])[slot := back]
        && rx.trace == old(rx.trace) +
             [BufferRead(devAddr, len), RingWrite(slot, back), MemBarrier, IdxWrite(ToU16(old(rx.availIdx) + 1)), Notify]
    {
      var idx := used.idx;
      if lastRxIdx == idx {
        return 0;
      }
      var e := used.ring[lastRxIdx % rx.size];
      var id := ToU32(e.id + 1) % rx.size;
      var len := ToU32(e.len - netHdrSize);
      if len > ToU32(maxlen) {
        len := ToU32(maxlen);
      }

      var availIdx := rx.availIdx;
      Consume(buf, len, devAddr, mem, availIdx % rx.size, ToU16(ToU32(id - 1)), ToU16(availIdx + 1));
      lastRxIdx := ToU16(lastRxIdx + 1);
      r := ToInt32(len);
    }

    /** The body of a receive once a completion is there: copy the frame
        out, and only then hand its descriptor back at ring slot pos,
        publish it and notify. */
    method Consume(buf: array<U8>, len: nat, devAddr: nat, mem: nat -> U8, pos: nat, back: U16, newIdx: U16)
      requires rx.Valid() && len <= buf.Length && pos < rx.size
      modifies buf, rx`trace, rx`availIdx, rx.ring
      ensures forall k :: 0 <= k < buf.Length ==> buf[k] == if k < len then mem(devAddr + k) else old(buf[k])
      ensures rx.Valid() && !Pending(rx.trace)
      ensures rx.ring[..] == old(rx.ring[..])[pos := back] && rx.availIdx == newIdx
      ensures rx.trace == old(rx.trace) + [BufferRead(devAddr, len), RingWrite(pos, back), MemBarrier, IdxWrite(newIdx), Notify]
    {
      CopyOut(buf, len, devAddr, mem);
      rx.Publish(pos, back, newIdx);
      rx.Kick();
    }

    /** memcpy of len bytes at devAddr into the caller's buffer, recorded in
        the receive trace. */
    method CopyOut(buf: array<U8>, len: nat, devAddr: nat, mem: nat -> U8)
      requires rx.Valid() && len <= buf.Length
      modifies buf, rx`trace
      ensures forall k :: 0 <= k < buf.Length ==> buf[k] == if k < len then mem(devAddr + k) else old(buf[k])
      ensures rx.Valid() && rx.trace == old(rx.trace) + [BufferRead(devAddr, len)]
      ensures Pending(rx.trace) == old(Pending(rx.trace))
    {
      forall k | 0 <= k < len {
        buf[k] := mem(devAddr + k);
      }
      rx.NoteBufferRead(devAddr, len);
    }
  }

  /** virtionet_read: -1 for a missing handle or buffer, else virtionet_receive. */
  method Read(vnet: VirtioNet?, buf: array?<U8>, len: I32, used: UsedRing, devAddr: nat, mem: nat -> U8)
    returns (r: int)
    requires vnet != null && buf != null ==>
      vnet.Valid() && |used.ring| == vnet.rx.size && ToU32(len) <= buf.Length
    modifies if vnet != null && buf != null then {vnet, vnet.rx, vnet.rx.ring, buf} else {}
    ensures vnet == null || buf == null ==> r == -1
    ensures vnet != null && buf != null ==> vnet.Valid() && r <= ToU32(len)
  {
    if vnet != null && buf != null {
      r := vnet.Receive(buf, len, used, devAddr, mem);
    } else {
      r := -1;
    }
  }

  /** virtionet_write: -1 for a missing handle or buffer, else virtionet_xmit. */
  method Write(vnet: VirtioNet?, buf: array?<U8>, len: I32, txUsedIdx: U16) returns (r: int)
    requires vnet != null && buf != null ==>
      vnet.Valid() && 0 <= len && (len <= BUFFER_ENTRY_SIZE ==> len <= buf.Length) && buf != vnet.txMem
    modifies if vnet != null && buf != null then {vnet, vnet.tx, vnet.tx.desc, vnet.tx.ring, vnet.txMem} else {}
    ensures vnet == null || buf == null ==> r == -1
    ensures vnet != null && buf != null ==> vnet.Valid() && r == (if len > BUFFER_ENTRY_SIZE then 0 else len)
  {
    if vnet != null && buf != null {
      r := vnet.Xmit(buf, len, txUsedIdx);
    } else {
      r := -1;
    }
  }
}
