/** Definitions shared by the virtio block and network drivers: fixed-width
    integers, the device status and feature bits, the descriptor record, the
    host-owned used ring, the device object and the driver-side virtqueue.

    The transport primitives the drivers call (virtio_fill_desc,
    virtio_free_desc, virtio_set_status, virtio_reset_device, ...) are modelled
    only by the state change they make.  Every write a driver makes to a queue,
    every copy into or out of a buffer the host shares, and every memory
    barrier (sync()/mb()), is recorded in the queue's ghost trace, so that
    the rule "barrier before the avail idx store" (section 3.2.1 of VIRTIO
    1.0) can be stated and enforced, and so that the order of a driver's
    copies against its ring updates is part of each operation's contract. */
module Virtio {

  type U8 = x: int | 0 <= x < 0x100
  type U16 = x: int | 0 <= x < 0x1_0000
  type U32 = x: int | 0 <= x < 0x1_0000_0000
  type U64 = x: int | 0 <= x < 0x1_0000_0000_0000_0000
  /** C's int and long. */
  type I32 = x: int | -0x8000_0000 <= x < 0x8000_0000
  type I64 = x: int | -0x8000_0000_0000_0000 <= x < 0x8000_0000_0000_0000

  /** Truncating conversions, as C performs them when a wider value is stored
      into an unsigned field or parameter (Dafny's % never yields a negative
      value, which is exactly the unsigned wrap-around). */
  function ToU16(x: int): U16 { x % 0x1_0000 }
  function ToU32(x: int): U32 { x % 0x1_0000_0000 }
  function ToU64(x: int): U64 { x % 0x1_0000_0000_0000_0000 }

  /** The int value of a 32-bit pattern (two's complement). */
  function ToInt32(x: U32): int { if x < 0x8000_0000 then x else x - 0x1_0000_0000 }

  datatype Option<T> = None | Some(value: T)

  // Device status bits (section 2.1 of VIRTIO 1.0).
  const STAT_ACKNOWLEDGE: bv8 := 1
  const STAT_DRIVER: bv8 := 2
  const STAT_DRIVER_OK: bv8 := 4
  const STAT_FEATURES_OK: bv8 := 8
  const STAT_FAILED: bv8 := 128

  /** status | FAILED: the driver has given up on the device. */
  function Failed(s: bv8): (r: bv8)
    ensures r & STAT_FAILED == STAT_FAILED
  {
    s | STAT_FAILED
  }

  /** status | DRIVER_OK | FEATURES_OK: the driver is ready to drive it. */
  function DriverReady(s: bv8): (r: bv8)
    ensures r & (STAT_DRIVER_OK | STAT_FEATURES_OK) == STAT_DRIVER_OK | STAT_FEATURES_OK
  {
    s | STAT_DRIVER_OK | STAT_FEATURES_OK
  }

  /** Feature bit 32: the device speaks VIRTIO 1.0 rather than the legacy layout. */
  const F_VERSION_1: bv64 := 0x1_0000_0000

  // Descriptor flags (section 2.4.5 of VIRTIO 1.0) and avail ring flag (2.4.6).
  const DESC_F_NEXT: bv16 := 1
  const DESC_F_WRITE: bv16 := 2
  const AVAIL_F_NO_INTERRUPT: U16 := 1

  /** Largest queue size the standard allows for a split virtqueue. */
  const MAX_QUEUE_SIZE := 32768

  predicate IsModern(features: bv64) { features & F_VERSION_1 != 0 }

  /** One entry of the descriptor table: (addr, len, flags, next). */
  datatype Desc = Desc(addr: nat, len: U32, flags: bv16, next: U16)

  /** What virtio_free_desc leaves in a slot. */
  const EmptyDesc := Desc(0, 0, 0, 0)

  /** The host-written used ring (section 2.4.8): entries (id, len) and the idx
      the host publishes.  Drivers only ever read it, so it is an input. */
  datatype UsedElem = UsedElem(id: U32, len: U32)
  datatype UsedRing = UsedRing(idx: U16, ring: seq<UsedElem>)

  predicate IsPow2(n: nat)
    decreases n
  {
    if n <= 1 then n == 1 else n % 2 == 0 && IsPow2(n / 2)
  }

  /** A queue size of two or more is even, and of four or more has an even half. */
  lemma Pow2Halves(n: nat)
    requires IsPow2(n) && n >= 2
    ensures n % 2 == 0 && IsPow2(n / 2)
    ensures n >= 4 ==> (n / 2) % 2 == 0
  {
    if n >= 4 {
      assert IsPow2(n / 2);
      assert n / 2 >= 2;
    }
  }

  /** No power of two is a multiple of three. */
  lemma {:induction false} Pow2NotMultipleOf3(n: nat)
    requires IsPow2(n)
    ensures n % 3 != 0
  {
    if n > 1 {
      Pow2NotMultipleOf3(n / 2);
    }
  }

  // ---------------------------------------------------------------------
  // The write trace and the barrier discipline

  datatype Event =
    | DescWrite(id: nat, d: Desc)      // virtio_fill_desc
    | DescFree(id: nat)                // virtio_free_desc
    | RingWrite(pos: nat, val: U16)    // avail->ring[pos] := val
    | BufferWrite(offset: nat, len: nat)  // a store into a driver buffer the host reads
    | BufferRead(addr: nat, len: nat)     // memcpy out of a buffer the host has filled
    | MemBarrier                       // sync() / mb()
    | FlagsWrite(val: U16)             // avail->flags := val
    | IdxWrite(val: U16)               // avail->idx := val
    | Notify                           // virtio_queue_notify

  /** Writes the host may read once it sees a new avail idx. */
  predicate IsDataWrite(e: Event) {
    e.DescWrite? || e.DescFree? || e.RingWrite? || e.BufferWrite?
  }

  /** Some data write in t is not yet followed by a barrier. */
  predicate Pending(t: seq<Event>)
    decreases |t|
  {
    if t == [] then false
    else
      var e := t[|t| - 1];
      if e.MemBarrier? then false
      else if IsDataWrite(e) then true
      else Pending(t[..|t| - 1])
  }

  /** Every avail idx store in t comes when no data write is pending. */
  predicate Disciplined(t: seq<Event>)
    decreases |t|
  {
    t == [] || (Disciplined(t[..|t| - 1]) && (t[|t| - 1].IdxWrite? ==> !Pending(t[..|t| - 1])))
  }

  lemma Snoc(t: seq<Event>, e: Event)
    ensures Pending(t + [e]) == (if e.MemBarrier? then false else if IsDataWrite(e) then true else Pending(t))
    ensures Disciplined(t + [e]) == (Disciplined(t) && (e.IdxWrite? ==> !Pending(t)))
  {
    assert (t + [e])[..|t|] == t;
  }

  lemma {:induction false} NotPendingHasBarrier(t: seq<Event>, i: nat)
    requires !Pending(t) && i < |t| && IsDataWrite(t[i])
    ensures exists k :: i < k < |t| && t[k].MemBarrier?
    decreases |t|
  {
    var last := |t| - 1;
    if t[last].MemBarrier? {
      assert i < last;
    } else {
      assert i != last;
      NotPendingHasBarrier(t[..last], i);
      var k :| i < k < last && t[..last][k].MemBarrier?;
      assert t[k].MemBarrier?;
    }
  }

  /** The ordering rule of section 3.2.1 of VIRTIO 1.0, stated over a whole
      trace: between any descriptor, ring or buffer write and a later avail
      idx store there is a memory barrier. */
  lemma {:induction false} BarrierBeforePublish(t: seq<Event>, i: nat, j: nat)
    requires Disciplined(t) && i < j < |t| && IsDataWrite(t[i]) && t[j].IdxWrite?
    ensures exists k :: i < k < j && t[k].MemBarrier?
    decreases |t|
  {
    var last := |t| - 1;
    var p := t[..last];
    if j == last {
      NotPendingHasBarrier(p, i);
      var k :| i < k < |p| && p[k].MemBarrier?;
      assert t[k].MemBarrier?;
    } else {
      BarrierBeforePublish(p, i, j);
      var k :| i < k < j && p[k].MemBarrier?;
      assert t[k].MemBarrier?;
    }
  }

  // ---------------------------------------------------------------------
  // State

  /** The descriptor table after writing d at id; a write at an id outside the
      table leaves the table as it was (the trace still records it). */
  function Store(s: seq<Desc>, id: nat, d: Desc): (r: seq<Desc>)
    ensures |r| == |s|
  {
    if id < |s| then s[id := d] else s
  }

  /** One virtio device as the driver sees it: the status byte, the feature
      bits in use and the guest features it declared.  statusLog is every
      value the driver's own virtio_set_status and virtio_reset_device calls
      wrote to the status register, in order; the writes made inside
      virtio_negotiate_guest_features are not part of it. */
  class Device {
    var status: bv8
    var features: bv64
    var guestFeatures: bv64
    ghost var statusLog: seq<bv8>

    constructor (features: bv64)
      ensures this.features == features && status == 0 && guestFeatures == 0 && statusLog == []
    {
      this.features := features;
      status := 0;
      guestFeatures := 0;
      statusLog := [];
    }

    /** virtio_set_status. */
    method SetStatus(s: bv8)
      modifies this`status, this`statusLog
      ensures status == s && statusLog == old(statusLog) + [s]
    {
      status := s;
      statusLog := statusLog + [s];
    }

    /** virtio_reset_device: writing 0 to the status register resets the device. */
    method Reset()
      modifies this`status, this`statusLog
      ensures status == 0 && statusLog == old(statusLog) + [0]
    {
      status := 0;
      statusLog := statusLog + [0];
    }

    /** virtio_set_guest_features (legacy devices). */
    method SetGuestFeatures(f: bv64)
      modifies this`guestFeatures
      ensures guestFeatures == f
    {
      guestFeatures := f;
    }
  }

  /** The driver's side of one split virtqueue: the descriptor table, the
      avail ring with its flags and idx, and the buffer pool pointer
      (vqs.buf_mem).  16-bit fields hold 16-bit values; the modern16
      byte-order conversions are taken as the identity. */
  class VirtQueue {
    const size: nat
    const desc: array<Desc>
    const ring: array<U16>
    var availFlags: U16
    var availIdx: U16
    var bufMem: Option<nat>
    ghost var trace: seq<Event>

    ghost predicate Valid()
      reads this`trace
    {
      IsPow2(size) && size <= MAX_QUEUE_SIZE &&
      desc.Length == size && ring.Length == size &&
      Disciplined(trace)
    }

    constructor (size: nat)
      requires IsPow2(size) && size <= MAX_QUEUE_SIZE
      ensures Valid() && this.size == size && fresh(desc) && fresh(ring)
      ensures forall k :: 0 <= k < size ==> desc[k] == EmptyDesc && ring[k] == 0
      ensures availFlags == 0 && availIdx == 0 && bufMem == None && trace == []
    {
      this.size := size;
      desc := new Desc[size](_ => EmptyDesc);
      ring := new U16[size](_ => 0);
      availFlags, availIdx := 0, 0;
      bufMem := None;
      trace := [];
    }

    /** virtio_fill_desc. */
    method FillDesc(id: nat, d: Desc)
      requires Valid()
      modifies this`trace, desc
      ensures Valid() && desc[..] == Store(old(desc[..]), id, d)
      ensures trace == old(trace) + [DescWrite(id, d)] && Pending(trace)
    {
      if id < desc.Length {
        desc[id] := d;
      }
      Snoc(trace, DescWrite(id, d));
      trace := trace + [DescWrite(id, d)];
    }

    /** virtio_free_desc. */
    method FreeDesc(id: nat)
      requires Valid()
      modifies this`trace, desc
      ensures Valid() && desc[..] == Store(old(desc[..]), id, EmptyDesc)
      ensures trace == old(trace) + [DescFree(id)] && Pending(trace)
    {
      if id < desc.Length {
        desc[id] := EmptyDesc;
      }
      Snoc(trace, DescFree(id));
      trace := trace + [DescFree(id)];
    }

    /** avail->ring[pos] := val. */
    method WriteRing(pos: nat, val: U16)
      requires Valid() && pos < size
      modifies this`trace, ring
      ensures Valid() && ring[..] == old(ring[..])[pos := val]
      ensures trace == old(trace) + [RingWrite(pos, val)] && Pending(trace)
    {
      ring[pos] := val;
      Snoc(trace, RingWrite(pos, val));
      trace := trace + [RingWrite(pos, val)];
    }

    /** A copy into a buffer the host will read, recorded for ordering only. */
    method NoteBufferWrite(offset: nat, len: nat)
      requires Valid()
      modifies this`trace
      ensures Valid() && trace == old(trace) + [BufferWrite(offset, len)] && Pending(trace)
    {
      Snoc(trace, BufferWrite(offset, len));
      trace := trace + [BufferWrite(offset, len)];
    }

    /** A copy out of a buffer the host filled, recorded for ordering only:
        a read does not need a barrier before the next avail idx store. */
    method NoteBufferRead(addr: nat, len: nat)
      requires Valid()
      modifies this`trace
      ensures Valid() && trace == old(trace) + [BufferRead(addr, len)] && Pending(trace) == old(Pending(trace))
    {
      Snoc(trace, BufferRead(addr, len));
      trace := trace + [BufferRead(addr, len)];
    }

    /** sync() / mb(). */
    method Sync()
      requires Valid()
      modifies this`trace
      ensures Valid() && trace == old(trace) + [MemBarrier] && !Pending(trace)
    {
      Snoc(trace, MemBarrier);
      trace := trace + [MemBarrier];
    }

    /** avail->flags := val. */
    method WriteFlags(val: U16)
      requires Valid()
      modifies this`trace, this`availFlags
      ensures Valid() && availFlags == val
      ensures trace == old(trace) + [FlagsWrite(val)] && Pending(trace) == old(Pending(trace))
    {
      availFlags := val;
      Snoc(trace, FlagsWrite(val));
      trace := trace + [FlagsWrite(val)];
    }

    /** avail->idx := val: publishes the ring entries before it.  Allowed only
        when every earlier data write is behind a barrier. */
    method PublishIdx(val: U16)
      requires Valid() && !Pending(trace)
      modifies this`trace, this`availIdx
      ensures Valid() && availIdx == val
      ensures trace == old(trace) + [IdxWrite(val)] && !Pending(trace)
    {
      availIdx := val;
      Snoc(trace, IdxWrite(val));
      trace := trace + [IdxWrite(val)];
    }

    /** avail->flags := flags, then avail->idx := idx: how a driver opens a
        queue once every descriptor it posts is behind a barrier. */
    method SetAvail(flags: U16, idx: U16)
      requires Valid() && !Pending(trace)
      modifies this`trace, this`availFlags, this`availIdx
      ensures Valid() && availFlags == flags && availIdx == idx
      ensures trace == old(trace) + [FlagsWrite(flags), IdxWrite(idx)] && !Pending(trace)
    {
      WriteFlags(flags);
      PublishIdx(idx);
    }

    /** Publish one chain head (section 3.2.1 of VIRTIO 1.0): write it to
        ring slot pos, issue a barrier, then store the new avail idx. */
    method Publish(pos: nat, head: U16, newIdx: U16)
      requires Valid() && pos < size
      modifies this`trace, this`availIdx, ring
      ensures Valid() && ring[..] == old(ring[..])[pos := head] && availIdx == newIdx
      ensures trace == old(trace) + [RingWrite(pos, head), MemBarrier, IdxWrite(newIdx)] && !Pending(trace)
    {
      WriteRing(pos, head);
      Sync();
      PublishIdx(newIdx);
    }

    /** virtio_queue_notify. */
    method Kick()
      requires Valid()
      modifies this`trace
      ensures Valid() && trace == old(trace) + [Notify] && Pending(trace) == old(Pending(trace))
    {
      Snoc(trace, Notify);
      trace := trace + [Notify];
    }
  }
}
