/** The receive queue of a socket (lib/net.c): frames kept as variable-length records in a byte ring. */
module RxQueue {

  const SIZE := 512              // NET_SKBUF_SIZE
  const HEADER_SIZE := 14        // sizeof(struct ethhdr)
  const STAMP_SIZE := 24         // sizeof(struct hw_timestamp)
  const MAX_PAYLOAD := 480       // NET_SKBUF_SIZE - 32

  type byte = x: int | 0 <= x < 256

  type Bytes = seq<byte>

  /** What update_rx_queues stores for one frame. */
  datatype Frame = Frame(header: Bytes, stamp: Bytes, payload: Bytes) {
    predicate WellSized() {
      |header| == HEADER_SIZE && |stamp| == STAMP_SIZE && |payload| <= MAX_PAYLOAD
    }
  }

  function EncodeSize(n: nat): Bytes
    requires n <= MAX_PAYLOAD
  {
    [n / 256, n % 256]
  }

  function DecodeSize(b: Bytes): nat
    requires |b| == 2
  {
    (b[0] as int) * 256 + b[1]
  }

  function Encode(f: Frame): Bytes
    requires f.WellSized()
  {
    EncodeSize(|f.payload|) + (f.header + (f.stamp + f.payload))
  }

  predicate AllWellSized(fs: seq<Frame>) { forall i :: 0 <= i < |fs| ==> fs[i].WellSized() }

  function EncodeAll(fs: seq<Frame>): Bytes
    requires AllWellSized(fs)
  {
    if fs == [] then [] else Encode(fs[0]) + EncodeAll(fs[1..])
  }

  lemma {:induction false} EncodeSnoc(fs: seq<Frame>, f: Frame)
    requires AllWellSized(fs) && f.WellSized()
    ensures EncodeAll(fs + [f]) == EncodeAll(fs) + Encode(f)
  {
    if fs != [] {
      EncodeSnoc(fs[1..], f);
      assert (fs + [f])[1..] == fs[1..] + [f];
    }
  }

  lemma Reassociate(a: Bytes, b: Bytes, c: Bytes, d: Bytes, e: Bytes)
    ensures (a + (b + (c + d))) + e == a + (b + (c + (d + e)))
    ensures (((a + b) + c) + d) + e == a + (b + (c + (d + e)))
  {
  }

  // ----- the ring -----

  function Next(i: nat): nat { if i + 1 == SIZE then 0 else i + 1 }

  /** The index `len` places behind `start`. */
  function Behind(start: nat, len: nat): nat { if start + len < SIZE then start + len else start + len - SIZE }

  /** The `len` bytes from `start` on, around the end of the buffer. */
  function Ring(buf: Bytes, start: nat, len: nat): (r: Bytes)
    requires |buf| == SIZE && start < SIZE
    ensures |r| == len
    decreases len
  {
    if len == 0 then [] else [buf[start]] + Ring(buf, Next(start), len - 1)
  }

  /** Writing just behind a ring that is not full appends to it. */
  lemma {:induction false} RingAppend(buf: Bytes, start: nat, len: nat, x: byte)
    requires |buf| == SIZE && start < SIZE && len < SIZE
    ensures Ring(buf[Behind(start, len) := x], start, len + 1) == Ring(buf, start, len) + [x]
    decreases len
  {
    if len > 0 { RingAppend(buf, Next(start), len - 1, x); }
  }

  lemma Front(a: Bytes, b: Bytes)
    ensures (a + b)[..|a|] == a && (a + b)[|a|..] == b
  {
  }

  class SockQueue {
    const buf: array<byte>
    var head: nat
    var tail: nat
    var avail: nat
    var n: nat
    ghost var frames: seq<Frame>

    /** the queue part of ptpd_netif_create_socket */
    constructor ()
      ensures Valid() && frames == [] && avail == SIZE && fresh(buf)
    {
      buf := new byte[SIZE](i => 0);
      head, tail, avail, n, frames := 0, 0, SIZE, 0, [];
    }

    /** Head, tail and free space agree. */
    ghost predicate Consistent()
      reads this
    {
      && buf.Length == SIZE && tail < SIZE && avail <= SIZE
      && head == Behind(tail, SIZE - avail)
    }

    /** Everything stored and not yet read. */
    ghost function Stored(): Bytes
      requires Consistent()
      reads this, buf
    {
      Ring(buf[..], tail, SIZE - avail)
    }

    /** The stored bytes are the encodings of the queued frames, in order. */
    ghost predicate Valid()
      reads this, buf
    {
      && Consistent() && AllWellSized(frames)
      && n == |frames| && Stored() == EncodeAll(frames)
    }

    /** wrap_copy_out: puts bytes at the head */
    method CopyOut(src: Bytes)
      requires Consistent() && |src| <= avail
      modifies this, buf
      ensures Consistent() && Stored() == old(Stored()) + src
      ensures avail == old(avail) - |src| && tail == old(tail) && n == old(n) && frames == old(frames)
    {
      var i := 0;
      while i < |src|
        invariant 0 <= i <= |src| && Consistent() && avail == old(avail) - i
        invariant Stored() == old(Stored()) + src[..i]
        invariant tail == old(tail) && n == old(n) && frames == old(frames)
      {
        RingAppend(buf[..], tail, SIZE - avail, src[i]);
        ghost var before := buf[..];
        buf[head] := src[i];
        assert buf[..] == before[head := src[i]];
        head := head + 1;
        if head == SIZE { head := 0; }
        avail := avail - 1;
        i := i + 1;
        assert src[..i] == src[..i - 1] + [src[i - 1]];
      }
      assert src[..i] == src;
    }

    /** wrap_copy_in: takes bytes from the tail */
    method CopyIn(len: nat) returns (dst: Bytes)
      requires Consistent() && len <= SIZE - avail
      modifies this
      ensures Consistent() && dst == old(Stored())[..len] && Stored() == old(Stored())[len..]
      ensures avail == old(avail) + len && n == old(n) && frames == old(frames)
    {
      dst := [];
      ghost var all := Stored();
      var i := 0;
      while i < len
        invariant 0 <= i <= len && Consistent() && avail == old(avail) + i
        invariant dst == all[..i] && Stored() == all[i..]
        invariant n == old(n) && frames == old(frames)
      {
        assert Stored() == [buf[tail]] + Ring(buf[..], Next(tail), SIZE - avail - 1);
        dst := dst + [buf[tail]];
        tail := tail + 1;
        if tail == SIZE { tail := 0; }
        avail := avail + 1;
        i := i + 1;
      }
    }

    /** The storing part of update_rx_queues: a frame that does not fit is dropped. */
    method Enqueue(f: Frame) returns (stored: bool)
      requires Valid() && f.WellSized()
      modifies this, buf
      ensures Valid()
      ensures stored <==> |Encode(f)| <= old(avail)
      ensures frames == if stored then old(frames) + [f] else old(frames)
    {
      hide EncodeAll, Ring;
      var required := HEADER_SIZE + |f.payload| + STAMP_SIZE + 2;
      if avail < required { return false; }
      EncodeSnoc(frames, f);
      ghost var before, size := Stored(), EncodeSize(|f.payload|);
      CopyOut(EncodeSize(|f.payload|));
      CopyOut(f.header);
      CopyOut(f.stamp);
      CopyOut(f.payload);
      Reassociate(before, size, f.header, f.stamp, f.payload);
      n := n + 1;
      frames := frames + [f];
      return true;
    }

    /** ptpd_netif_recvfrom: the oldest frame, its data cut to the caller's buffer. The queue survives
        exactly when the buffer takes the whole stored frame. */
    method Receive(dataLength: nat) returns (got: bool, header: Bytes, stamp: Bytes, data: Bytes, ret: int)
      requires Valid() && dataLength < 0x1_0000_0000
      modifies this
      ensures got <==> old(frames) != []
      ensures !got ==> Valid() && frames == old(frames) && ret == 0
      ensures got ==>
        var f := old(frames)[0];
        && header == f.header && stamp == f.stamp
        && data == f.payload[..Min(|f.payload|, dataLength)]
        && frames == old(frames)[1..]
        && (Valid() <==> dataLength >= |f.payload|)
        && ret == Returned(|f.payload|, dataLength)
    {
      header, stamp, data, ret := [], [], [], 0;
      if n == 0 { return false, header, stamp, data, ret; }
      ghost var f, rest := frames[0], EncodeAll(frames[1..]);
      EncodeFirst(frames);
      n := n - 1;
      var size;
      size, header, stamp := TakeRecordHead(f, f.payload + rest);
      Cut(f.payload, rest, Min(size, dataLength));
      data := CopyIn(Min(size, dataLength));
      frames := frames[1..];
      ret := Returned(size, dataLength);
      got := true;
    }

    /** The fixed-size parts of the oldest record. */
    method TakeRecordHead(ghost f: Frame, ghost rest: Bytes) returns (size: nat, header: Bytes, stamp: Bytes)
      requires Consistent() && f.WellSized()
      requires Stored() == EncodeSize(|f.payload|) + (f.header + (f.stamp + rest))
      modifies this
      ensures Consistent() && Stored() == rest && n == old(n) && frames == old(frames)
      ensures size == |f.payload| && header == f.header && stamp == f.stamp
    {
      Front(EncodeSize(|f.payload|), f.header + (f.stamp + rest));
      var sizeBytes := CopyIn(2);
      size := DecodeSize(sizeBytes);
      Front(f.header, f.stamp + rest);
      header := CopyIn(HEADER_SIZE);
      Front(f.stamp, rest);
      stamp := CopyIn(STAMP_SIZE);
    }
  }

  lemma EncodeFirst(fs: seq<Frame>)
    requires fs != [] && AllWellSized(fs)
    ensures var f := fs[0];
            EncodeAll(fs) == EncodeSize(|f.payload|) + (f.header + (f.stamp + (f.payload + EncodeAll(fs[1..]))))
  {
    var f := fs[0];
    Reassociate(EncodeSize(|f.payload|), f.header, f.stamp, f.payload, EncodeAll(fs[1..]));
  }

  lemma Cut(a: Bytes, b: Bytes, k: nat)
    requires k <= |a|
    ensures (a + b)[..k] == a[..k]
    ensures (a + b)[k..] == a[k..] + b
    ensures (a + b)[k..] == b <==> k == |a|
  {
    if k < |a| { assert |(a + b)[k..]| > |b|; }
  }

  /** An unsigned 32-bit value as the int a function returns. */
  function AsInt(u: nat): int { if u >= 0x8000_0000 then u - 0x1_0000_0000 else u }

  /** The smaller of the frame's size less a header and the length asked for, computed unsigned. */
  function Returned(size: nat, dataLength: nat): int { AsInt(Min((size - HEADER_SIZE) % 0x1_0000_0000, dataLength)) }

  /** The length returned is that of the data less a header. For data shorter than a header the difference wraps, and
      the size of the buffer is returned, or a negative length for a buffer of 2 GB and more. */
  lemma ReturnedLength(size: nat, dataLength: nat)
    requires size < 0x1_0000 && dataLength < 0x1_0000_0000
    ensures size >= HEADER_SIZE ==> Returned(size, dataLength) == Min(size - HEADER_SIZE, dataLength)
    ensures size < HEADER_SIZE && dataLength < 0x8000_0000 ==> Returned(size, dataLength) == dataLength
    ensures size < HEADER_SIZE && dataLength >= 0x8000_0000 ==>
              var n := dataLength - 0x1_0000_0000;
              Returned(size, dataLength) == if size - HEADER_SIZE < n then size - HEADER_SIZE else n
  {
  }

  function Min(x: nat, y: nat): nat { if x < y then x else y }

  /** Free space and the sizes of the queued records always add up to the buffer. */
  lemma SpaceConserved(q: SockQueue)
    requires q.Valid()
    ensures q.avail + |EncodeAll(q.frames)| == SIZE
    ensures q.head == (q.tail + |EncodeAll(q.frames)|) % SIZE
  {
  }
}
