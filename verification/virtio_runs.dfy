/** Safety of the block device's queue over whole runs of guest and device. */
module VirtioRuns {
  import opened Memory
  import opened VirtioSpec
  import B = Bits

  // ---- Ring layout ----

  predicate PowerOfTwo(n: nat) { n == 1 || n == 2 || n == 4 || n == 8 }

  function AvailSlot(q: Queue, k: nat): nat
    requires q.num > 0
  {
    q.avail + 4 + k % q.num * 2
  }

  function UsedSlot(q: Queue, k: nat): nat
    requires q.num > 0
  {
    q.used + 4 + k % q.num * 8
  }

  function AvailSize(q: Queue): nat { 4 + q.num * 2 }

  function UsedSize(q: Queue): nat { 4 + q.num * 8 }

  /** The block misses both rings. */
  predicate OffRings(q: Queue, a: int, n: nat) {
    Apart(a, n, q.avail, AvailSize(q)) && Apart(a, n, q.used, UsedSize(q))
  }

  ghost predicate UsedWritable(q: Queue, m: Mem) {
    forall x :: q.used <= x < q.used + UsedSize(q) ==> CanWrite(m, x)
  }

  /** What the guest must have set up before it notifies. */
  ghost predicate Setup(q: Queue, m: Mem) {
    IsReady(q) && PowerOfTwo(q.num) && Apart(q.avail, AvailSize(q), q.used, UsedSize(q)) && UsedWritable(q, m)
  }

  function UsedAt(m: Mem, a: nat): Option<Used> {
    var id, len := ReadLE(m, a, 4), ReadLE(m, a + 4, 4);
    if id.None? || len.None? then None else Some(Used(id.value, len.value))
  }

  /** The available ring announces `offered` and still holds every head from number `n` on. */
  ghost predicate Announced(q: Queue, m: Mem, offered: seq<nat>, n: nat)
    requires q.num > 0
  {
    ReadLE(m, q.avail + 2, 2) == Some(|offered| % 0x1_0000) &&
    forall k: nat :: n <= k < |offered| ==> ReadLE(m, AvailSlot(q, k), 2) == Some(offered[k])
  }

  /** The used ring holds the latest answers in their slots. */
  ghost predicate Published(q: Queue, m: Mem, answered: seq<Used>)
    requires q.num > 0
  {
    (answered != [] ==> ReadLE(m, q.used + 2, 2) == Some(|answered| % 0x1_0000)) &&
    forall k: nat :: |answered| <= k + q.num && k < |answered| ==> UsedAt(m, UsedSlot(q, k)) == Some(answered[k])
  }

  // ---- Slots ----

  /** A 16-bit index selects the same slot as the count it abbreviates, for every count, exactly when
      the queue size is a power of two. */
  lemma SlotsNeedPowerOfTwo(qn: nat)
    requires 0 < qn <= RING_MAX
    ensures (forall k: nat :: k % 0x1_0000 % qn == k % qn) <==> PowerOfTwo(qn)
  {
    if PowerOfTwo(qn) {
      forall k: nat
        ensures k % 0x1_0000 % qn == k % qn
      {
        SlotOfIndex(k, qn);
      }
    } else {
      var k: nat := 0x1_0000;
      assert k % 0x1_0000 % qn == 0 && k % qn != 0;
    }
  }

  lemma SlotOfIndex(k: nat, qn: nat)
    requires PowerOfTwo(qn)
    ensures k % 0x1_0000 % qn == k % qn
  {
    var q, r := k / 0x1_0000, k % 0x1_0000;
    if qn == 1 {
    } else if qn == 2 {
      B.ModUnique(k, q * 0x8000 + r / 2, r % 2, 2);
    } else if qn == 4 {
      B.ModUnique(k, q * 0x4000 + r / 4, r % 4, 4);
    } else {
      B.ModUnique(k, q * 0x2000 + r / 8, r % 8, 8);
    }
  }

  lemma SlotsDiffer(k: nat, n: nat, qn: nat)
    requires PowerOfTwo(qn) && n < k + qn && k < n
    ensures k % qn != n % qn
  {
  }

  // ---- Frames ----

  /** Nothing in the available ring changed. */
  ghost predicate AvailKept(q: Queue, m: Mem, m': Mem) {
    SameRegions(m, m') && AgreeOn(m, m', q.avail, AvailSize(q))
  }

  /** Nothing in the used ring's elements changed, except perhaps in one slot. */
  ghost predicate UsedKept(q: Queue, m: Mem, m': Mem, except: nat) {
    SameRegions(m, m') && forall j: nat :: j < q.num && j != except ==> SameElem(m, m', q.used + 4 + j * 8)
  }

  ghost predicate SameElem(m: Mem, m': Mem, a: int) { AgreeOn(m, m', a, 8) }

  lemma BlockOffRings(q: Queue, m: Mem, a: int, bs: seq<byte>, except: nat)
    requires OffRings(q, a, |bs|)
    ensures AvailKept(q, m, WriteBlock(m, a, bs).mem) && UsedKept(q, m, WriteBlock(m, a, bs).mem, except)
  {
    WriteBlockElsewhere(m, a, bs, q.avail, AvailSize(q));
    forall j: nat | j < q.num
      ensures SameElem(m, WriteBlock(m, a, bs).mem, q.used + 4 + j * 8)
    {
      WriteBlockElsewhere(m, a, bs, q.used + 4 + j * 8, 8);
    }
  }

  lemma AnnouncedKept(q: Queue, m: Mem, m': Mem, offered: seq<nat>, n: nat)
    requires q.num > 0 && AvailKept(q, m, m') && Announced(q, m, offered, n)
    ensures Announced(q, m', offered, n)
  {
    ReadLEFrame(m, m', q.avail + 2, 2);
    forall k: nat | n <= k < |offered|
      ensures ReadLE(m', AvailSlot(q, k), 2) == Some(offered[k])
    {
      ReadLEFrame(m, m', AvailSlot(q, k), 2);
    }
  }

  lemma UsedAtKept(m: Mem, m': Mem, a: nat)
    requires SameRegions(m, m') && SameElem(m, m', a)
    ensures UsedAt(m', a) == UsedAt(m, a)
  {
    ReadLEFrame(m, m', a, 4);
    ReadLEFrame(m, m', a + 4, 4);
  }

  // ---- Parts of one service ----

  /** A request's buffer is written to only by a read from the disk. */
  predicate BufferOffRings(q: Queue, disk: seq<byte>, r: Request) {
    OnDisk(disk, r) && r.reqType == 0 ==> OffRings(q, r.addr, r.len)
  }

  predicate StatusOffRings(q: Queue, m: Mem, head: nat) {
    var a := StatusAddr(q, m, head); a.Some? ==> OffRings(q, a.value, 1)
  }

  lemma TransferKeeps(q: Queue, media: Media, m: Mem, r: Request, except: nat)
    requires |media.window| == SECTOR_SIZE && BufferOffRings(q, media.disk, r)
    ensures var t := Transfer(media, m, r); AvailKept(q, m, t.mem) && UsedKept(q, m, t.mem, except)
  {
    if OnDisk(media.disk, r) && r.reqType == 0 {
      var at := r.sector * SECTOR_SIZE;
      BlockOffRings(q, m, r.addr, media.disk[at..at + r.len], except);
    }
  }

  lemma StatusKeeps(q: Queue, m: Mem, head: nat, ok: bool, except: nat)
    requires StatusOffRings(q, m, head)
    ensures var m' := WriteStatus(q, m, head, ok); AvailKept(q, m, m') && UsedKept(q, m, m', except)
  {
    var a := StatusAddr(q, m, head);
    if a.Some? { BlockOffRings(q, m, a.value, [if ok then 0 else 1], except); }
  }

  lemma UsedElemWritten(m: Mem, a: nat, u: Used)
    requires forall x :: a <= x < a + 8 ==> CanWrite(m, x)
    requires u.head < 0x1_0000_0000 && u.len < 0x1_0000_0000
    ensures UsedAt(WriteUsedElem(m, a, u), a) == Some(u)
  {
    var first := WriteLE(m, a, 4, u.head);
    WriteBlockSpec(m, a, ToLE(u.head, 4));
    assert forall x :: CanWrite(first.mem, x) <==> CanWrite(m, x);
    WriteLEThenRead(m, a, 4, u.head);
    WriteBlockSpec(first.mem, a + 4, ToLE(u.len, 4));
    WriteLEThenRead(first.mem, a + 4, 4, u.len);
    WriteBlockElsewhere(first.mem, a + 4, ToLE(u.len, 4), a, 4);
  }

  lemma UsedElemElsewhere(m: Mem, a: nat, u: Used, b: int, n: nat)
    requires Apart(a, 8, b, n)
    ensures AgreeOn(m, WriteUsedElem(m, a, u), b, n)
  {
    var first := WriteLE(m, a, 4, u.head);
    WriteBlockElsewhere(m, a, ToLE(u.head, 4), b, n);
    WriteBlockElsewhere(first.mem, a + 4, ToLE(u.len, 4), b, n);
  }

  lemma NumberElsewhere(m: Mem, m1: Mem, m2: Mem, a: nat, k: nat, v: nat, b: int, n: nat)
    requires AgreeOn(m, m1, b, n) && Apart(a, k, b, n) && m2 == WriteLE(m1, a, k, v).mem
    ensures AgreeOn(m, m2, b, n)
  {
    WriteBlockElsewhere(m1, a, ToLE(v, k), b, n);
  }

  lemma PublishElsewhere(q: Queue, m: Mem, m1: Mem, m2: Mem, slot: nat, u: Used, idx: nat, b: int, n: nat)
    requires Apart(q.used + 4 + slot * 8, 8, b, n) && Apart(q.used + 2, 2, b, n)
    requires m1 == WriteUsedElem(m, q.used + 4 + slot * 8, u) && m2 == WriteLE(m1, q.used + 2, 2, idx).mem
    ensures AgreeOn(m, m2, b, n)
  {
    UsedElemElsewhere(m, q.used + 4 + slot * 8, u, b, n);
    NumberElsewhere(m, m1, m2, q.used + 2, 2, idx, b, n);
  }

  lemma PublishKeeps(q: Queue, m: Mem, m1: Mem, m2: Mem, slot: nat, u: Used, idx: nat)
    requires slot < q.num && Apart(q.avail, AvailSize(q), q.used, UsedSize(q))
    requires m1 == WriteUsedElem(m, q.used + 4 + slot * 8, u) && m2 == WriteLE(m1, q.used + 2, 2, idx).mem
    ensures AvailKept(q, m, m2) && UsedKept(q, m, m2, slot)
  {
    PublishElsewhere(q, m, m1, m2, slot, u, idx, q.avail, AvailSize(q));
    forall j: nat | j < q.num && j != slot
      ensures SameElem(m, m2, q.used + 4 + j * 8)
    {
      PublishElsewhere(q, m, m1, m2, slot, u, idx, q.used + 4 + j * 8, 8);
    }
  }

  lemma NumberWritten(m: Mem, m': Mem, a: nat, n: nat, v: nat, b: nat, k: nat)
    requires (forall x :: a <= x < a + n ==> CanWrite(m, x)) && v < Pow256(n) && Apart(a, n, b, k)
    requires m' == WriteLE(m, a, n, v).mem
    ensures ReadLE(m', a, n) == Some(v) && AgreeOn(m, m', b, k)
  {
    WriteBlockSpec(m, a, ToLE(v, n));
    WriteLEThenRead(m, a, n, v);
    WriteBlockElsewhere(m, a, ToLE(v, n), b, k);
  }

  lemma IndexWritten(q: Queue, m: Mem, m': Mem, idx: nat, a: nat)
    requires UsedWritable(q, m) && idx < 0x1_0000 && a >= q.used + 4
    requires m' == WriteLE(m, q.used + 2, 2, idx).mem
    ensures ReadLE(m', q.used + 2, 2) == Some(idx) && UsedAt(m', a) == UsedAt(m, a)
  {
    NumberWritten(m, m', q.used + 2, 2, idx, a, 8);
    UsedAtKept(m, m', a);
  }

  lemma PublishSets(q: Queue, m: Mem, m1: Mem, m2: Mem, a: nat, u: Used, idx: nat)
    requires UsedWritable(q, m) && q.used + 4 <= a && a + 8 <= q.used + UsedSize(q) && idx < 0x1_0000
    requires u.head < 0x1_0000_0000 && u.len < 0x1_0000_0000
    requires m1 == WriteUsedElem(m, a, u) && m2 == WriteLE(m1, q.used + 2, 2, idx).mem
    ensures UsedAt(m2, a) == Some(u) && ReadLE(m2, q.used + 2, 2) == Some(idx)
  {
    UsedElemWritten(m, a, u);
    StillWritable(q, m, m1);
    IndexWritten(q, m1, m2, idx, a);
  }

  lemma StillWritable(q: Queue, m: Mem, m': Mem)
    requires UsedWritable(q, m) && SameRegions(m, m')
    ensures UsedWritable(q, m')
  {
    assert forall x :: CanWrite(m', x) <==> CanWrite(m, x);
  }

  // ---- One service ----

  lemma KeptBoth(q: Queue, m: Mem, m1: Mem, m2: Mem, except: nat)
    requires AvailKept(q, m, m1) && UsedKept(q, m, m1, except) && AvailKept(q, m1, m2) && UsedKept(q, m1, m2, except)
    ensures AvailKept(q, m, m2) && UsedKept(q, m, m2, except)
  {
    forall j: nat | j < q.num && j != except
      ensures SameElem(m, m2, q.used + 4 + j * 8)
    {
      assert SameElem(m, m1, q.used + 4 + j * 8) && SameElem(m1, m2, q.used + 4 + j * 8);
    }
  }

  /** The head the device would take up next, if the ring can be read and holds one. */
  function NextHead(d: Device, m: Mem): Option<nat>
    requires d.queue.num > 0
  {
    match ReadLE(m, d.queue.avail + 2, 2)
    case None => None
    case Some(avail) =>
      if avail == d.usedIdx then None else ReadLE(m, d.queue.avail + 4 + d.usedIdx % d.queue.num * 2, 2)
  }

  /** The buffers the chain names for the device to write do not overlap the rings. */
  predicate BuffersOffRings(d: Device, m: Mem, head: nat)
    requires Shaped(d)
  {
    var p := Process(d.queue, d.media, m, head);
    (p.request.Some? ==> BufferOffRings(d.queue, d.media.disk, p.request.value)) &&
    StatusOffRings(d.queue, p.moved.mem, head)
  }

  /** The chain's own effects, the transfer and the status byte, leave the rings alone. */
  lemma ChainKeeps(d: Device, m: Mem, head: nat, except: nat)
    requires Shaped(d) && BuffersOffRings(d, m, head)
    ensures var p := Process(d.queue, d.media, m, head);
      var m1 := WriteStatus(d.queue, p.moved.mem, head, p.moved.ok);
      AvailKept(d.queue, m, m1) && UsedKept(d.queue, m, m1, except)
  {
    var q, p := d.queue, Process(d.queue, d.media, m, head);
    if p.request.Some? { TransferKeeps(q, d.media, m, p.request.value, except); }
    StatusKeeps(q, p.moved.mem, head, p.moved.ok, except);
    KeptBoth(q, m, p.moved.mem, WriteStatus(q, p.moved.mem, head, p.moved.ok), except);
  }

  /** The rings hold what was offered and not yet answered, and the latest answers. */
  ghost predicate Rings(q: Queue, m: Mem, offered: seq<nat>, answered: seq<Used>) {
    Setup(q, m) && Announced(q, m, offered, |answered|) && Published(q, m, answered)
  }

  /** The answers are the first of the offered heads, and no more than a queue's worth is open. */
  ghost predicate InOrder(offered: seq<nat>, answered: seq<Used>, open: nat) {
    |answered| <= |offered| <= |answered| + open &&
    (forall k :: 0 <= k < |offered| ==> offered[k] < 0x1_0000) &&
    (forall k :: 0 <= k < |answered| ==> answered[k].head == offered[k])
  }

  /** The state of a run: what was offered and answered, and where device and memory stand to it. */
  ghost predicate RunInv(d: Device, m: Mem, offered: seq<nat>, answered: seq<Used>) {
    Shaped(d) && d.usedIdx == |answered| % 0x1_0000 &&
    Rings(d.queue, m, offered, answered) && InOrder(offered, answered, d.queue.num)
  }

  lemma NextIsOffered(d: Device, m: Mem, offered: seq<nat>, answered: seq<Used>)
    requires RunInv(d, m, offered, answered)
    ensures NextHead(d, m) == if |answered| < |offered| then Some(offered[|answered|]) else None
  {
    var n := |answered|;
    SlotOfIndex(n, d.queue.num);
    assert n < |offered| ==> ReadLE(m, AvailSlot(d.queue, n), 2) == Some(offered[n]);
  }

  lemma PublishedNext(q: Queue, m: Mem, m': Mem, answered: seq<Used>, u: Used)
    requires PowerOfTwo(q.num) && Published(q, m, answered) && UsedKept(q, m, m', |answered| % q.num)
    requires UsedAt(m', UsedSlot(q, |answered|)) == Some(u)
    requires ReadLE(m', q.used + 2, 2) == Some((|answered| + 1) % 0x1_0000)
    ensures Published(q, m', answered + [u])
  {
    var n := |answered|;
    forall k: nat | n + 1 <= k + q.num && k < n + 1
      ensures UsedAt(m', UsedSlot(q, k)) == Some((answered + [u])[k])
    {
      if k < n {
        SlotsDiffer(k, n, q.num);
        UsedAtKept(m, m', UsedSlot(q, k));
      }
    }
  }

  lemma TakesNothing(d: Device, m: Mem)
    requires Shaped(d) && IsReady(d.queue) && NextHead(d, m).None?
    ensures Take(d, m).1.None?
  {
  }

  /** With nothing pending, a notification moves neither memory, disk nor index. */
  lemma ServeIdles(d: Device, m: Mem)
    requires Shaped(d) && IsReady(d.queue) && NextHead(d, m).None?
    ensures var s := Serve(d, m); s.mem == m && s.device == d.(regs := s.device.regs)
  {
    TakesNothing(d, m);
  }

  /** `s` is the reply to the chain at `head`, as answer number `n`. */
  ghost predicate IsReply(d: Device, m: Mem, s: Served, head: nat, n: nat)
    requires Shaped(d) && IsReady(d.queue)
  {
    var p := Process(d.queue, d.media, m, head);
    Shaped(s.device) && s.device.queue == d.queue && s.device.media == p.moved.media &&
    s.device.usedIdx == (n + 1) % 0x1_0000 &&
    s.mem == Publish(d.queue, WriteStatus(d.queue, p.moved.mem, head, p.moved.ok), n % d.queue.num,
                     Used(head, Length(p)), (n + 1) % 0x1_0000)
  }

  /** With a head pending, a notification is a reply to its chain. */
  lemma ServeReplies(d: Device, m: Mem, n: nat)
    requires Shaped(d) && IsReady(d.queue) && NextHead(d, m).Some?
    requires PowerOfTwo(d.queue.num) && d.usedIdx == n % 0x1_0000
    ensures IsReply(d, m, Serve(d, m), NextHead(d, m).value, n)
  {
    var d1 := ServeIsReply(d, m);
    IndexForCount(d.usedIdx, n, d.queue.num);
    ReplyIs(d1, Process(d.queue, d.media, m, NextHead(d, m).value), Serve(d, m), NextHead(d, m).value,
            n % d.queue.num, (n + 1) % 0x1_0000);
  }

  lemma ServeIsReply(d: Device, m: Mem) returns (d1: Device)
    requires Shaped(d) && IsReady(d.queue) && NextHead(d, m).Some?
    ensures d1.queue == d.queue && d1.usedIdx == d.usedIdx && Shaped(d1)
    ensures d1.regs == d.regs.(availIdx := d1.regs.availIdx, head := NextHead(d, m).value)
    ensures Serve(d, m) == Reply(d1, Process(d.queue, d.media, m, NextHead(d, m).value), NextHead(d, m).value)
  {
    d1 := d.(regs := d.regs.(availIdx := ReadLE(m, d.queue.avail + 2, 2).value, head := NextHead(d, m).value));
  }

  lemma ReplyIs(d: Device, p: Processed, s: Served, head: nat, slot: nat, idx: nat)
    requires Shaped(d) && IsReady(d.queue) && |p.moved.media.window| == SECTOR_SIZE && s == Reply(d, p, head)
    requires slot == d.usedIdx % d.queue.num && idx == Next16(d.usedIdx)
    ensures Shaped(s.device) && s.device.queue == d.queue && s.device.media == p.moved.media &&
      s.device.usedIdx == idx &&
      s.mem == Publish(d.queue, WriteStatus(d.queue, p.moved.mem, head, p.moved.ok), slot, Used(head, Length(p)), idx)
  {
  }

  /** The 16-bit index stands for the count: same slot, same successor. */
  lemma IndexForCount(idx: nat, n: nat, qn: nat)
    requires PowerOfTwo(qn) && idx == n % 0x1_0000
    ensures idx % qn == n % qn && Next16(idx) == (n + 1) % 0x1_0000
  {
    SlotOfIndex(n, qn);
  }

  lemma LengthFits(q: Queue, media: Media, m: Mem, head: nat)
    requires |media.window| == SECTOR_SIZE
    ensures Length(Process(q, media, m, head)) < 0x1_0000_0000
  {
    assert Pow256(4) == 0x1_0000_0000;
  }

  /** The memory after a reply, step by step: `m1` after the chain, `m2` after the used element. */
  ghost predicate Replied(q: Queue, m1: Mem, m2: Mem, m3: Mem, slot: nat, u: Used, idx: nat) {
    m2 == WriteUsedElem(m1, q.used + 4 + slot * 8, u) && m3 == WriteLE(m2, q.used + 2, 2, idx).mem
  }

  lemma ReplyKeeps(q: Queue, m: Mem, m1: Mem, m2: Mem, m3: Mem, slot: nat, u: Used, idx: nat)
    requires Setup(q, m) && slot < q.num && Replied(q, m1, m2, m3, slot, u, idx)
    requires AvailKept(q, m, m1) && UsedKept(q, m, m1, slot)
    ensures AvailKept(q, m, m3) && UsedKept(q, m, m3, slot) && Setup(q, m3)
  {
    PublishKeeps(q, m1, m2, m3, slot, u, idx);
    KeptBoth(q, m, m1, m3, slot);
    StillWritable(q, m, m3);
  }

  lemma ReplySets(q: Queue, m: Mem, m1: Mem, m2: Mem, m3: Mem, slot: nat, a: nat, u: Used, idx: nat)
    requires Setup(q, m) && slot < q.num && SameRegions(m, m1) && Replied(q, m1, m2, m3, slot, u, idx)
    requires a == q.used + 4 + slot * 8 && u.head < 0x1_0000 && u.len < 0x1_0000_0000 && idx < 0x1_0000
    ensures UsedAt(m3, a) == Some(u) && ReadLE(m3, q.used + 2, 2) == Some(idx)
  {
    StillWritable(q, m, m1);
    PublishSets(q, m1, m2, m3, a, u, idx);
  }

  lemma ReplyKeepsRings(q: Queue, m: Mem, m1: Mem, m2: Mem, m3: Mem, slot: nat, idx: nat,
                        offered: seq<nat>, answered: seq<Used>, u: Used)
    requires Rings(q, m, offered, answered) && |answered| < |offered|
    requires slot == |answered| % q.num && idx == (|answered| + 1) % 0x1_0000
    requires AvailKept(q, m, m1) && UsedKept(q, m, m1, slot) && Replied(q, m1, m2, m3, slot, u, idx)
    requires u.head < 0x1_0000 && u.len < 0x1_0000_0000
    ensures Rings(q, m3, offered, answered + [u])
  {
    ReplyKeeps(q, m, m1, m2, m3, slot, u, idx);
    ReplySets(q, m, m1, m2, m3, slot, UsedSlot(q, |answered|), u, idx);
    AnnouncedKept(q, m, m3, offered, |answered|);
    PublishedNext(q, m, m3, answered, u);
  }

  /** A notification with heads pending answers exactly the next one: its head and the length moved
      are published in the next slot, and the used index advances by one. */
  lemma ServeAnswers(d: Device, m: Mem, offered: seq<nat>, answered: seq<Used>)
    requires RunInv(d, m, offered, answered) && |answered| < |offered|
    requires BuffersOffRings(d, m, offered[|answered|])
    ensures var s, p := Serve(d, m), Process(d.queue, d.media, m, offered[|answered|]);
      RunInv(s.device, s.mem, offered, answered + [Used(offered[|answered|], Length(p))]) &&
      s.device.queue == d.queue && s.device.media == p.moved.media
  {
    NextIsOffered(d, m, offered, answered);
    ServeReplies(d, m, |answered|);
    ReplyAnswers(d, m, Serve(d, m), offered, answered);
  }

  lemma ReplyAnswers(d: Device, m: Mem, s: Served, offered: seq<nat>, answered: seq<Used>)
    requires RunInv(d, m, offered, answered) && |answered| < |offered|
    requires BuffersOffRings(d, m, offered[|answered|]) && IsReply(d, m, s, offered[|answered|], |answered|)
    ensures var p := Process(d.queue, d.media, m, offered[|answered|]);
      RunInv(s.device, s.mem, offered, answered + [Used(offered[|answered|], Length(p))]) &&
      s.device.queue == d.queue && s.device.media == p.moved.media
  {
    ServeRings(d, m, s.mem, offered, answered);
    InOrderNext(offered, answered, Used(offered[|answered|], Length(Process(d.queue, d.media, m, offered[|answered|]))),
                d.queue.num);
  }

  lemma ServeRings(d: Device, m: Mem, m3: Mem, offered: seq<nat>, answered: seq<Used>)
    requires RunInv(d, m, offered, answered) && |answered| < |offered|
    requires BuffersOffRings(d, m, offered[|answered|])
    requires var head := offered[|answered|];
      var p := Process(d.queue, d.media, m, head);
      m3 == Publish(d.queue, WriteStatus(d.queue, p.moved.mem, head, p.moved.ok), |answered| % d.queue.num,
                    Used(head, Length(p)), (|answered| + 1) % 0x1_0000)
    ensures var p := Process(d.queue, d.media, m, offered[|answered|]);
      Rings(d.queue, m3, offered, answered + [Used(offered[|answered|], Length(p))])
  {
    var q, n, head := d.queue, |answered|, offered[|answered|];
    var slot := n % q.num;
    var p := Process(q, d.media, m, head);
    var u := Used(head, Length(p));
    var m1 := WriteStatus(q, p.moved.mem, head, p.moved.ok);
    LengthFits(q, d.media, m, head);
    ChainKeeps(d, m, head, slot);
    ReplyKeepsRings(q, m, m1, WriteUsedElem(m1, q.used + 4 + slot * 8, u), m3, slot, (n + 1) % 0x1_0000,
                    offered, answered, u);
  }

  lemma InOrderNext(offered: seq<nat>, answered: seq<Used>, u: Used, open: nat)
    requires InOrder(offered, answered, open) && |answered| < |offered| && u.head == offered[|answered|]
    ensures InOrder(offered, answered + [u], open)
  {
  }

  lemma LastAnswer(d: Device, m: Mem, offered: seq<nat>, answered: seq<Used>, u: Used)
    requires RunInv(d, m, offered, answered + [u])
    ensures UsedAt(m, UsedSlot(d.queue, |answered|)) == Some(u) && d.usedIdx == (|answered| + 1) % 0x1_0000
  {
    assert (answered + [u])[|answered|] == u;
  }

  // ---- Runs ----

  /** The guest rearranges its memory and offers more heads, or notifies the device. */
  datatype Event = Drive(mem: Mem, heads: seq<nat>) | Notify

  datatype Run = Run(device: Device, mem: Mem, offered: seq<nat>, answered: seq<Used>)

  /** Answers are what the guest finds in the used ring when the used index has moved. */
  function Step(r: Run, e: Event): Run
    requires Shaped(r.device)
  {
    match e
    case Drive(m, heads) => r.(mem := m, offered := r.offered + heads)
    case Notify => Observe(r, Serve(r.device, r.mem))
  }

  function Observe(r: Run, s: Served): Run {
    var found := if r.device.queue.num == 0 then None else UsedAt(s.mem, UsedSlot(r.device.queue, |r.answered|));
    Run(s.device, s.mem, r.offered,
        if s.device.usedIdx != r.device.usedIdx && found.Some? then r.answered + [found.value] else r.answered)
  }

  /** What the VirtIO specification asks of the guest: it announces heads in order, never more than
      fit the queue, keeps out of the used ring, and offers no buffer that overlaps a ring. */
  ghost predicate Allowed(r: Run, e: Event)
    requires Shaped(r.device) && r.device.queue.num > 0
  {
    match e
    case Drive(m, heads) =>
      SameRegions(r.mem, m) && AgreeOn(r.mem, m, r.device.queue.used, UsedSize(r.device.queue)) &&
      (forall k :: 0 <= k < |heads| ==> heads[k] < 0x1_0000) &&
      |r.offered + heads| <= |r.answered| + r.device.queue.num &&
      Announced(r.device.queue, m, r.offered + heads, |r.answered|)
    case Notify =>
      var head := NextHead(r.device, r.mem);
      head.Some? ==> BuffersOffRings(r.device, r.mem, head.value)
  }

  ghost predicate Inv(r: Run) { RunInv(r.device, r.mem, r.offered, r.answered) }

  function RunOf(r: Run, es: seq<Event>): Run
    requires Shaped(r.device)
    decreases |es|
  {
    if es == [] then r else RunOf(Step(r, es[0]), es[1..])
  }

  ghost predicate AllAllowed(r: Run, es: seq<Event>)
    requires Shaped(r.device)
    decreases |es|
  {
    es == [] || (r.device.queue.num > 0 && Allowed(r, es[0]) && AllAllowed(Step(r, es[0]), es[1..]))
  }

  lemma DriveKeepsInv(r: Run, m: Mem, heads: seq<nat>)
    requires Inv(r) && Allowed(r, Drive(m, heads))
    ensures Inv(Step(r, Drive(m, heads)))
  {
    var q := r.device.queue;
    StillWritable(q, r.mem, m);
    if r.answered != [] { ReadLEFrame(r.mem, m, q.used + 2, 2); }
    forall k: nat | |r.answered| <= k + q.num && k < |r.answered|
      ensures UsedAt(m, UsedSlot(q, k)) == Some(r.answered[k])
    {
      UsedAtKept(r.mem, m, UsedSlot(q, k));
    }
  }

  /** A notification answers the next offered head, if there is one, and otherwise does nothing. */
  lemma NotifyStep(r: Run)
    requires Inv(r) && Allowed(r, Notify)
    ensures var r', n := Step(r, Notify), |r.answered|;
      Inv(r') && r'.offered == r.offered &&
      if n == |r.offered| then r'.answered == r.answered && r'.mem == r.mem && r'.device.media == r.device.media
      else
        var p := Process(r.device.queue, r.device.media, r.mem, r.offered[n]);
        r'.answered == r.answered + [Used(r.offered[n], Length(p))] && r'.device.media == p.moved.media
  {
    NextIsOffered(r.device, r.mem, r.offered, r.answered);
    if |r.answered| == |r.offered| {
      ServeIdles(r.device, r.mem);
    } else {
      var p := Process(r.device.queue, r.device.media, r.mem, r.offered[|r.answered|]);
      ServeAnswers(r.device, r.mem, r.offered, r.answered);
      AnswerSeen(r, Serve(r.device, r.mem), Used(r.offered[|r.answered|], Length(p)));
    }
  }

  lemma IndexMoves(n: nat)
    ensures (n + 1) % 0x1_0000 != n % 0x1_0000
  {
  }

  lemma FoundIsSeen(r: Run, s: Served, u: Used)
    requires r.device.queue.num > 0 && s.device.usedIdx != r.device.usedIdx
    requires UsedAt(s.mem, UsedSlot(r.device.queue, |r.answered|)) == Some(u)
    ensures Observe(r, s) == Run(s.device, s.mem, r.offered, r.answered + [u])
  {
  }

  lemma AnswerSeen(r: Run, s: Served, u: Used)
    requires Inv(r) && s.device.queue == r.device.queue && RunInv(s.device, s.mem, r.offered, r.answered + [u])
    ensures Observe(r, s) == Run(s.device, s.mem, r.offered, r.answered + [u])
  {
    LastAnswer(s.device, s.mem, r.offered, r.answered, u);
    IndexMoves(|r.answered|);
    FoundIsSeen(r, s, u);
  }

  lemma StepKeepsInv(r: Run, e: Event, r1: Run)
    requires Inv(r) && Allowed(r, e) && r1 == Step(r, e)
    ensures Inv(r1) && r.answered <= r1.answered && r.offered <= r1.offered
  {
    match e
    case Drive(m, heads) => DriveKeepsInv(r, m, heads);
    case Notify => NotifyStep(r);
  }

  lemma FirstEvent(r: Run, es: seq<Event>, r': Run) returns (r1: Run)
    requires Inv(r) && es != [] && AllAllowed(r, es) && r' == RunOf(r, es)
    ensures Inv(r1) && AllAllowed(r1, es[1..]) && r' == RunOf(r1, es[1..])
    ensures r.answered <= r1.answered && r.offered <= r1.offered
  {
    r1 := Step(r, es[0]);
    StepKeepsInv(r, es[0], r1);
  }

  /** Main result: over every run the guest drives by the rules, the answers found in the used ring
      are the offered heads in order, each once; none is invented, and at most a queue's worth is
      outstanding.  The used index counts the answers modulo 2^16. */
  lemma {:induction false} AnswersInOrder(r: Run, es: seq<Event>, r': Run)
    requires Inv(r) && AllAllowed(r, es) && r' == RunOf(r, es)
    ensures Inv(r') && r.answered <= r'.answered && r.offered <= r'.offered
    ensures |r'.answered| <= |r'.offered| <= |r'.answered| + r'.device.queue.num
    ensures forall k :: 0 <= k < |r'.answered| ==> r'.answered[k].head == r'.offered[k]
    ensures r'.device.usedIdx == |r'.answered| % 0x1_0000
    decreases |es|
  {
    if es != [] {
      var r1 := FirstEvent(r, es, r');
      AnswersInOrder(r1, es[1..], r');
    }
  }

  function Notifies(n: nat): (es: seq<Event>)
    ensures |es| == n
  {
    if n == 0 then [] else [Notify] + Notifies(n - 1)
  }

  // Where a run leads, as a value: the induction below follows from its step alone, without the definitions.

  /** Where an allowed run ends. */
  ghost function EndOf(r: Run, es: seq<Event>): Option<Run> {
    if Inv(r) && AllAllowed(r, es) then Some(RunOf(r, es)) else None
  }

  type EndFunction = (Run, seq<Event>) -> Option<Run>

  ghost predicate IsEnd(f: EndFunction) {
    forall r, es {:trigger EndOf(r, es)} :: f(r, es) == EndOf(r, es)
  }

  lemma EndAsValue() returns (f: EndFunction)
    ensures IsEnd(f)
  {
    f := (r: Run, es: seq<Event>) => EndOf(r, es);
  }

  lemma NotifyOnce(f: EndFunction, r: Run, es: seq<Event>, r': Run) returns (r1: Run)
    requires IsEnd(f) && es != [] && es[0].Notify? && f(r, es) == Some(r')
    ensures f(r1, es[1..]) == Some(r') && r1.offered == r.offered
    ensures |r1.answered| == if |r.answered| < |r.offered| then |r.answered| + 1 else |r.answered|
  {
    assert EndOf(r, es) == Some(r');
    r1 := Step(r, Notify);
    NotifyStep(r);
    assert EndOf(r1, es[1..]) == Some(r');
  }

  lemma EndBounds(f: EndFunction, r: Run, r': Run)
    requires IsEnd(f) && f(r, []) == Some(r')
    ensures r' == r && |r.answered| <= |r.offered|
  {
    assert EndOf(r, []) == Some(r');
  }

  lemma {:induction false} NotifiesAnswerFrom(f: EndFunction, r: Run, n: nat, es: seq<Event>, r': Run)
    requires IsEnd(f) && es == Notifies(n) && f(r, es) == Some(r')
    ensures r'.offered == r.offered
    ensures |r'.answered| == if |r.answered| + n <= |r.offered| then |r.answered| + n else |r.offered|
    decreases n
  {
    if n == 0 {
      EndBounds(f, r, r');
    } else {
      assert es[1..] == Notifies(n - 1);
      var r1 := NotifyOnce(f, r, es, r');
      NotifiesAnswerFrom(f, r1, n - 1, es[1..], r');
    }
  }

  /** One chain is answered per notification, so as many notifications as there are open heads answer
      them all, and further ones answer nothing. */
  lemma NotifiesAnswer(r: Run, n: nat, es: seq<Event>, r': Run)
    requires es == Notifies(n) && Inv(r) && AllAllowed(r, es) && r' == RunOf(r, es)
    ensures r'.offered == r.offered
    ensures |r'.answered| == if |r.answered| + n <= |r.offered| then |r.answered| + n else |r.offered|
  {
    var f := EndAsValue();
    assert EndOf(r, es) == Some(r');
    NotifiesAnswerFrom(f, r, n, es, r');
  }

  /** A device that has answered nothing, with a queue in place, starts such a run. */
  lemma FreshRun(d: Device, m: Mem)
    requires Shaped(d) && Setup(d.queue, m) && d.usedIdx == 0 && ReadLE(m, d.queue.avail + 2, 2) == Some(0)
    ensures Inv(Run(d, m, [], []))
  {
  }

  // ---- What an answer says ----

  /** Everything a chain needs to be carried out. */
  ghost predicate Feasible(q: Queue, disk: seq<byte>, m: Mem, head: nat) {
    var r := ParseChain(q, m, head);
    r.Some? && OnDisk(disk, r.value) && r.value.reqType <= 1 &&
    forall x :: r.value.addr <= x < r.value.addr + r.value.len ==>
      if r.value.reqType == 0 then CanWrite(m, x) else CanRead(m, x)
  }

  lemma {:induction false} ReadPrefixIs(m: Mem, a: int, n: nat)
    ensures var bs := ReadPrefix(m, a, n);
      |bs| == n <==> forall x :: a <= x < a + n ==> CanRead(m, x)
    ensures |ReadPrefix(m, a, n)| == n ==> ReadBlock(m, a, n) == Some(ReadPrefix(m, a, n))
    decreases n
  {
    if n > 0 && CanRead(m, a) { ReadPrefixIs(m, a + 1, n - 1); }
  }

  lemma InTells(media: Media, m: Mem, at: nat, a: nat, n: nat)
    requires at + n <= |media.disk| && |media.window| == SECTOR_SIZE
    ensures TransferIn(media, m, at, a, n).ok <==> forall x :: a <= x < a + n ==> CanWrite(m, x)
  {
    WriteBlockSpec(m, a, media.disk[at..at + n]);
  }

  lemma OutTells(media: Media, m: Mem, at: nat, a: nat, n: nat)
    requires at + n <= |media.disk| && |media.window| == SECTOR_SIZE
    ensures TransferOut(media, m, at, a, n).ok <==> forall x :: a <= x < a + n ==> CanRead(m, x)
  {
    ReadPrefixIs(m, a, n);
  }

  lemma TransferTells(media: Media, m: Mem, r: Request)
    requires |media.window| == SECTOR_SIZE
    ensures Transfer(media, m, r).ok <==>
      OnDisk(media.disk, r) && r.reqType <= 1 &&
      forall x :: r.addr <= x < r.addr + r.len ==> if r.reqType == 0 then CanWrite(m, x) else CanRead(m, x)
  {
    if OnDisk(media.disk, r) {
      if r.reqType == 0 {
        InTells(media, m, r.sector * SECTOR_SIZE, r.addr, r.len);
      } else if r.reqType == 1 {
        OutTells(media, m, r.sector * SECTOR_SIZE, r.addr, r.len);
      }
    }
  }

  /** Length 0 is the mark of a failed chain: a chain succeeds exactly when it can be carried out,
      and then reports at least one byte. */
  lemma LengthTellsSuccess(q: Queue, media: Media, m: Mem, head: nat)
    requires |media.window| == SECTOR_SIZE
    ensures var p := Process(q, media, m, head);
      (p.moved.ok <==> Feasible(q, media.disk, m, head)) && (Length(p) == 0 <==> !p.moved.ok)
  {
    var r := ParseChain(q, m, head);
    if r.Some? { TransferTells(media, m, r.value); }
  }

  // ---- Layout ----

  /** Section 2.6.5 of VirtIO 1.1: address, length, flags and next, little-endian. */
  function DescBytes(d: Desc): (r: seq<byte>)
    ensures |r| == 16
  {
    ToLE(d.addr, 8) + ToLE(d.len, 4) + ToLE(d.flags, 2) + ToLE(d.next, 2)
  }

  predicate DescFits(d: Desc) {
    d.addr < 0x1_0000_0000_0000_0000 && d.len < 0x1_0000_0000 && d.flags < 0x1_0000 && d.next < 0x1_0000
  }

  lemma DescParts(d: Desc, bs: seq<byte>)
    requires bs == DescBytes(d)
    ensures bs[0..8] == ToLE(d.addr, 8) && bs[8..12] == ToLE(d.len, 4)
    ensures bs[12..14] == ToLE(d.flags, 2) && bs[14..16] == ToLE(d.next, 2)
  {
  }

  lemma Powers()
    ensures Pow256(2) == 0x1_0000 && Pow256(4) == 0x1_0000_0000 && Pow256(8) == 0x1_0000_0000_0000_0000
  {
    assert Pow256(5) == 256 * Pow256(4) && Pow256(6) == 256 * Pow256(5) && Pow256(7) == 256 * Pow256(6);
  }

  /** A descriptor laid out by the specification in the table is the one the device reads. */
  lemma DescriptorLayout(q: Queue, m: Mem, index: nat, d: Desc, bs: seq<byte>)
    requires index < q.num && DescFits(d) && bs == DescBytes(d) && ReadBlock(m, q.desc + index * 16, 16) == Some(bs)
    ensures DescAt(q, m, index) == Some(d)
  {
    var a := q.desc + index * 16;
    DescParts(d, bs);
    Powers();
    ReadLEWithin(m, a, bs, 0, 8, d.addr);
    ReadLEWithin(m, a, bs, 8, 4, d.len);
    ReadLEWithin(m, a, bs, 12, 2, d.flags);
    ReadLEWithin(m, a, bs, 14, 2, d.next);
  }

  /** Section 5.2.6: request type, four reserved bytes, sector. */
  function HeaderBytes(reqType: nat, reserved: seq<byte>, sector: nat): seq<byte> {
    ToLE(reqType, 4) + reserved + ToLE(sector, 8)
  }

  /** A request laid out by the specification, header and data descriptor, is the one the device carries
      out. */
  lemma RequestLayout(q: Queue, m: Mem, head: nat, header: Desc, data: Desc, r: Request, reserved: seq<byte>)
    requires DescAt(q, m, head) == Some(header) && header.len >= 16 && HasNext(header)
    requires DescAt(q, m, header.next) == Some(data) && data.len == r.len > 0 && data.addr == r.addr
    requires |reserved| == 4 && r.reqType < 0x1_0000_0000 && r.sector < 0x1_0000_0000_0000_0000
    requires ReadBlock(m, header.addr, 16) == Some(HeaderBytes(r.reqType, reserved, r.sector))
    ensures ParseChain(q, m, head) == Some(r)
  {
    var bs := HeaderBytes(r.reqType, reserved, r.sector);
    assert bs[0..4] == ToLE(r.reqType, 4) && bs[8..16] == ToLE(r.sector, 8);
    Powers();
    ReadLEWithin(m, header.addr, bs, 0, 4, r.reqType);
    ReadLEWithin(m, header.addr, bs, 8, 8, r.sector);
  }
}
