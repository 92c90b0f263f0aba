/** The block device's descriptor queue: what one notification does to the device, the disk and the
    guest's memory. */
module VirtioSpec {
  import opened Memory

  const SECTOR_SIZE: nat := 512
  const RING_MAX: nat := 8
  const HEADER_LEN: nat := 16

  /** Where the guest placed the queue. */
  datatype Queue = Queue(desc: nat, avail: nat, used: nat, num: nat, ready: bool, pfn: nat)

  /** The disk, and the window that shows the first sector of the latest transfer. */
  datatype Media = Media(disk: seq<byte>, window: seq<byte>)

  datatype Regs = Regs(
    availIdx: nat, head: nat, lastUsedHead: nat, reqType: nat, sector: nat, failed: bool, status: nat, irq: bool,
    succeeded: u64, errors: u64, notReady: u64, noAvail: u64, raised: u64)

  datatype Device = Device(queue: Queue, media: Media, usedIdx: nat, usedRing: seq<nat>, regs: Regs)

  predicate Shaped(d: Device) {
    d.queue.num <= RING_MAX && |d.usedRing| == RING_MAX && |d.media.window| == SECTOR_SIZE
  }

  function Saturating(x: u64): u64 { if x == 0xFFFF_FFFF_FFFF_FFFF then x else x + 1 }

  function Next16(x: nat): nat { (x + 1) % 0x1_0000 }

  // ---- Descriptors ----

  datatype Desc = Desc(addr: nat, len: nat, flags: nat, next: nat)

  function ReadDesc(q: Queue, m: Mem, index: nat): Option<Desc> {
    var a := q.desc + index * 16;
    var addr, len, flags, next := ReadLE(m, a, 8), ReadLE(m, a + 8, 4), ReadLE(m, a + 12, 2), ReadLE(m, a + 14, 2);
    if addr.None? || len.None? || flags.None? || next.None? then None
    else Some(Desc(addr.value, len.value, flags.value, next.value))
  }

  predicate HasNext(desc: Desc) { desc.flags % 2 == 1 }

  /** The descriptor with this number, if there is one. */
  function DescAt(q: Queue, m: Mem, index: nat): Option<Desc> {
    if index >= q.num then None else ReadDesc(q, m, index)
  }

  datatype Request = Request(reqType: nat, sector: nat, addr: nat, len: nat)

  /** The request a chain describes: header descriptor, then data descriptor. */
  function ParseChain(q: Queue, m: Mem, head: nat): (r: Option<Request>)
    ensures r.Some? ==> r.value.len > 0
  {
    match DescAt(q, m, head)
    case None => None
    case Some(header) =>
      if header.len < HEADER_LEN || !HasNext(header) then None
      else match DescAt(q, m, header.next)
        case None => None
        case Some(data) =>
          if data.len == 0 then None
          else
            var reqType, sector := ReadLE(m, header.addr, 4), ReadLE(m, header.addr + 8, 8);
            if reqType.None? || sector.None? then None
            else Some(Request(reqType.value, sector.value, data.addr, data.len))
  }

  /** Where the third descriptor of the chain asks for the status byte. */
  function StatusAddr(q: Queue, m: Mem, head: nat): Option<nat> {
    match DescAt(q, m, head)
    case None => None
    case Some(header) =>
      if !HasNext(header) then None
      else match DescAt(q, m, header.next)
        case None => None
        case Some(data) =>
          if !HasNext(data) then None
          else match DescAt(q, m, data.next)
            case None => None
            case Some(status) => if status.len < 1 then None else Some(status.addr)
  }

  // ---- Transfers ----

  /** A request must start at a sector of the disk and end within it. */
  predicate OnDisk(disk: seq<byte>, q: Request) {
    q.sector * SECTOR_SIZE + SECTOR_SIZE <= |disk| && q.sector * SECTOR_SIZE + q.len <= |disk|
  }

  function Overwrite(s: seq<byte>, at: nat, bs: seq<byte>): (r: seq<byte>)
    requires at + |bs| <= |s|
    ensures |r| == |s|
  {
    s[..at] + bs + s[at + |bs|..]
  }

  /** The bytes up to the first one that cannot be read. */
  function ReadPrefix(m: Mem, a: int, n: nat): (r: seq<byte>)
    ensures |r| <= n
    decreases m, n
  {
    if n == 0 || !CanRead(m, a) then [] else [m.bytes[a]] + ReadPrefix(m, a + 1, n - 1)
  }

  /** The window shows the first sector of what passed through the device. */
  function Shown(window: seq<byte>, bs: seq<byte>): (r: seq<byte>)
    requires |window| == SECTOR_SIZE
    ensures |r| == SECTOR_SIZE
  {
    Overwrite(window, 0, if |bs| <= SECTOR_SIZE then bs else bs[..SECTOR_SIZE])
  }

  datatype Moved = Moved(media: Media, mem: Mem, ok: bool)

  function Transfer(media: Media, m: Mem, r: Request): (t: Moved)
    requires |media.window| == SECTOR_SIZE
    ensures |t.media.disk| == |media.disk| && |t.media.window| == SECTOR_SIZE && SameRegions(m, t.mem)
  {
    if !OnDisk(media.disk, r) then Moved(media, m, false)
    else if r.reqType == 0 then TransferIn(media, m, r.sector * SECTOR_SIZE, r.addr, r.len)
    else if r.reqType == 1 then TransferOut(media, m, r.sector * SECTOR_SIZE, r.addr, r.len)
    else Moved(media, m, false)
  }

  /** Disk to guest.  The window has also seen the byte the guest's memory refused. */
  function TransferIn(media: Media, m: Mem, at: nat, a: nat, n: nat): (t: Moved)
    requires at + n <= |media.disk| && |media.window| == SECTOR_SIZE
    ensures t.media.disk == media.disk && |t.media.window| == SECTOR_SIZE && SameRegions(m, t.mem)
  {
    var bs := media.disk[at..at + n];
    var w := WriteBlock(m, a, bs);
    Moved(Media(media.disk, Shown(media.window, if w.ok then bs else bs[..w.count + 1])), w.mem, w.ok)
  }

  /** Guest to disk, up to the first byte the guest's memory refuses. */
  function TransferOut(media: Media, m: Mem, at: nat, a: nat, n: nat): (t: Moved)
    requires at + n <= |media.disk| && |media.window| == SECTOR_SIZE
    ensures t.mem == m && |t.media.disk| == |media.disk| && |t.media.window| == SECTOR_SIZE
  {
    var bs := ReadPrefix(m, a, n);
    Moved(Media(Overwrite(media.disk, at, bs), Shown(media.window, bs)), m, |bs| == n)
  }

  // ---- One notification ----

  /** What a chain asked for, if it could be read, and what came of it. */
  datatype Processed = Processed(request: Option<Request>, moved: Moved)

  function Process(q: Queue, media: Media, m: Mem, head: nat): (p: Processed)
    requires |media.window| == SECTOR_SIZE
    ensures |p.moved.media.disk| == |media.disk| && |p.moved.media.window| == SECTOR_SIZE && SameRegions(m, p.moved.mem)
    ensures p.moved.ok ==> p.request.Some? && p.request.value.len > 0
  {
    match ParseChain(q, m, head)
    case None => Processed(None, Moved(media, m, false))
    case Some(r) => Processed(Some(r), Transfer(media, m, r))
  }

  /** The length reported to the guest: a failed chain moved nothing. */
  function Length(p: Processed): nat {
    if p.moved.ok && p.request.Some? then p.request.value.len else 0
  }

  predicate IsReady(q: Queue) { (q.ready || q.pfn != 0) && q.num > 0 }

  /** An element of the used ring. */
  datatype Used = Used(head: nat, len: nat)

  function WriteUsedElem(m: Mem, a: nat, u: Used): (r: Mem)
    ensures SameRegions(m, r)
  {
    var first := WriteLE(m, a, 4, u.head);
    if first.ok then WriteLE(first.mem, a + 4, 4, u.len).mem else first.mem
  }

  function WriteStatus(q: Queue, m: Mem, head: nat, ok: bool): (r: Mem)
    ensures SameRegions(m, r)
  {
    match StatusAddr(q, m, head)
    case None => m
    case Some(a) => WriteBlock(m, a, [if ok then 0 else 1]).mem
  }

  /** Used element first, then the used index; refused stores are ignored. */
  function Publish(q: Queue, m: Mem, slot: nat, u: Used, idx: nat): (r: Mem)
    ensures SameRegions(m, r)
  {
    WriteLE(WriteUsedElem(m, q.used + 4 + slot * 8, u), q.used + 2, 2, idx).mem
  }

  datatype Served = Served(device: Device, mem: Mem)

  function Failed(r: Regs): Regs { r.(failed := true, status := 0) }

  /** The next head, unless the queue is not ready, its ring cannot be read, or it holds nothing new. */
  function Take(d: Device, m: Mem): (t: (Device, Option<nat>))
    requires Shaped(d)
    ensures Shaped(t.0) && t.0 == d.(regs := t.0.regs) && (t.1.Some? ==> IsReady(d.queue))
  {
    if !IsReady(d.queue) then (d.(regs := Failed(d.regs.(notReady := Saturating(d.regs.notReady)))), None)
    else match ReadLE(m, d.queue.avail + 2, 2)
      case None => (d.(regs := Failed(d.regs)), None)
      case Some(avail) =>
        var regs := d.regs.(availIdx := avail);
        if avail == d.usedIdx then (d.(regs := Failed(regs.(noAvail := Saturating(regs.noAvail)))), None)
        else match ReadLE(m, d.queue.avail + 4 + d.usedIdx % d.queue.num * 2, 2)
          case None => (d.(regs := Failed(regs)), None)
          case Some(head) => (d.(regs := regs.(head := head)), Some(head))
  }

  function Serve(d: Device, m: Mem): (s: Served)
    requires Shaped(d)
    ensures Shaped(s.device) && SameRegions(m, s.mem)
  {
    var t := Take(d, m);
    if t.1.None? then Served(t.0, m) else Reply(t.0, Process(d.queue, d.media, m, t.1.value), t.1.value)
  }

  /** Counts, status byte, used element, used index, interrupt. */
  function Reply(d: Device, p: Processed, head: nat): (s: Served)
    requires Shaped(d) && IsReady(d.queue) && |p.moved.media.window| == SECTOR_SIZE
    ensures Shaped(s.device) && SameRegions(p.moved.mem, s.mem)
  {
    var slot, idx := d.usedIdx % d.queue.num, Next16(d.usedIdx);
    Served(
      d.(media := p.moved.media, usedIdx := idx, usedRing := d.usedRing[slot := head],
         regs := Finished(Counted(Noted(d.regs, p.request), p.moved.ok), head)),
      Publish(d.queue, WriteStatus(d.queue, p.moved.mem, head, p.moved.ok), slot, Used(head, Length(p)), idx))
  }

  function Noted(r: Regs, request: Option<Request>): Regs {
    if request.Some? then r.(reqType := request.value.reqType, sector := request.value.sector) else r
  }

  function Counted(r: Regs, ok: bool): Regs {
    if ok then r.(succeeded := Saturating(r.succeeded), failed := false, status := 1)
    else Failed(r.(errors := Saturating(r.errors)))
  }

  function Finished(r: Regs, head: nat): Regs {
    r.(lastUsedHead := head, irq := true, raised := Saturating(r.raised))
  }
}
