/** What a guest finds after its chain has been served, in terms of the words of its descriptors. */
module VirtioStatus {
  import opened Memory
  import opened VirtioSpec
  import opened VirtioRuns
  import opened VirtioDisk

  /** A chain of three descriptors: header, data, status byte. */
  datatype Chain = Chain(head: nat, header: Desc, data: Desc, status: Desc)

  /** Sixteen bytes to a descriptor: address, length, flags, next. */
  predicate StandsAt(m: Mem, at: nat, d: Desc) {
    ReadLE(m, at, 8) == Some(d.addr) && ReadLE(m, at + 8, 4) == Some(d.len) &&
    ReadLE(m, at + 12, 2) == Some(d.flags) && ReadLE(m, at + 14, 2) == Some(d.next)
  }

  /** The chain stands in the table, each descriptor but the last with its lowest flag set. */
  predicate ChainStands(q: Queue, m: Mem, c: Chain) {
    c.head < q.num && c.header.next < q.num && c.data.next < q.num &&
    StandsAt(m, q.desc + c.head * 16, c.header) && StandsAt(m, q.desc + c.header.next * 16, c.data) &&
    StandsAt(m, q.desc + c.data.next * 16, c.status) &&
    c.header.flags % 2 == 1 && c.data.flags % 2 == 1 && c.status.len >= 1
  }

  lemma StandingIsRead(q: Queue, m: Mem, i: nat, d: Desc)
    requires i < q.num && StandsAt(m, q.desc + i * 16, d)
    ensures DescAt(q, m, i) == Some(d)
  {
  }

  lemma StatusIsAt(q: Queue, m: Mem, c: Chain)
    requires DescAt(q, m, c.head) == Some(c.header) && DescAt(q, m, c.header.next) == Some(c.data)
    requires DescAt(q, m, c.data.next) == Some(c.status) && HasNext(c.header) && HasNext(c.data) && c.status.len >= 1
    ensures StatusAddr(q, m, c.head) == Some(c.status.addr)
  {
  }

  lemma ChainIsRead(q: Queue, m: Mem, c: Chain)
    requires ChainStands(q, m, c)
    ensures DescAt(q, m, c.head) == Some(c.header) && DescAt(q, m, c.header.next) == Some(c.data)
    ensures DescAt(q, m, c.data.next) == Some(c.status)
  {
    StandingIsRead(q, m, c.head, c.header);
    StandingIsRead(q, m, c.header.next, c.data);
    StandingIsRead(q, m, c.data.next, c.status);
  }

  lemma StatusIsRead(q: Queue, m: Mem, c: Chain)
    requires ChainStands(q, m, c)
    ensures StatusAddr(q, m, c.head) == Some(c.status.addr)
  {
    ChainIsRead(q, m, c);
    StatusIsAt(q, m, c);
  }

  /** The first word of the header: 0 reads from the disk, 1 writes to it. */
  function TypeOf(m: Mem, c: Chain): Option<nat> { ReadLE(m, c.header.addr, 4) }

  function SectorOf(m: Mem, c: Chain): Option<nat> { ReadLE(m, c.header.addr + 8, 8) }

  /** A header of sixteen bytes with a known type, some data, a first sector and an end on the disk, and a buffer
      that can take or give the data. */
  ghost predicate CanDo(disk: seq<byte>, m: Mem, c: Chain) {
    var t, s := TypeOf(m, c), SectorOf(m, c);
    c.header.len >= 16 && c.data.len > 0 && t.Some? && s.Some? &&
    s.value * 512 + 512 <= |disk| && s.value * 512 + c.data.len <= |disk| &&
    ((t.value == 0 && Writable(m, c.data.addr, c.data.len)) || (t.value == 1 && Readable(m, c.data.addr, c.data.len)))
  }

  lemma ParseOf(q: Queue, m: Mem, c: Chain, t: Option<nat>, s: Option<nat>)
    requires DescAt(q, m, c.head) == Some(c.header) && DescAt(q, m, c.header.next) == Some(c.data) && HasNext(c.header)
    requires t == TypeOf(m, c) && s == SectorOf(m, c)
    ensures ParseChain(q, m, c.head) ==
      if c.header.len < 16 || c.data.len == 0 || t.None? || s.None? then None
      else Some(Request(t.value, s.value, c.data.addr, c.data.len))
  {
  }

  lemma ParsesTo(q: Queue, m: Mem, c: Chain, t: Option<nat>, s: Option<nat>)
    requires ChainStands(q, m, c) && t == TypeOf(m, c) && s == SectorOf(m, c)
    ensures ParseChain(q, m, c.head) ==
      if c.header.len < 16 || c.data.len == 0 || t.None? || s.None? then None
      else Some(Request(t.value, s.value, c.data.addr, c.data.len))
  {
    ChainIsRead(q, m, c);
    ParseOf(q, m, c, t, s);
  }

  /** A parsed request that can be carried out. */
  ghost predicate RequestFits(disk: seq<byte>, m: Mem, r: Request) {
    OnDisk(disk, r) && r.reqType <= 1 &&
    forall x :: r.addr <= x < r.addr + r.len ==> if r.reqType == 0 then CanWrite(m, x) else CanRead(m, x)
  }

  lemma FeasibleIs(q: Queue, disk: seq<byte>, m: Mem, head: nat, r: Option<Request>)
    requires r == ParseChain(q, m, head)
    ensures Feasible(q, disk, m, head) <==> r.Some? && RequestFits(disk, m, r.value)
  {
  }

  lemma RequestCanDo(disk: seq<byte>, m: Mem, c: Chain, r: Request)
    requires TypeOf(m, c) == Some(r.reqType) && SectorOf(m, c) == Some(r.sector)
    requires r.addr == c.data.addr && r.len == c.data.len
    ensures CanDo(disk, m, c) <==> c.header.len >= 16 && r.len > 0 && RequestFits(disk, m, r)
  {
  }

  lemma CanDoIsFeasible(q: Queue, disk: seq<byte>, m: Mem, c: Chain)
    requires ChainStands(q, m, c)
    ensures CanDo(disk, m, c) <==> Feasible(q, disk, m, c.head)
  {
    var t, s := TypeOf(m, c), SectorOf(m, c);
    ParsesTo(q, m, c, t, s);
    FeasibleIs(q, disk, m, c.head, ParseChain(q, m, c.head));
    if t.Some? && s.Some? { RequestCanDo(disk, m, c, Request(t.value, s.value, c.data.addr, c.data.len)); }
  }

  // ---- The chain while it is served ----

  /** The disk is not read into the chain's own descriptors. */
  predicate OffDescriptors(q: Queue, m: Mem, c: Chain) {
    TypeOf(m, c) == Some(0) ==>
      Apart(c.data.addr, c.data.len, q.desc + c.head * 16, 16) &&
      Apart(c.data.addr, c.data.len, q.desc + c.header.next * 16, 16) &&
      Apart(c.data.addr, c.data.len, q.desc + c.data.next * 16, 16)
  }

  lemma TransferElsewhere(media: Media, m: Mem, r: Request, a: int, n: nat)
    requires |media.window| == SECTOR_SIZE && (r.reqType == 0 ==> Apart(r.addr, r.len, a, n))
    ensures AgreeOn(m, Transfer(media, m, r).mem, a, n)
  {
    if OnDisk(media.disk, r) && r.reqType == 0 {
      var at := r.sector * SECTOR_SIZE;
      WriteBlockElsewhere(m, r.addr, media.disk[at..at + r.len], a, n);
    }
  }

  lemma ProcessElsewhere(q: Queue, media: Media, m: Mem, head: nat, a: int, n: nat)
    requires |media.window| == SECTOR_SIZE
    requires var r := ParseChain(q, m, head); r.Some? && r.value.reqType == 0 ==> Apart(r.value.addr, r.value.len, a, n)
    ensures AgreeOn(m, Process(q, media, m, head).moved.mem, a, n)
  {
    var r := ParseChain(q, m, head);
    if r.Some? { TransferElsewhere(media, m, r.value, a, n); }
  }

  /** The transfer touches only the buffer, and that only when the disk is read. */
  lemma TransferTouches(q: Queue, media: Media, m: Mem, c: Chain, a: int, n: nat)
    requires |media.window| == SECTOR_SIZE && ChainStands(q, m, c)
    requires TypeOf(m, c) == Some(0) ==> Apart(c.data.addr, c.data.len, a, n)
    ensures AgreeOn(m, Process(q, media, m, c.head).moved.mem, a, n)
  {
    ParsesTo(q, m, c, TypeOf(m, c), SectorOf(m, c));
    ProcessElsewhere(q, media, m, c.head, a, n);
  }

  // The descriptor table as a value, to follow a chain without reading its words.

  type TableFunction = (Mem, nat) -> Option<Desc>

  ghost predicate IsTable(f: TableFunction, q: Queue) {
    forall m, i {:trigger DescAt(q, m, i)} :: f(m, i) == DescAt(q, m, i)
  }

  lemma TableAsValue(q: Queue) returns (f: TableFunction)
    ensures IsTable(f, q)
  {
    f := (m: Mem, i: nat) => DescAt(q, m, i);
  }

  predicate Links(f: TableFunction, m: Mem, c: Chain) {
    f(m, c.head) == Some(c.header) && f(m, c.header.next) == Some(c.data) && f(m, c.data.next) == Some(c.status)
  }

  lemma ChainLinks(f: TableFunction, q: Queue, m: Mem, c: Chain)
    requires IsTable(f, q) && ChainStands(q, m, c)
    ensures Links(f, m, c)
  {
    ChainIsRead(q, m, c);
  }

  lemma DescKept(f: TableFunction, q: Queue, m: Mem, m': Mem, i: nat)
    requires IsTable(f, q) && SameRegions(m, m') && AgreeOn(m, m', q.desc + i * 16, 16)
    ensures f(m', i) == f(m, i)
  {
    var a := q.desc + i * 16;
    ReadLEFrame(m, m', a, 8);
    ReadLEFrame(m, m', a + 8, 4);
    ReadLEFrame(m, m', a + 12, 2);
    ReadLEFrame(m, m', a + 14, 2);
    assert f(m, i) == DescAt(q, m, i) && f(m', i) == DescAt(q, m', i);
  }

  lemma LinksStatus(f: TableFunction, q: Queue, m: Mem, c: Chain)
    requires IsTable(f, q) && Links(f, m, c) && HasNext(c.header) && HasNext(c.data) && c.status.len >= 1
    ensures StatusAddr(q, m, c.head) == Some(c.status.addr)
  {
    assert DescAt(q, m, c.head) == Some(c.header) && DescAt(q, m, c.header.next) == Some(c.data);
    assert DescAt(q, m, c.data.next) == Some(c.status);
    StatusIsAt(q, m, c);
  }

  lemma TableKept(q: Queue, media: Media, m: Mem, c: Chain, m': Mem)
    requires |media.window| == SECTOR_SIZE && ChainStands(q, m, c) && OffDescriptors(q, m, c)
    requires m' == Process(q, media, m, c.head).moved.mem
    ensures AgreeOn(m, m', q.desc + c.head * 16, 16) && AgreeOn(m, m', q.desc + c.header.next * 16, 16)
    ensures AgreeOn(m, m', q.desc + c.data.next * 16, 16) && SameRegions(m, m')
  {
    TransferTouches(q, media, m, c, q.desc + c.head * 16, 16);
    TransferTouches(q, media, m, c, q.desc + c.header.next * 16, 16);
    TransferTouches(q, media, m, c, q.desc + c.data.next * 16, 16);
  }

  lemma ChainKept(f: TableFunction, q: Queue, m: Mem, c: Chain, m': Mem)
    requires IsTable(f, q) && Links(f, m, c) && SameRegions(m, m')
    requires AgreeOn(m, m', q.desc + c.head * 16, 16) && AgreeOn(m, m', q.desc + c.header.next * 16, 16)
    requires AgreeOn(m, m', q.desc + c.data.next * 16, 16)
    ensures Links(f, m', c)
  {
    DescKept(f, q, m, m', c.head);
    DescKept(f, q, m, m', c.header.next);
    DescKept(f, q, m, m', c.data.next);
  }

  lemma ChainServed(q: Queue, media: Media, m: Mem, c: Chain, m': Mem)
    requires |media.window| == SECTOR_SIZE && ChainStands(q, m, c) && OffDescriptors(q, m, c)
    requires m' == Process(q, media, m, c.head).moved.mem
    ensures StatusAddr(q, m', c.head) == Some(c.status.addr)
  {
    var f := TableAsValue(q);
    ChainLinks(f, q, m, c);
    TableKept(q, media, m, c, m');
    ChainKept(f, q, m, c, m');
    LinksStatus(f, q, m', c);
  }

  // ---- What a service leaves ----

  /** The available ring, read where its words stand, has something new, and `head` is it. */
  predicate Offers(d: Device, m: Mem, head: nat)
    requires d.queue.num > 0
  {
    var idx := ReadLE(m, d.queue.avail + 2, 2);
    idx.Some? && idx.value != d.usedIdx && ReadLE(m, d.queue.avail + 4 + d.usedIdx % d.queue.num * 2, 2) == Some(head)
  }

  /** A chain is next, stands in the table, and stays there while it is served. */
  ghost predicate Next(d: Device, m: Mem, c: Chain) {
    Shaped(d) && IsReady(d.queue) && PowerOfTwo(d.queue.num) && d.usedIdx < 0x1_0000 &&
    Offers(d, m, c.head) && ChainStands(d.queue, m, c) && OffDescriptors(d.queue, m, c)
  }

  /** The service in steps: after the transfer, the status byte, the used element, the used index. */
  datatype Steps = Steps(m1: Mem, m2: Mem, m3: Mem, m4: Mem, ok: bool, slot: nat, len: nat)

  predicate Stored(m: Mem, m': Mem, a: int, bs: seq<byte>) { m' == WriteBlock(m, a, bs).mem }

  predicate IsSteps(q: Queue, c: Chain, t: Steps, next: nat) {
    t.slot < q.num && Stored(t.m1, t.m2, c.status.addr, [if t.ok then 0 else 1]) &&
    t.m3 == WriteUsedElem(t.m2, q.used + 4 + t.slot * 8, Used(c.head, t.len)) &&
    t.m4 == WriteLE(t.m3, q.used + 2, 2, next).mem
  }

  lemma LengthIs(q: Queue, media: Media, m: Mem, c: Chain, p: Processed)
    requires |media.window| == SECTOR_SIZE && ChainStands(q, m, c) && p == Process(q, media, m, c.head)
    ensures (p.moved.ok <==> CanDo(media.disk, m, c)) && Length(p) == if p.moved.ok then c.data.len else 0
  {
    ParsesTo(q, m, c, TypeOf(m, c), SectorOf(m, c));
    LengthTellsSuccess(q, media, m, c.head);
    CanDoIsFeasible(q, media.disk, m, c);
  }

  lemma ServiceIs(d: Device, m: Mem, head: nat, p: Processed, slot: nat, next: nat, sv: Served, m2: Mem)
    requires Shaped(d) && IsReady(d.queue) && NextHead(d, m) == Some(head) && p == Process(d.queue, d.media, m, head)
    requires slot == d.usedIdx % d.queue.num && next == (d.usedIdx + 1) % 0x1_0000 && sv == Serve(d, m)
    requires m2 == WriteStatus(d.queue, p.moved.mem, head, p.moved.ok)
    ensures sv.mem == Publish(d.queue, m2, slot, Used(head, Length(p)), next)
  {
    var d1 := ServeIsReply(d, m);
  }

  lemma StatusIsStored(q: Queue, m: Mem, head: nat, a: nat, ok: bool, m': Mem)
    requires StatusAddr(q, m, head) == Some(a) && m' == WriteStatus(q, m, head, ok)
    ensures Stored(m, m', a, [if ok then 0 else 1])
  {
  }

  lemma ReplySteps(q: Queue, c: Chain, m1: Mem, m2: Mem, ok: bool, len: nat, slot: nat, next: nat, after: Mem)
      returns (t: Steps)
    requires slot < q.num && Stored(m1, m2, c.status.addr, [if ok then 0 else 1])
    requires after == Publish(q, m2, slot, Used(c.head, len), next)
    ensures IsSteps(q, c, t, next) && t.m1 == m1 && t.m4 == after && t.ok == ok && t.len == len && t.slot == slot
  {
    t := Steps(m1, m2, WriteUsedElem(m2, q.used + 4 + slot * 8, Used(c.head, len)), after, ok, slot, len);
  }

  /** The steps after the transfer touch only the status byte, the used element and the used index. */
  lemma StepsElsewhere(q: Queue, c: Chain, t: Steps, next: nat, a: int, n: nat)
    requires IsSteps(q, c, t, next) && Apart(c.status.addr, 1, a, n)
    requires Apart(q.used + 4 + t.slot * 8, 8, a, n) && Apart(q.used + 2, 2, a, n)
    ensures AgreeOn(t.m1, t.m4, a, n)
  {
    WriteBlockElsewhere(t.m1, c.status.addr, [if t.ok then 0 else 1], a, n);
    PublishElsewhere(q, t.m2, t.m3, t.m4, t.slot, Used(c.head, t.len), next, a, n);
  }

  lemma ByteStored(m: Mem, m': Mem, a: nat, b: byte)
    requires CanWrite(m, a) && Stored(m, m', a, [b])
    ensures CanRead(m', a) && m'.bytes[a] == b
  {
    WriteBlockSpec(m, a, [b]);
  }

  lemma StepsLeaveStatus(q: Queue, c: Chain, t: Steps, next: nat)
    requires IsSteps(q, c, t, next) && CanWrite(t.m1, c.status.addr)
    requires Apart(q.used, 4 + q.num * 8, c.status.addr, 1)
    ensures CanRead(t.m4, c.status.addr) && t.m4.bytes[c.status.addr] == if t.ok then 0 else 1
  {
    ByteStored(t.m1, t.m2, c.status.addr, if t.ok then 0 else 1);
    PublishElsewhere(q, t.m2, t.m3, t.m4, t.slot, Used(c.head, t.len), next, c.status.addr, 1);
  }

  // Service and chain as values, to carry their results without their definitions.

  type ServeFunction = (Device, Mem) -> Served

  type ProcessFunction = (Queue, Media, Mem, nat) -> Processed

  ghost predicate IsServe(serve: ServeFunction) {
    forall d, m {:trigger Serve(d, m)} :: Shaped(d) ==> serve(d, m) == Serve(d, m)
  }

  ghost predicate IsProcess(process: ProcessFunction) {
    forall q, media: Media, m, head {:trigger Process(q, media, m, head)} ::
      |media.window| == SECTOR_SIZE ==> process(q, media, m, head) == Process(q, media, m, head)
  }

  lemma AsValues(d: Device, m: Mem) returns (serve: ServeFunction, process: ProcessFunction)
    requires Shaped(d)
    ensures IsServe(serve) && IsProcess(process) && serve(d, m) == Serve(d, m)
  {
    serve := (d, m) => if Shaped(d) then Serve(d, m) else Served(d, m);
    process := (q, media: Media, m, head: nat) =>
      if |media.window| == SECTOR_SIZE then Process(q, media, m, head) else Processed(None, Moved(media, m, false));
  }

  /** The status byte, after the transfer. */
  lemma AfterTransfer(process: ProcessFunction, q: Queue, media: Media, m: Mem, c: Chain, p: Processed)
      returns (m2: Mem)
    requires |media.window| == SECTOR_SIZE && ChainStands(q, m, c) && OffDescriptors(q, m, c)
    requires IsProcess(process) && p == process(q, media, m, c.head)
    ensures m2 == WriteStatus(q, p.moved.mem, c.head, p.moved.ok)
    ensures Stored(p.moved.mem, m2, c.status.addr, [if p.moved.ok then 0 else 1])
  {
    ChainServed(q, media, m, c, Process(q, media, m, c.head).moved.mem);
    m2 := WriteStatus(q, p.moved.mem, c.head, p.moved.ok);
    StatusIsStored(q, p.moved.mem, c.head, c.status.addr, p.moved.ok, m2);
  }

  lemma ServedMem(serve: ServeFunction, process: ProcessFunction, d: Device, m: Mem, head: nat, p: Processed, slot: nat,
                  next: nat, m2: Mem)
    requires IsServe(serve) && IsProcess(process) && Shaped(d) && IsReady(d.queue) && NextHead(d, m) == Some(head)
    requires p == process(d.queue, d.media, m, head) && m2 == WriteStatus(d.queue, p.moved.mem, head, p.moved.ok)
    requires slot == d.usedIdx % d.queue.num && next == (d.usedIdx + 1) % 0x1_0000
    ensures serve(d, m).mem == Publish(d.queue, m2, slot, Used(head, Length(p)), next)
  {
    ServiceIs(d, m, head, Process(d.queue, d.media, m, head), slot, next, Serve(d, m), m2);
  }

  /** The steps of a service, with what they start from. */
  lemma ServedInSteps(serve: ServeFunction, process: ProcessFunction, d: Device, m: Mem, c: Chain, slot: nat, next: nat,
                      p: Processed, sv: Served) returns (t: Steps)
    requires IsServe(serve) && IsProcess(process) && Next(d, m, c)
    requires slot == d.usedIdx % d.queue.num && next == (d.usedIdx + 1) % 0x1_0000
    requires p == process(d.queue, d.media, m, c.head) && sv == serve(d, m)
    ensures IsSteps(d.queue, c, t, next) && t.slot == slot && t.m4 == sv.mem && t.m1 == p.moved.mem
    ensures t.ok == p.moved.ok && t.len == Length(p)
  {
    var m2 := AfterTransfer(process, d.queue, d.media, m, c, p);
    ServedMem(serve, process, d, m, c.head, p, slot, next, m2);
    t := ReplySteps(d.queue, c, p.moved.mem, m2, p.moved.ok, Length(p), slot, next, sv.mem);
  }

  /** A service in steps, from the memory the transfer leaves to the end. */
  ghost predicate IsService(d: Device, m: Mem, c: Chain, t: Steps, p: Processed, sv: Served) {
    IsSteps(d.queue, c, t, (d.usedIdx + 1) % 0x1_0000) && SameRegions(m, t.m1) && t.slot == d.usedIdx % d.queue.num &&
    (t.ok <==> CanDo(d.media.disk, m, c)) && t.len == (if t.ok then c.data.len else 0) &&
    t.m1 == p.moved.mem && t.m4 == sv.mem
  }

  lemma Service(serve: ServeFunction, process: ProcessFunction, d: Device, m: Mem, c: Chain) returns (t: Steps)
    requires IsServe(serve) && IsProcess(process) && Next(d, m, c)
    ensures IsService(d, m, c, t, process(d.queue, d.media, m, c.head), serve(d, m))
  {
    var p, sv := process(d.queue, d.media, m, c.head), serve(d, m);
    t := ServedInSteps(serve, process, d, m, c, d.usedIdx % d.queue.num, (d.usedIdx + 1) % 0x1_0000, p, sv);
    LengthIs(d.queue, d.media, m, c, Process(d.queue, d.media, m, c.head));
  }

  lemma StatusAfter(d: Device, m: Mem, c: Chain, t: Steps, p: Processed, sv: Served)
    requires IsService(d, m, c, t, p, sv) && CanWrite(m, c.status.addr)
    requires Apart(d.queue.used, 4 + d.queue.num * 8, c.status.addr, 1)
    ensures CanRead(sv.mem, c.status.addr)
    ensures sv.mem.bytes[c.status.addr] == if CanDo(d.media.disk, m, c) then 0 else 1
  {
    StepsLeaveStatus(d.queue, c, t, (d.usedIdx + 1) % 0x1_0000);
  }

  /** Main result: after the whole service the third descriptor's byte is 0 if the chain could be carried out and 1
      if it could not. */
  lemma StatusTells(d: Device, m: Mem, c: Chain, sv: Served)
    requires Next(d, m, c) && CanWrite(m, c.status.addr) && sv == Serve(d, m)
    requires Apart(d.queue.used, 4 + d.queue.num * 8, c.status.addr, 1)
    ensures CanRead(sv.mem, c.status.addr)
    ensures sv.mem.bytes[c.status.addr] == if CanDo(d.media.disk, m, c) then 0 else 1
  {
    var serve, process := AsValues(d, m);
    var t := Service(serve, process, d, m, c);
    StatusAfter(d, m, c, t, process(d.queue, d.media, m, c.head), sv);
  }

  /** The same of a notification of a run the guest drives by the rules. */
  lemma NotifyTellsStatus(r: Run, c: Chain, m': Mem)
    requires Inv(r) && |r.answered| < |r.offered| && c.head == r.offered[|r.answered|]
    requires ChainStands(r.device.queue, r.mem, c) && OffDescriptors(r.device.queue, r.mem, c)
    requires CanWrite(r.mem, c.status.addr)
    requires Apart(r.device.queue.used, 4 + r.device.queue.num * 8, c.status.addr, 1)
    requires m' == Step(r, Notify).mem
    ensures CanRead(m', c.status.addr)
    ensures m'.bytes[c.status.addr] == if CanDo(r.device.media.disk, r.mem, c) then 0 else 1
  {
    NextIsOffered(r.device, r.mem, r.offered, r.answered);
    StatusTells(r.device, r.mem, c, Serve(r.device, r.mem));
  }

  // ---- What a service moves ----

  lemma LengthFitsWord(m: Mem, at: nat, d: Desc)
    requires StandsAt(m, at, d)
    ensures d.len < 0x1_0000_0000
  {
    assert Pow256(4) == 0x1_0000_0000;
  }

  lemma HeadFits(d: Device, m: Mem, head: nat)
    requires Shaped(d) && d.queue.num > 0 && NextHead(d, m) == Some(head)
    ensures head < 0x1_0000
  {
    assert Pow256(2) == 0x1_0000;
  }

  lemma StepsPublish(q: Queue, c: Chain, t: Steps, next: nat, at: nat)
    requires IsSteps(q, c, t, next) && UsedWritable(q, t.m2) && at == q.used + 4 + t.slot * 8
    requires c.head < 0x1_0000 && t.len < 0x1_0000_0000 && next < 0x1_0000
    ensures ReadLE(t.m4, at, 4) == Some(c.head) && ReadLE(t.m4, at + 4, 4) == Some(t.len)
    ensures ReadLE(t.m4, q.used + 2, 2) == Some(next)
  {
    PublishSets(q, t.m2, t.m3, t.m4, at, Used(c.head, t.len), next);
  }

  lemma UsedStaysWritable(q: Queue, c: Chain, t: Steps, next: nat, m: Mem)
    requires IsSteps(q, c, t, next) && SameRegions(m, t.m1) && Writable(m, q.used, 4 + q.num * 8)
    ensures UsedWritable(q, t.m2)
  {
    StillWritable(q, m, t.m2);
  }

  lemma StepsTell(q: Queue, c: Chain, t: Steps, next: nat, m: Mem, at: nat)
    requires IsSteps(q, c, t, next) && SameRegions(m, t.m1) && Writable(m, q.used, 4 + q.num * 8)
    requires at == q.used + 4 + t.slot * 8 && c.head < 0x1_0000 && t.len < 0x1_0000_0000 && next < 0x1_0000
    ensures ReadLE(t.m4, at, 4) == Some(c.head) && ReadLE(t.m4, at + 4, 4) == Some(t.len)
    ensures ReadLE(t.m4, q.used + 2, 2) == Some(next)
  {
    UsedStaysWritable(q, c, t, next, m);
    StepsPublish(q, c, t, next, at);
  }

  lemma NumbersFit(d: Device, m: Mem, c: Chain)
    requires Next(d, m, c)
    ensures c.head < 0x1_0000 && c.data.len < 0x1_0000_0000
  {
    HeadFits(d, m, c.head);
    LengthFitsWord(m, d.queue.desc + c.header.next * 16, c.data);
  }

  /** Main result: the used ring gets the chain's head and the length moved, none if it could not be carried out, in
      the slot of this answer, and its index advances by one. */
  lemma UsedTells(d: Device, m: Mem, c: Chain, sv: Served, at: nat, len: nat)
    requires Next(d, m, c) && Writable(m, d.queue.used, 4 + d.queue.num * 8) && sv == Serve(d, m)
    requires at == d.queue.used + 4 + d.usedIdx % d.queue.num * 8
    requires len == if CanDo(d.media.disk, m, c) then c.data.len else 0
    ensures ReadLE(sv.mem, at, 4) == Some(c.head) && ReadLE(sv.mem, at + 4, 4) == Some(len)
    ensures ReadLE(sv.mem, d.queue.used + 2, 2) == Some((d.usedIdx + 1) % 0x1_0000)
  {
    NumbersFit(d, m, c);
    var serve, process := AsValues(d, m);
    var t := Service(serve, process, d, m, c);
    UsedAfter(d, m, c, t, process(d.queue, d.media, m, c.head), sv, at, len);
  }

  lemma UsedAfter(d: Device, m: Mem, c: Chain, t: Steps, p: Processed, sv: Served, at: nat, len: nat)
    requires IsService(d, m, c, t, p, sv) && Writable(m, d.queue.used, 4 + d.queue.num * 8)
    requires at == d.queue.used + 4 + t.slot * 8 && c.head < 0x1_0000 && c.data.len < 0x1_0000_0000
    requires len == if CanDo(d.media.disk, m, c) then c.data.len else 0
    ensures ReadLE(sv.mem, at, 4) == Some(c.head) && ReadLE(sv.mem, at + 4, 4) == Some(len)
    ensures ReadLE(sv.mem, d.queue.used + 2, 2) == Some((d.usedIdx + 1) % 0x1_0000)
  {
    StepsTell(d.queue, c, t, (d.usedIdx + 1) % 0x1_0000, m, at);
  }

  lemma ProcessIs(q: Queue, media: Media, m: Mem, c: Chain, t: nat, s: nat)
    requires |media.window| == SECTOR_SIZE && ChainStands(q, m, c) && CanDo(media.disk, m, c)
    requires TypeOf(m, c) == Some(t) && SectorOf(m, c) == Some(s)
    ensures var r := Request(t, s, c.data.addr, c.data.len);
      Process(q, media, m, c.head).moved == Transfer(media, m, r) && Transfer(media, m, r).ok
  {
    ParsesTo(q, m, c, Some(t), Some(s));
    LengthTellsSuccess(q, media, m, c.head);
    CanDoIsFeasible(q, media.disk, m, c);
  }

  /** The bytes of memory from `a` on are those of the disk from `at` on. */
  ghost predicate Matches(m: Mem, a: int, disk: seq<byte>, at: nat, n: nat) {
    at + n <= |disk| && forall x :: a <= x < a + n ==> CanRead(m, x) && m.bytes[x] == disk[at + (x - a)]
  }

  lemma LoadedBytes(media: Media, m: Mem, r: Request)
    requires |media.window| == SECTOR_SIZE && r.reqType == 0 && Transfer(media, m, r).ok
    ensures Transfer(media, m, r).media.disk == media.disk
    ensures Matches(Transfer(media, m, r).mem, r.addr, media.disk, r.sector * 512, r.len)
  {
    var at := r.sector * SECTOR_SIZE;
    var data := media.disk[at..at + r.len];
    var m' := Transfer(media, m, r).mem;
    InLoads(media, m, r, at, data);
    BlockMatches(m', r.addr, data, media.disk, at);
  }

  lemma BlockMatches(m: Mem, a: nat, data: seq<byte>, disk: seq<byte>, at: nat)
    requires ReadBlock(m, a, |data|) == Some(data) && at + |data| <= |disk| && data == disk[at..at + |data|]
    ensures Matches(m, a, disk, at, |data|)
  {
    ReadBlockSpec(m, a, |data|);
    forall x | a <= x < a + |data|
      ensures CanRead(m, x) && m.bytes[x] == disk[at + (x - a)]
    {
      assert data[x - a] == disk[at + (x - a)];
    }
  }

  lemma StoredBytes(media: Media, m: Mem, r: Request, disk': seq<byte>, at: nat)
    requires |media.window| == SECTOR_SIZE && r.reqType == 1 && Transfer(media, m, r).ok
    requires disk' == Transfer(media, m, r).media.disk && at == r.sector * 512
    ensures |disk'| == |media.disk| && Matches(m, r.addr, disk', at, r.len)
    ensures forall i: nat :: i < |disk'| && !(at <= i < at + r.len) ==> disk'[i] == media.disk[i]
  {
    var data := OutStores(media, m, r, at);
    BlockMatches(m, r.addr, data, disk', at);
  }

  lemma ServedMedia(serve: ServeFunction, process: ProcessFunction, d: Device, m: Mem, head: nat)
    requires IsServe(serve) && IsProcess(process) && Shaped(d) && IsReady(d.queue) && NextHead(d, m) == Some(head)
    ensures serve(d, m).device.media == process(d.queue, d.media, m, head).moved.media
  {
    var d1 := ServeIsReply(d, m);
    assert serve(d, m) == Serve(d, m);
    assert process(d.queue, d.media, m, head) == Process(d.queue, d.media, m, head);
  }

  lemma MatchesKept(m: Mem, m': Mem, a: int, disk: seq<byte>, at: nat, n: nat)
    requires SameRegions(m, m') && AgreeOn(m, m', a, n) && Matches(m, a, disk, at, n)
    ensures Matches(m', a, disk, at, n)
  {
    forall x | a <= x < a + n
      ensures CanRead(m', x) && m'.bytes[x] == disk[at + (x - a)]
    {
      assert CanRead(m, x);
    }
  }

  lemma StepsRegions(q: Queue, c: Chain, t: Steps, next: nat)
    requires IsSteps(q, c, t, next)
    ensures SameRegions(t.m1, t.m4)
  {
  }

  lemma ChainLoads(process: ProcessFunction, q: Queue, media: Media, m: Mem, c: Chain, s: nat, p: Processed)
    requires IsProcess(process) && p == process(q, media, m, c.head)
    requires |media.window| == SECTOR_SIZE && ChainStands(q, m, c) && CanDo(media.disk, m, c)
    requires TypeOf(m, c) == Some(0) && SectorOf(m, c) == Some(s)
    ensures p.moved.media.disk == media.disk && Matches(p.moved.mem, c.data.addr, media.disk, s * 512, c.data.len)
  {
    ProcessIs(q, media, m, c, 0, s);
    LoadedBytes(media, m, Request(0, s, c.data.addr, c.data.len));
  }

  lemma ChainStores(process: ProcessFunction, q: Queue, media: Media, m: Mem, c: Chain, s: nat, p: Processed,
                    disk': seq<byte>)
    requires IsProcess(process) && p == process(q, media, m, c.head) && disk' == p.moved.media.disk
    requires |media.window| == SECTOR_SIZE && ChainStands(q, m, c) && CanDo(media.disk, m, c)
    requires TypeOf(m, c) == Some(1) && SectorOf(m, c) == Some(s)
    ensures |disk'| == |media.disk| && Matches(m, c.data.addr, disk', s * 512, c.data.len)
    ensures forall i: nat :: i < |disk'| && !(s * 512 <= i < s * 512 + c.data.len) ==> disk'[i] == media.disk[i]
  {
    ProcessIs(q, media, m, c, 1, s);
    StoredBytes(media, m, Request(1, s, c.data.addr, c.data.len), disk', s * 512);
  }

  lemma BufferStays(q: Queue, c: Chain, t: Steps, next: nat, disk: seq<byte>, at: nat)
    requires IsSteps(q, c, t, next) && Apart(c.status.addr, 1, c.data.addr, c.data.len)
    requires Apart(q.used, 4 + q.num * 8, c.data.addr, c.data.len)
    requires Matches(t.m1, c.data.addr, disk, at, c.data.len)
    ensures Matches(t.m4, c.data.addr, disk, at, c.data.len)
  {
    StepsElsewhere(q, c, t, next, c.data.addr, c.data.len);
    StepsRegions(q, c, t, next);
    MatchesKept(t.m1, t.m4, c.data.addr, disk, at, c.data.len);
  }

  lemma DiskStays(serve: ServeFunction, process: ProcessFunction, d: Device, m: Mem, c: Chain, s: nat)
    requires IsServe(serve) && IsProcess(process) && Next(d, m, c)
    requires CanDo(d.media.disk, m, c) && TypeOf(m, c) == Some(0) && SectorOf(m, c) == Some(s)
    ensures serve(d, m).device.media.disk == d.media.disk
  {
    ChainLoads(process, d.queue, d.media, m, c, s, process(d.queue, d.media, m, c.head));
    ServedMedia(serve, process, d, m, c.head);
  }

  lemma BufferFills(serve: ServeFunction, process: ProcessFunction, d: Device, m: Mem, c: Chain, s: nat)
    requires IsServe(serve) && IsProcess(process) && Next(d, m, c)
    requires CanDo(d.media.disk, m, c) && TypeOf(m, c) == Some(0) && SectorOf(m, c) == Some(s)
    requires Apart(c.status.addr, 1, c.data.addr, c.data.len)
    requires Apart(d.queue.used, 4 + d.queue.num * 8, c.data.addr, c.data.len)
    ensures Matches(serve(d, m).mem, c.data.addr, d.media.disk, s * 512, c.data.len)
  {
    ChainLoads(process, d.queue, d.media, m, c, s, process(d.queue, d.media, m, c.head));
    var t := Service(serve, process, d, m, c);
    BufferStays(d.queue, c, t, (d.usedIdx + 1) % 0x1_0000, d.media.disk, s * 512);
  }

  lemma WriteMeans(serve: ServeFunction, process: ProcessFunction, d: Device, m: Mem, c: Chain, s: nat,
                   disk': seq<byte>)
    requires IsServe(serve) && IsProcess(process) && disk' == serve(d, m).device.media.disk
    requires Next(d, m, c) && CanDo(d.media.disk, m, c) && TypeOf(m, c) == Some(1) && SectorOf(m, c) == Some(s)
    ensures |disk'| == |d.media.disk| && Matches(m, c.data.addr, disk', s * 512, c.data.len)
    ensures forall i: nat :: i < |disk'| && !(s * 512 <= i < s * 512 + c.data.len) ==> disk'[i] == d.media.disk[i]
  {
    ServedMedia(serve, process, d, m, c.head);
    ChainStores(process, d.queue, d.media, m, c, s, process(d.queue, d.media, m, c.head), disk');
  }

  /** Main result: a chain that reads the disk and can be carried out leaves the disk's bytes from 512 times the sector
      on in its buffer, if neither status byte nor used ring lies in it, and the disk as it was. */
  lemma ReadChainMeans(d: Device, m: Mem, c: Chain, s: nat, sv: Served)
    requires Next(d, m, c) && CanDo(d.media.disk, m, c) && TypeOf(m, c) == Some(0) && SectorOf(m, c) == Some(s)
    requires Apart(c.status.addr, 1, c.data.addr, c.data.len)
    requires Apart(d.queue.used, 4 + d.queue.num * 8, c.data.addr, c.data.len) && sv == Serve(d, m)
    ensures sv.device.media.disk == d.media.disk
    ensures Matches(sv.mem, c.data.addr, d.media.disk, s * 512, c.data.len)
  {
    var serve, process := AsValues(d, m);
    DiskStays(serve, process, d, m, c, s);
    BufferFills(serve, process, d, m, c, s);
  }

  /** Main result: a chain that writes the disk and can be carried out puts its buffer there from 512 times the sector
      on, and changes no other byte of the disk. */
  lemma WriteChainMeans(d: Device, m: Mem, c: Chain, s: nat, disk': seq<byte>)
    requires Next(d, m, c) && CanDo(d.media.disk, m, c) && TypeOf(m, c) == Some(1) && SectorOf(m, c) == Some(s)
    requires disk' == Serve(d, m).device.media.disk
    ensures |disk'| == |d.media.disk| && Matches(m, c.data.addr, disk', s * 512, c.data.len)
    ensures forall i: nat :: i < |disk'| && !(s * 512 <= i < s * 512 + c.data.len) ==> disk'[i] == d.media.disk[i]
  {
    var serve, process := AsValues(d, m);
    WriteMeans(serve, process, d, m, c, s, disk');
  }

  // ---- Registers ----

  /** A 64-bit counter that stops at its end. */
  function OneMore(x: u64): u64 { if x < 0xFFFF_FFFF_FFFF_FFFF then x + 1 else x }

  /** The registers after a chain that could be carried out, or could not. */
  predicate Registered(before: Regs, r: Regs, head: nat, ok: bool) {
    r.irq && r.head == r.lastUsedHead == head && r.raised == OneMore(before.raised) &&
    r.failed == !ok && r.status == (if ok then 1 else 0) &&
    r.succeeded == (if ok then OneMore(before.succeeded) else before.succeeded) &&
    r.errors == (if ok then before.errors else OneMore(before.errors)) &&
    r.notReady == before.notReady && r.noAvail == before.noAvail
  }

  lemma RegistersOf(before: Regs, request: Option<Request>, ok: bool, head: nat)
    requires before.head == head
    ensures Registered(before, Finished(Counted(Noted(before, request), ok), head), head, ok)
  {
  }

  lemma ReplyRegisters(d: Device, p: Processed, head: nat, sv: Served)
    requires Shaped(d) && IsReady(d.queue) && |p.moved.media.window| == SECTOR_SIZE && sv == Reply(d, p, head)
    requires d.regs.head == head
    ensures Registered(d.regs, sv.device.regs, head, p.moved.ok)
  {
    RegistersOf(d.regs, p.request, p.moved.ok, head);
  }

  lemma ServedRegisters(serve: ServeFunction, process: ProcessFunction, d: Device, m: Mem, head: nat)
    requires IsServe(serve) && IsProcess(process) && Shaped(d) && IsReady(d.queue) && NextHead(d, m) == Some(head)
    ensures Registered(d.regs, serve(d, m).device.regs, head, process(d.queue, d.media, m, head).moved.ok)
  {
    var d1 := ServeIsReply(d, m);
    ReplyRegisters(d1, Process(d.queue, d.media, m, head), head, Serve(d, m));
  }

  /** After a service the registers say what came of it, once in its counter, and the interrupt is raised. */
  lemma RegistersTell(d: Device, m: Mem, c: Chain, sv: Served)
    requires Next(d, m, c) && sv == Serve(d, m)
    ensures Registered(d.regs, sv.device.regs, c.head, CanDo(d.media.disk, m, c))
  {
    var serve, process := AsValues(d, m);
    ServedRegisters(serve, process, d, m, c.head);
    ChainSucceeds(process, d.queue, d.media, m, c);
  }

  lemma ChainSucceeds(process: ProcessFunction, q: Queue, media: Media, m: Mem, c: Chain)
    requires IsProcess(process) && |media.window| == SECTOR_SIZE && ChainStands(q, m, c)
    ensures process(q, media, m, c.head).moved.ok <==> CanDo(media.disk, m, c)
  {
    LengthIs(q, media, m, c, Process(q, media, m, c.head));
  }

  /** With no chain to serve only the registers change: failed, and counted if the queue is not in place or nothing new
      is announced. */
  lemma IdleTells(d: Device, m: Mem)
    requires Shaped(d) && (!IsReady(d.queue) || NextHead(d, m).None?)
    ensures var s := Serve(d, m);
      s.mem == m && s.device == d.(regs := s.device.regs) && s.device.regs.failed && s.device.regs.status == 0 &&
      s.device.regs.irq == d.regs.irq && s.device.regs.raised == d.regs.raised &&
      s.device.regs.notReady == (if IsReady(d.queue) then d.regs.notReady else OneMore(d.regs.notReady)) &&
      s.device.regs.noAvail ==
        (if IsReady(d.queue) && ReadLE(m, d.queue.avail + 2, 2) == Some(d.usedIdx) then OneMore(d.regs.noAvail)
         else d.regs.noAvail)
  {
  }
}
