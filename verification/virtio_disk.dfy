/** What the block device stores: writes reach the disk, stay there, and are read back. */
module VirtioDisk {
  import opened Memory
  import opened VirtioSpec
  import opened VirtioRuns

  /** The chain asks for bytes of the disk in [lo, hi) to be written. */
  predicate WritesInto(q: Queue, disk: seq<byte>, m: Mem, head: nat, lo: nat, hi: nat) {
    var r := ParseChain(q, m, head);
    r.Some? && r.value.reqType == 1 && OnDisk(disk, r.value) &&
    r.value.sector * SECTOR_SIZE < hi && lo < r.value.sector * SECTOR_SIZE + r.value.len
  }

  /** No chain ever changes the disk's size or a byte its request does not cover; in particular a read
      from the disk, whether it fails or not, and a chain that cannot be carried out change nothing. */
  lemma ChainKeepsDisk(q: Queue, media: Media, m: Mem, head: nat)
    requires |media.window| == SECTOR_SIZE
    ensures var disk' := Process(q, media, m, head).moved.media.disk;
      |disk'| == |media.disk| &&
      (forall i :: 0 <= i < |disk'| && !WritesInto(q, media.disk, m, head, i, i + 1) ==> disk'[i] == media.disk[i]) &&
      (!WritesInto(q, media.disk, m, head, 0, |media.disk|) ==> disk' == media.disk)
  {
  }

  /** The disk holds these bytes from `at` on. */
  predicate Holds(disk: seq<byte>, at: nat, data: seq<byte>) {
    at + |data| <= |disk| && disk[at..at + |data|] == data
  }

  /** A request to write that succeeds puts the guest's bytes on the disk, in order. */
  lemma OutStores(media: Media, m: Mem, r: Request, at: nat) returns (data: seq<byte>)
    requires |media.window| == SECTOR_SIZE && r.reqType == 1 && Transfer(media, m, r).ok
    requires at == r.sector * SECTOR_SIZE
    ensures ReadBlock(m, r.addr, r.len) == Some(data) && |data| == r.len
    ensures Holds(Transfer(media, m, r).media.disk, at, data)
  {
    ReadPrefixIs(m, r.addr, r.len);
    data := ReadPrefix(m, r.addr, r.len);
    OverwriteSlice(media.disk, at, data);
  }

  lemma OverwriteSlice(s: seq<byte>, at: nat, bs: seq<byte>)
    requires at + |bs| <= |s|
    ensures Overwrite(s, at, bs)[at..at + |bs|] == bs
  {
  }

  /** A request to read that succeeds puts the disk's bytes in the guest's buffer, in order. */
  lemma InLoads(media: Media, m: Mem, r: Request, at: nat, data: seq<byte>)
    requires |media.window| == SECTOR_SIZE && r.reqType == 0 && Transfer(media, m, r).ok
    requires at == r.sector * SECTOR_SIZE && Holds(media.disk, at, data) && |data| == r.len
    ensures ReadBlock(Transfer(media, m, r).mem, r.addr, r.len) == Some(data)
  {
    WriteThenRead(m, r.addr, data);
  }

  /** What follows the transfer, status byte and used ring, does not touch the guest's buffer. */
  lemma BufferSurvives(q: Queue, m: Mem, m1: Mem, m2: Mem, m3: Mem, head: nat, ok: bool, slot: nat, u: Used, idx: nat,
                       a: nat, n: nat)
    requires slot < q.num && OffRings(q, a, n)
    requires var s := StatusAddr(q, m, head); s.Some? ==> Apart(s.value, 1, a, n)
    requires m1 == WriteStatus(q, m, head, ok) && Replied(q, m1, m2, m3, slot, u, idx)
    ensures ReadBlock(m3, a, n) == ReadBlock(m, a, n)
  {
    var s := StatusAddr(q, m, head);
    if s.Some? { WriteBlockElsewhere(m, s.value, [if ok then 0 else 1], a, n); }
    PublishElsewhere(q, m1, m2, m3, slot, u, idx, a, n);
    ReadBlockFrame(m1, m3, a, n);
  }

  /** The head about to be answered carries this request, which can be carried out. */
  ghost predicate WillDo(d: Device, m: Mem, r: Request)
    requires Shaped(d) && d.queue.num > 0
  {
    NextHead(d, m).Some? && ParseChain(d.queue, m, NextHead(d, m).value) == Some(r) &&
    Transfer(d.media, m, r).ok
  }

  /** The status byte asked for is not inside the data buffer. */
  predicate StatusOutside(d: Device, m: Mem, r: Request)
    requires Shaped(d) && d.queue.num > 0 && NextHead(d, m).Some?
  {
    var head := NextHead(d, m).value;
    var s := StatusAddr(d.queue, Process(d.queue, d.media, m, head).moved.mem, head);
    s.Some? ==> Apart(s.value, 1, r.addr, r.len)
  }

  /** The next notification answers a chain that carries this request, and carries it out; for a read the
      status byte does not land in the buffer. */
  ghost predicate Serves(r: Run, q: Request) {
    Shaped(r.device) && r.device.queue.num > 0 && |r.answered| < |r.offered| && Allowed(r, Notify) &&
    WillDo(r.device, r.mem, q) && (q.reqType == 0 ==> StatusOutside(r.device, r.mem, q))
  }

  /** Serving a read leaves the disk's bytes in the guest's buffer. */
  lemma ServeDelivers(run: Run, r: Request, run': Run, at: nat, data: seq<byte>)
    requires Inv(run) && Serves(run, r) && r.reqType == 0 && r.len == |data| && run' == Step(run, Notify)
    requires at == r.sector * SECTOR_SIZE && Holds(run.device.media.disk, at, data)
    ensures ReadBlock(run'.mem, r.addr, r.len) == Some(data)
  {
    var d, m, n := run.device, run.mem, |run.answered|;
    NextIsOffered(d, m, run.offered, run.answered);
    ServeReplies(d, m, n);
    DeliveredSurvives(d, m, Serve(d, m), r, run.offered[n], n);
    InLoads(d.media, m, r, at, data);
  }

  lemma DeliveredSurvives(d: Device, m: Mem, s: Served, r: Request, head: nat, n: nat)
    requires Shaped(d) && IsReady(d.queue) && IsReply(d, m, s, head, n) && NextHead(d, m) == Some(head)
    requires ParseChain(d.queue, m, head) == Some(r) && StatusOutside(d, m, r) && OffRings(d.queue, r.addr, r.len)
    ensures ReadBlock(s.mem, r.addr, r.len) == ReadBlock(Transfer(d.media, m, r).mem, r.addr, r.len)
  {
    var p := Process(d.queue, d.media, m, head);
    PublishedSurvives(d.queue, p, s.mem, head, n % d.queue.num, (n + 1) % 0x1_0000, r.addr, r.len);
  }

  lemma PublishedSurvives(q: Queue, p: Processed, m': Mem, head: nat, slot: nat, idx: nat, a: nat, n: nat)
    requires slot < q.num && OffRings(q, a, n)
    requires var s := StatusAddr(q, p.moved.mem, head); s.Some? ==> Apart(s.value, 1, a, n)
    requires m' == Publish(q, WriteStatus(q, p.moved.mem, head, p.moved.ok), slot, Used(head, Length(p)), idx)
    ensures ReadBlock(m', a, n) == ReadBlock(p.moved.mem, a, n)
  {
    var u, m1 := Used(head, Length(p)), WriteStatus(q, p.moved.mem, head, p.moved.ok);
    BufferSurvives(q, p.moved.mem, m1, WriteUsedElem(m1, q.used + 4 + slot * 8, u), m', head, p.moved.ok,
                   slot, u, idx, a, n);
  }

  /** Serving a write leaves the guest's bytes on the disk. */
  lemma ServeStores(run: Run, r: Request, run': Run, at: nat) returns (data: seq<byte>)
    requires Inv(run) && Serves(run, r) && r.reqType == 1 && run' == Step(run, Notify)
    requires at == r.sector * SECTOR_SIZE
    ensures ReadBlock(run.mem, r.addr, r.len) == Some(data) && |data| == r.len
    ensures Inv(run') && Holds(run'.device.media.disk, at, data)
  {
    NextIsOffered(run.device, run.mem, run.offered, run.answered);
    NotifyStep(run);
    data := OutStores(run.device.media, run.mem, r, at);
  }

  /** No notification of the run answers a chain that writes into [lo, hi). */
  ghost predicate LeavesAlone(r: Run, es: seq<Event>, lo: nat, hi: nat)
    requires Shaped(r.device)
    decreases |es|
  {
    es == [] ||
    ((es[0].Notify? && r.device.queue.num > 0 && NextHead(r.device, r.mem).Some? ==>
        !WritesInto(r.device.queue, r.device.media.disk, r.mem, NextHead(r.device, r.mem).value, lo, hi)) &&
     LeavesAlone(Step(r, es[0]), es[1..], lo, hi))
  }

  lemma NotifyKeepsRange(r: Run, lo: nat, hi: nat)
    requires Inv(r) && Allowed(r, Notify) && LeavesAlone(r, [Notify], lo, hi)
    ensures var disk, disk' := r.device.media.disk, Step(r, Notify).device.media.disk;
      |disk'| == |disk| && forall i :: lo <= i < hi && i < |disk| ==> disk'[i] == disk[i]
  {
    NextIsOffered(r.device, r.mem, r.offered, r.answered);
    NotifyStep(r);
    if |r.answered| < |r.offered| {
      ChainKeepsDisk(r.device.queue, r.device.media, r.mem, r.offered[|r.answered|]);
    }
  }

  /** Over a whole run, bytes no answered chain writes to keep their value. */
  lemma {:induction false} RunKeepsRange(r: Run, es: seq<Event>, lo: nat, hi: nat, r': Run)
    requires Inv(r) && AllAllowed(r, es) && LeavesAlone(r, es, lo, hi) && r' == RunOf(r, es)
    ensures var disk, disk' := r.device.media.disk, r'.device.media.disk;
      |disk'| == |disk| && forall i :: lo <= i < hi && i < |disk| ==> disk'[i] == disk[i]
    decreases |es|
  {
    if es != [] {
      var r1 := FirstKeepsRange(r, es, lo, hi, r');
      RunKeepsRange(r1, es[1..], lo, hi, r');
    }
  }

  lemma FirstKeepsRange(r: Run, es: seq<Event>, lo: nat, hi: nat, r': Run) returns (r1: Run)
    requires Inv(r) && es != [] && AllAllowed(r, es) && LeavesAlone(r, es, lo, hi) && r' == RunOf(r, es)
    ensures Inv(r1) && AllAllowed(r1, es[1..]) && LeavesAlone(r1, es[1..], lo, hi) && r' == RunOf(r1, es[1..])
    ensures var disk, disk' := r.device.media.disk, r1.device.media.disk;
      |disk'| == |disk| && forall i :: lo <= i < hi && i < |disk| ==> disk'[i] == disk[i]
  {
    r1 := Step(r, es[0]);
    StepKeepsInv(r, es[0], r1);
    if es[0].Notify? {
      assert LeavesAlone(r, [Notify], lo, hi);
      NotifyKeepsRange(r, lo, hi);
    }
  }

  /** Main result: write a range of the disk, let guest and device do anything that does not write
      into it, then read the range back into any buffer: the buffer ends up with the bytes that were
      written, however many sectors they span. */
  lemma DiskRoundTrip(r0: Run, out: Request, r1: Run, es: seq<Event>, r2: Run, back: Request, r3: Run, at: nat, hi: nat)
    returns (data: seq<byte>)
    requires at == out.sector * SECTOR_SIZE == back.sector * SECTOR_SIZE && hi == at + out.len == at + back.len
    requires Inv(r0) && Serves(r0, out) && out.reqType == 1 && r1 == Step(r0, Notify)
    requires AllAllowed(r1, es) && LeavesAlone(r1, es, at, hi) && r2 == RunOf(r1, es)
    requires Serves(r2, back) && back.reqType == 0 && r3 == Step(r2, Notify)
    ensures ReadBlock(r0.mem, out.addr, out.len) == Some(data)
    ensures ReadBlock(r3.mem, back.addr, back.len) == Some(data)
  {
    data := ServeStores(r0, out, r1, at);
    KeptOver(r1, es, r2, at, hi, data);
    ServeDelivers(r2, back, r3, at, data);
  }

  lemma KeptOver(r1: Run, es: seq<Event>, r2: Run, at: nat, hi: nat, data: seq<byte>)
    requires Inv(r1) && AllAllowed(r1, es) && LeavesAlone(r1, es, at, hi) && r2 == RunOf(r1, es)
    requires hi == at + |data| && Holds(r1.device.media.disk, at, data)
    ensures Inv(r2) && Holds(r2.device.media.disk, at, data)
  {
    AnswersInOrder(r1, es, r2);
    RunKeepsRange(r1, es, at, hi, r2);
    SameSlice(r1.device.media.disk, r2.device.media.disk, at, |data|);
  }

  lemma SameSlice(s: seq<byte>, s': seq<byte>, at: nat, n: nat)
    requires |s| == |s'| && at + n <= |s| && forall i :: at <= i < at + n ==> s'[i] == s[i]
    ensures s'[at..at + n] == s[at..at + n]
  {
  }
}
