/** The block device itself: disk, window and used-ring shadow change in place. */
module VirtioDevice {
  import opened Memory
  import opened SystemBus
  import opened VirtioSpec

  lemma ShownIs(window: seq<byte>, window': seq<byte>, bs: seq<byte>)
    requires |window| == |window'| == SECTOR_SIZE
    requires forall j :: 0 <= j < SECTOR_SIZE ==> window'[j] == if j < |bs| then bs[j] else window[j]
    ensures window' == Shown(window, bs)
  {
  }

  lemma OverwriteIs(s: seq<byte>, s': seq<byte>, at: nat, bs: seq<byte>)
    requires |s| == |s'| && at + |bs| <= |s|
    requires forall j :: 0 <= j < |s| ==> s'[j] == if at <= j < at + |bs| then bs[j - at] else s[j]
    ensures s' == Overwrite(s, at, bs)
  {
  }

  lemma {:induction false} ReadPrefixUpTo(m: Mem, a: int, n: nat, bs: seq<byte>)
    requires |bs| <= n && (|bs| < n ==> !CanRead(m, a + |bs|))
    requires forall x :: a <= x < a + |bs| ==> CanRead(m, x) && bs[x - a] == m.bytes[x]
    ensures ReadPrefix(m, a, n) == bs
    decreases n
  {
    if bs != [] {
      assert CanRead(m, a) && bs[a - a] == m.bytes[a];
      forall x | a + 1 <= x < a + |bs|
        ensures CanRead(m, x) && bs[1..][x - (a + 1)] == m.bytes[x]
      {
        assert CanRead(m, x) && bs[x - a] == m.bytes[x];
      }
      ReadPrefixUpTo(m, a + 1, n - 1, bs[1..]);
    }
  }

  /** A copy that got `i` bytes through, and showed the one refused, is the transfer. */
  lemma InIs(media: Media, m: Mem, t: Moved, at: nat, a: nat, n: nat, i: nat)
    requires at + n <= |media.disk| && |media.window| == |t.media.window| == SECTOR_SIZE && t.media.disk == media.disk
    requires i <= n && t.ok == (i == n) && Overlaid(m, t.mem, a, media.disk[at..at + n], i)
    requires (forall x :: a <= x < a + i ==> CanWrite(m, x)) && (!t.ok ==> !CanWrite(m, a + i))
    requires forall j :: 0 <= j < SECTOR_SIZE ==>
      t.media.window[j] == if j < (if t.ok then i else i + 1) then media.disk[at..at + n][j] else media.window[j]
    ensures t == TransferIn(media, m, at, a, n)
  {
    var bs := media.disk[at..at + n];
    WriteBlockIs(m, t.mem, a, bs, i);
    ShownIs(media.window, t.media.window, if t.ok then bs else bs[..i + 1]);
  }

  class VirtioBlock {
    const disk: array<byte>
    const window: array<byte>
    const usedRing: array<nat>
    var queue: Queue
    var usedIdx: nat
    var regs: Regs
    var pending: bool

    ghost predicate Valid()
      reads this
    {
      window.Length == SECTOR_SIZE && usedRing.Length == RING_MAX && queue.num <= RING_MAX && disk != window
    }

    ghost function Stored(): Media
      reads disk, window
    {
      Media(disk[..], window[..])
    }

    ghost function State(): (d: Device)
      reads this, disk, window, usedRing
      ensures Valid() ==> Shaped(d)
    {
      Device(queue, Stored(), usedIdx, usedRing[..], regs)
    }

    constructor (sectors: nat)
      ensures Valid() && usedIdx == 0 && !pending && disk.Length == sectors * SECTOR_SIZE
      ensures fresh(disk) && fresh(window) && fresh(usedRing)
    {
      disk := new byte[sectors * SECTOR_SIZE](_ => 0);
      window := new byte[SECTOR_SIZE](_ => 0);
      usedRing := new nat[RING_MAX](_ => 0);
      queue := Queue(0, 0, 0, RING_MAX, false, 0);
      usedIdx := 0;
      regs := Regs(0, 0, 0, 0, 0, false, 0, false, 0, 0, 0, 0, 0);
      pending := false;
    }

    method ReadDescriptor(index: nat, bus: Bus) returns (r: Option<Desc>)
      ensures r == DescAt(queue, bus.mem, index)
    {
      if index >= queue.num { return None; }
      var a := queue.desc + index * 16;
      var addr := bus.ReadNumber(a, 8);
      if addr.None? { return None; }
      var len := bus.ReadNumber(a + 8, 4);
      if len.None? { return None; }
      var flags := bus.ReadNumber(a + 12, 2);
      if flags.None? { return None; }
      var next := bus.ReadNumber(a + 14, 2);
      if next.None? { return None; }
      return Some(Desc(addr.value, len.value, flags.value, next.value));
    }

    method ReadRequest(head: nat, bus: Bus) returns (r: Option<Request>)
      ensures r == ParseChain(queue, bus.mem, head)
    {
      var header := ReadDescriptor(head, bus);
      if header.None? || header.value.len < HEADER_LEN || !HasNext(header.value) { return None; }
      var data := ReadDescriptor(header.value.next, bus);
      if data.None? || data.value.len == 0 { return None; }
      var reqType := bus.ReadNumber(header.value.addr, 4);
      if reqType.None? { return None; }
      var sector := bus.ReadNumber(header.value.addr + 8, 8);
      if sector.None? { return None; }
      return Some(Request(reqType.value, sector.value, data.value.addr, data.value.len));
    }

    method ResolveStatusDesc(head: nat, bus: Bus) returns (a: Option<nat>)
      ensures a == StatusAddr(queue, bus.mem, head)
    {
      var header := ReadDescriptor(head, bus);
      if header.None? || !HasNext(header.value) { return None; }
      var data := ReadDescriptor(header.value.next, bus);
      if data.None? || !HasNext(data.value) { return None; }
      var status := ReadDescriptor(data.value.next, bus);
      if status.None? || status.value.len < 1 { return None; }
      return Some(status.value.addr);
    }

    /** Disk to guest, byte by byte. */
    method CopyIn(at: nat, a: nat, n: nat, bus: Bus) returns (ok: bool)
      requires Valid() && at + n <= disk.Length
      modifies window, bus
      ensures Moved(Stored(), bus.mem, ok) == TransferIn(old(Stored()), old(bus.mem), at, a, n)
    {
      ghost var was, m := window[..], bus.mem;
      ok := true;
      var i := 0;
      while i < n && ok
        invariant 0 <= i <= n && (ok || i < n) && Overlaid(m, bus.mem, a, disk[at..at + n], i)
        invariant forall x :: a <= x < a + i ==> CanWrite(m, x)
        invariant !ok ==> !CanWrite(m, a + i)
        invariant forall j :: 0 <= j < SECTOR_SIZE ==>
          window[j] == if j < (if ok then i else i + 1) then disk[at..at + n][j] else was[j]
        decreases n - i, ok
      {
        var b := disk[at + i];
        if i < SECTOR_SIZE { window[i] := b; }
        ok := bus.WriteByte(a + i, b);
        if ok { i := i + 1; }
      }
      InIs(old(Stored()), m, Moved(Stored(), bus.mem, ok), at, a, n, i);
    }

    /** Guest to disk, byte by byte. */
    method CopyOut(at: nat, a: nat, n: nat, bus: Bus) returns (ok: bool)
      requires Valid() && at + n <= disk.Length
      modifies disk, window
      ensures Moved(Stored(), bus.mem, ok) == TransferOut(old(Stored()), old(bus.mem), at, a, n)
    {
      ghost var was, shown, bs := disk[..], window[..], [];
      var i := 0;
      while i < n
        invariant 0 <= i <= n && |bs| == i
        invariant forall x :: a <= x < a + i ==> CanRead(bus.mem, x) && bs[x - a] == bus.mem.bytes[x]
        invariant forall j :: 0 <= j < disk.Length ==> disk[j] == if at <= j < at + i then bs[j - at] else was[j]
        invariant forall j :: 0 <= j < SECTOR_SIZE ==> window[j] == if j < i then bs[j] else shown[j]
      {
        var b := bus.ReadByte(a + i);
        if b.None? {
          ReadPrefixUpTo(bus.mem, a, n, bs);
          OverwriteIs(was, disk[..], at, bs);
          ShownIs(shown, window[..], bs);
          return false;
        }
        if i < SECTOR_SIZE { window[i] := b.value; }
        disk[at + i] := b.value;
        bs := bs + [b.value];
        i := i + 1;
      }
      ReadPrefixUpTo(bus.mem, a, n, bs);
      OverwriteIs(was, disk[..], at, bs);
      ShownIs(shown, window[..], bs);
      return true;
    }

    method Copy(r: Request, bus: Bus) returns (ok: bool)
      requires Valid()
      modifies disk, window, bus
      ensures Moved(Stored(), bus.mem, ok) == Transfer(old(Stored()), old(bus.mem), r)
    {
      var at := r.sector * SECTOR_SIZE;
      if at + SECTOR_SIZE > disk.Length || at + r.len > disk.Length { return false; }
      if r.reqType == 0 {
        ok := CopyIn(at, r.addr, r.len, bus);
      } else if r.reqType == 1 {
        ok := CopyOut(at, r.addr, r.len, bus);
      } else {
        ok := false;
      }
    }

    method ProcessDescriptorChain(head: nat, bus: Bus) returns (ok: bool, len: nat, ghost p: Processed)
      requires Valid()
      modifies this`regs, disk, window, bus
      ensures p == Process(queue, old(Stored()), old(bus.mem), head) && p.moved == Moved(Stored(), bus.mem, ok)
      ensures len == Length(p) && regs == Noted(old(regs), p.request)
    {
      var request := ReadRequest(head, bus);
      p := Process(queue, Stored(), bus.mem, head);
      if request.None? { return false, 0, p; }
      var r := request.value;
      regs := regs.(reqType := r.reqType, sector := r.sector);
      ok := Copy(r, bus);
      len := if ok then r.len else 0;
    }

    method ReportStatus(head: nat, ok: bool, bus: Bus)
      modifies bus
      ensures bus.mem == WriteStatus(queue, old(bus.mem), head, ok)
    {
      var a := ResolveStatusDesc(head, bus);
      if a.Some? {
        var _ := bus.WriteBytes(a.value, [if ok then 0 else 1]);
      }
    }

    method PutUsedElem(a: nat, u: Used, bus: Bus)
      modifies bus
      ensures bus.mem == WriteUsedElem(old(bus.mem), a, u)
    {
      var ok := bus.WriteNumber(a, 4, u.head);
      if ok { ok := bus.WriteNumber(a + 4, 4, u.len); }
    }

    method Announce(slot: nat, u: Used, bus: Bus)
      modifies bus
      ensures bus.mem == Publish(queue, old(bus.mem), slot, u, usedIdx)
    {
      PutUsedElem(queue.used + 4 + slot * 8, u, bus);
      var _ := bus.WriteNumber(queue.used + 2, 2, usedIdx);
    }

    /** One pending chain, from the available ring to the used ring. */
    method ExecuteDescriptorQueue(bus: Bus)
      requires Valid()
      modifies this, disk, window, usedRing, bus
      ensures Valid() && Served(State(), bus.mem) == Serve(old(State()), old(bus.mem)) && pending == old(pending)
    {
      var head := TakeNext(bus);
      if head.Some? { AnswerChain(head.value, bus); }
    }

    /** The next head, unless the queue is not ready, not readable or empty. */
    method TakeNext(bus: Bus) returns (head: Option<nat>)
      requires Valid()
      modifies this`regs
      ensures (State(), head) == Take(old(State()), bus.mem)
    {
      if !IsReady(queue) {
        regs := Failed(regs.(notReady := Saturating(regs.notReady)));
        return None;
      }
      var avail := bus.ReadNumber(queue.avail + 2, 2);
      if avail.None? {
        regs := Failed(regs);
        return None;
      }
      regs := regs.(availIdx := avail.value);
      if avail.value == usedIdx {
        regs := Failed(regs.(noAvail := Saturating(regs.noAvail)));
        return None;
      }
      head := bus.ReadNumber(queue.avail + 4 + usedIdx % queue.num * 2, 2);
      regs := if head.None? then Failed(regs) else regs.(head := head.value);
    }

    method AnswerChain(head: nat, bus: Bus)
      requires Valid() && IsReady(queue)
      modifies this, disk, window, usedRing, bus
      ensures Valid() && pending == old(pending)
      ensures Served(State(), bus.mem) ==
        Reply(old(State()), Process(old(queue), old(Stored()), old(bus.mem), head), head)
    {
      var slot := usedIdx % queue.num;
      var ok, len;
      ghost var p;
      ok, len, p := ProcessDescriptorChain(head, bus);
      regs := Counted(regs, ok);
      ReportStatus(head, ok, bus);
      usedRing[slot] := head;
      usedIdx := Next16(usedIdx);
      Announce(slot, Used(head, len), bus);
      regs := Finished(regs, head);
    }

    method ProcessPendingDescriptorNotify(bus: Bus)
      requires Valid()
      modifies this, disk, window, usedRing, bus
      ensures Valid() && !pending
      ensures Served(State(), bus.mem) ==
        if old(pending) then Serve(old(State()), old(bus.mem)) else Served(old(State()), old(bus.mem))
    {
      if !pending { return; }
      pending := false;
      ExecuteDescriptorQueue(bus);
    }
  }
}
