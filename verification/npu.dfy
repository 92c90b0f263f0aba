/** The NPU as a device: registers, a work queue that changes in place, and memory behind the bus. */
module NpuDevice {
  import opened Memory
  import opened SystemBus
  import opened NpuSpec

  class Npu {
    var core: Core
    var queue: seq<Work>
    var busy: bool
    var doneFlag: bool
    var irq: bool
    var irqEnabled: bool
    var pending: bool
    var descAddr: nat
    var descLen: nat
    var softAsync: bool

    ghost function State(): Device
      reads this
    {
      Device(core, queue, busy, doneFlag, irq, irqEnabled, pending, descAddr, descLen, softAsync)
    }

    ghost predicate Valid()
      reads this
    {
      Sane(queue)
    }

    constructor ()
      ensures Valid() && queue == [] && !pending && !busy && !softAsync
    {
      core := Core(0, 0, 0, 0, 0, 0, 0);
      queue := [];
      busy, doneFlag, irq, irqEnabled, pending, softAsync := false, false, false, false, false, false;
      descAddr, descLen := 0, 0;
    }

    method CountError()
      modifies this`core
      ensures core == old(core).(errs := Inc(old(core).errs))
    {
      core := core.(errs := Inc(core.errs));
    }

    /** If nothing is outstanding, the device reports done and may raise its interrupt. */
    method FinishIfIdle()
      modifies this`busy, this`doneFlag, this`irq
      ensures State() == Finish(old(State()))
    {
      if queue == [] {
        busy := false;
        doneFlag := true;
        if irqEnabled { irq := true; }
      }
    }

    method ProcessElement(j: Job, i: nat, bus: Bus) returns (ok: bool)
      modifies bus
      ensures var e := Element(j, old(bus.mem), i); bus.mem == e.mem && ok == e.ok
    {
      var a := bus.ReadNumber(j.a + i * 4, 4);
      if a.None? { return false; }
      var b := bus.ReadNumber(j.b + i * 4, 4);
      if b.None? { return false; }
      ok := bus.WriteNumber(j.r + i * 4, 4, Compute(j.opcode, Word32(a.value), Word32(b.value)));
    }

    /** One element of the item at the front, which leaves the queue when that was its last. */
    method StepFront(bus: Bus, ghost budget: nat, ghost drain: DrainFunction) returns (ok: bool)
      requires Valid() && queue != [] && Aligned(queue[0].job) && budget > 0 && IsDrain(drain)
      modifies this`core, this`queue, bus
      ensures Valid() && |queue| <= |old(queue)|
      ensures ok && old(queue)[0].progress + 1 < old(queue)[0].job.elems ==>
        queue != [] && queue[0] == Next(old(queue)[0])
      ensures drain(old(core), old(queue), old(bus.mem), budget) ==
        if ok then drain(core, queue, bus.mem, budget - 1) else Ticked(core, queue, bus.mem, false)
    {
      ghost var e := Element(queue[0].job, bus.mem, queue[0].progress);
      ok := StepElement(bus);
      ElementStep(old(core), old(queue), old(bus.mem), budget, e);
    }

    method StepElement(bus: Bus) returns (ok: bool)
      requires Valid() && queue != []
      modifies this`core, this`queue, bus
      ensures Valid()
      ensures Ticked(core, queue, bus.mem, ok) ==
        AfterElement(old(core), old(queue), Element(old(queue)[0].job, old(bus.mem), old(queue)[0].progress))
    {
      var w := queue[0];
      ok := ProcessElement(w.job, w.progress, bus);
      if !ok { return; }
      core := core.(cycles := Inc(core.cycles));
      queue := [Next(w)] + queue[1..];
      if w.progress + 1 == w.job.elems {
        queue := queue[1..];
        core := core.(done := Inc(core.done));
      }
    }

    /** Up to `limit` elements of the item at the front; stops early at its end or at an error. */
    method ProcessFront(limit: nat, bus: Bus, ghost drain: DrainFunction) returns (spent: nat, ok: bool)
      requires Valid() && queue != [] && Aligned(queue[0].job) && limit > 0 && IsDrain(drain)
      modifies this`core, this`queue, bus
      ensures Valid() && spent <= limit && |queue| <= |old(queue)| && (ok ==> spent > 0)
      ensures drain(old(core), old(queue), old(bus.mem), limit) ==
        if ok then drain(core, queue, bus.mem, limit - spent) else Ticked(core, queue, bus.mem, false)
    {
      ghost var target := drain(core, queue, bus.mem, limit);
      spent, ok := 0, true;
      var w := queue[0];
      var to := if w.job.elems - w.progress <= limit then w.job.elems else w.progress + limit;
      var i := w.progress;
      while i < to
        invariant w.progress <= i <= to && spent == i - w.progress && Valid() && |queue| <= |old(queue)|
        invariant i < w.job.elems ==> queue != [] && queue[0] == Work(w.job, i)
        invariant target == drain(core, queue, bus.mem, limit - spent)
      {
        ok := StepFront(bus, limit - spent, drain);
        if !ok { return; }
        spent := spent + 1;
        i := i + 1;
      }
    }

    /** Spend up to `budget` elements on the queue. */
    method Tick(budget: nat, bus: Bus) returns (ok: bool)
      requires Valid()
      modifies this`core, this`queue, this`busy, this`doneFlag, this`irq, bus
      ensures Valid() && TickDevice(old(State()), old(bus.mem), budget) == Served(State(), bus.mem, ok)
    {
      if queue == [] || budget == 0 { return true; }
      ghost var drain := DrainAsValue();
      ghost var t := Drain(core, queue, bus.mem, budget);
      ok := SpendBudget(budget, bus, drain);
      assert t == Ticked(core, queue, bus.mem, ok);
      if ok { FinishIfIdle(); }
    }

    /** The loop of a tick: misaligned items are dropped for free. */
    method SpendBudget(budget: nat, bus: Bus, ghost drain: DrainFunction) returns (ok: bool)
      requires Valid() && IsDrain(drain)
      modifies this`core, this`queue, bus
      ensures Valid() && drain(old(core), old(queue), old(bus.mem), budget) == Ticked(core, queue, bus.mem, ok)
    {
      ghost var target := drain(core, queue, bus.mem, budget);
      var left := budget;
      while left > 0 && queue != []
        invariant Valid() && 0 <= left <= budget
        invariant target == drain(core, queue, bus.mem, left)
        decreases left, |queue|
      {
        if !Aligned(queue[0].job) {
          DropFront(bus, left, drain);
        } else {
          var spent;
          spent, ok := ProcessFront(left, bus, drain);
          if !ok { return; }
          left := left - spent;
        }
      }
      DrainIdle(core, queue, bus.mem, left);
      return true;
    }

    method DropFront(bus: Bus, ghost budget: nat, ghost drain: DrainFunction)
      requires Valid() && queue != [] && !Aligned(queue[0].job) && budget > 0 && IsDrain(drain)
      modifies this`core, this`queue
      ensures Valid() && queue == old(queue)[1..]
      ensures drain(old(core), old(queue), bus.mem, budget) == drain(core, queue, bus.mem, budget)
    {
      DropStep(core, queue, bus.mem, budget);
      CountError();
      queue := queue[1..];
    }

    // ---- The synchronous path ----

    method RunVector(j: Job, bus: Bus)
      requires j.elems > 0
      modifies this`core, bus
      ensures RunItem(old(core), old(bus.mem), Work(j, 0)) == Ran(core, bus.mem)
    {
      if Aligned(j) { RunElements(j, bus); } else { CountError(); }
    }

    method RunElements(j: Job, bus: Bus)
      modifies this`core, bus
      ensures RunFrom(old(core), old(bus.mem), j, 0) == Ran(core, bus.mem)
    {
      var i, ok := 0, true;
      ghost var run := RunFromAsValue();
      ghost var target := RunFrom(core, bus.mem, j, 0);
      while i < j.elems && ok
        invariant 0 <= i <= j.elems
        invariant target == if ok then run(core, bus.mem, j, i) else Ran(core, bus.mem)
        decreases j.elems - i, ok
      {
        ok := RunElement(j, i, bus, run);
        i := i + 1;
      }
      if ok {
        RunFromEnd(core, bus.mem, j);
        core := core.(done := Inc(core.done));
      }
    }

    method RunElement(j: Job, i: nat, bus: Bus, ghost run: RunFunction) returns (ok: bool)
      requires i < j.elems && IsRunFrom(run)
      modifies this`core, bus
      ensures run(old(core), old(bus.mem), j, i) == if ok then run(core, bus.mem, j, i + 1) else Ran(core, bus.mem)
    {
      RunFromStep(core, bus.mem, j, i, Element(j, bus.mem, i));
      ok := ProcessElement(j, i, bus);
      if ok {
        core := core.(cycles := Inc(core.cycles));
      } else {
        CountError();
      }
    }

    method RunScalarEntry(raw: u32, a: nat, b: nat, r: nat, bus: Bus)
      modifies this`core, bus
      ensures RunScalar(old(core), old(bus.mem), raw, a, b, r) == Ran(core, bus.mem)
    {
      core := core.(opcode := raw);
      var x := bus.ReadNumber(a, 4);
      if x.None? { CountError(); return; }
      core := core.(opA := Word32(x.value));
      var y := bus.ReadNumber(b, 4);
      if y.None? { CountError(); return; }
      core := core.(opB := Word32(y.value));
      core := core.(result := Compute(core.opcode, core.opA, core.opB), cycles := Inc(core.cycles),
                    done := Inc(core.done));
      var ok := bus.WriteNumber(r, 4, core.result);
      if !ok { CountError(); }
    }

    method FetchDescriptor(base: nat, bus: Bus) returns (d: Option<(u32, u32, u32, u32)>)
      ensures d == ReadDescriptor(bus.mem, base)
    {
      var raw := bus.ReadNumber(base, 4);
      if raw.None? { return None; }
      var a := bus.ReadNumber(base + 4, 4);
      if a.None? { return None; }
      var b := bus.ReadNumber(base + 8, 4);
      if b.None? { return None; }
      var r := bus.ReadNumber(base + 12, 4);
      if r.None? { return None; }
      return Some((Word32(raw.value), Word32(a.value), Word32(b.value), Word32(r.value)));
    }

    method ExecuteDescriptorEntry(index: nat, bus: Bus)
      modifies this`core, bus
      ensures RunEntry(old(core), old(bus.mem), descAddr, descLen, index) == Ran(core, bus.mem)
    {
      var d := FetchDescriptor(descAddr + index * 16, bus);
      EntryFetched(core, bus.mem, descAddr, descLen, index, d);
      if d.None? { CountError(); } else { ExecuteFetched(d.value, bus); }
    }

    method ExecuteFetched(d: (u32, u32, u32, u32), bus: Bus)
      modifies this`core, bus
      ensures RunDescriptor(old(core), old(bus.mem), d, descLen) == Ran(core, bus.mem)
    {
      if !IsVector(d.0) {
        RunScalarEntry(d.0, d.1, d.2, d.3, bus);
      } else if descLen > 0 {
        RunVector(JobOf(d, descLen), bus);
      }
    }

    method ExecuteDescriptors(bus: Bus)
      modifies this`core, bus
      ensures RunEntries(old(core), old(bus.mem), descAddr, descLen, 0) == Ran(core, bus.mem)
    {
      var index := 0;
      while index < descLen
        invariant 0 <= index <= descLen
        invariant RunEntries(old(core), old(bus.mem), descAddr, descLen, 0) ==
          RunEntries(core, bus.mem, descAddr, descLen, index)
      {
        ExecuteDescriptorEntry(index, bus);
        index := index + 1;
      }
    }

    method ProcessPendingDescriptorNotify(bus: Bus) returns (ok: bool)
      requires Valid()
      modifies this, bus
      ensures Valid() && Notify(old(State()), old(bus.mem)) == Served(State(), bus.mem, ok)
    {
      if !pending { return true; }
      pending, busy, doneFlag := false, true, false;
      if descLen > 0 {
        var first := bus.ReadNumber(descAddr, 4);
        if first.None? {
          CountError();
        } else if IsVector(first.value) && softAsync {
          var d := FetchDescriptor(descAddr, bus);
          if d.None? { return false; }
          queue := queue + [Work(JobOf(d.value, descLen), 0)];
        } else if IsVector(first.value) {
          ExecuteDescriptorEntry(0, bus);
        } else {
          ExecuteDescriptors(bus);
        }
      }
      FinishIfIdle();
      return true;
    }
  }
}
