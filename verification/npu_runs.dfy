/** The NPU over whole runs: work handed in while earlier work is still queued. */
module NpuRuns {
  import opened Memory
  import opened NpuSpec

  /** Software hands in a descriptor list, time passes, or memory changes from outside. */
  datatype Event = Submit(addr: nat, len: nat) | Tick(budget: nat) | Rewrite(mem: Mem)

  datatype State = State(device: Device, mem: Mem)

  function Submitted(d: Device, addr: nat, len: nat): Device {
    d.(pending := true, descAddr := addr, descLen := len)
  }

  function Step(s: State, e: Event): State {
    match e
    case Submit(addr, len) => var r := Notify(Submitted(s.device, addr, len), s.mem); State(r.device, r.mem)
    case Tick(budget) => var r := TickDevice(s.device, s.mem, budget); State(r.device, r.mem)
    case Rewrite(m) => s.(mem := m)
  }

  function RunOf(s: State, es: seq<Event>): State
    decreases |es|
  {
    if es == [] then s else RunOf(Step(s, es[0]), es[1..])
  }

  /** The results an item has still to store do not touch [at, at + n). */
  predicate ResultsApart(w: Work, at: nat, n: nat) {
    at + n <= w.job.r + w.progress * 4 || w.job.r + w.job.elems * 4 <= at
  }

  ghost predicate AllApart(queue: seq<Work>, at: nat, n: nat) {
    forall k :: 0 <= k < |queue| ==> ResultsApart(queue[k], at, n)
  }

  /** The first word of the list asks for vector work. */
  predicate AsksVector(m: Mem, addr: nat) {
    var first := ReadLE(m, addr, 4);
    first.Some? && IsVector(first.value)
  }

  /** While work is queued only further vector work may be handed in, its descriptor readable and out of
      reach of the results to come, and memory is left alone. */
  ghost predicate Allowed(s: State, e: Event) {
    match e
    case Submit(addr, len) =>
      if len == 0 then true
      else if AsksVector(s.mem, addr) then ReadDescriptor(s.mem, addr).Some? && AllApart(s.device.queue, addr, 16)
      else s.device.queue == []
    case Tick(_) => true
    case Rewrite(_) => s.device.queue == []
  }

  ghost predicate AllAllowed(s: State, es: seq<Event>)
    decreases |es|
  {
    es == [] || (Allowed(s, es[0]) && AllAllowed(Step(s, es[0]), es[1..]))
  }

  // ---- What running the queue leaves alone ----

  lemma ElementApart(j: Job, m: Mem, i: nat, at: nat, n: nat)
    requires at + n <= j.r + i * 4 || j.r + i * 4 + 4 <= at
    ensures AgreeOn(m, Element(j, m, i).mem, at, n)
  {
    var a, b := ReadLE(m, j.a + i * 4, 4), ReadLE(m, j.b + i * 4, 4);
    if a.Some? && b.Some? {
      StoreApart(m, j.r + i * 4, Compute(j.opcode, Word32(a.value), Word32(b.value)), at, n);
    }
  }

  lemma StoreApart(m: Mem, r: nat, v: nat, at: nat, n: nat)
    requires at + n <= r || r + 4 <= at
    ensures AgreeOn(m, WriteLE(m, r, 4, v).mem, at, n)
  {
    WriteBlockElsewhere(m, r, ToLE(v, 4), at, n);
  }

  lemma AgreeTrans(m: Mem, m1: Mem, m2: Mem, at: nat, n: nat)
    requires AgreeOn(m, m1, at, n) && AgreeOn(m1, m2, at, n)
    ensures AgreeOn(m, m2, at, n)
  {
  }

  lemma {:induction false} RunFromApart(run: RunFunction, c: Core, m: Mem, j: Job, i: nat, at: nat, n: nat)
    requires IsRunFrom(run) && i <= j.elems && (at + n <= j.r + i * 4 || j.r + j.elems * 4 <= at)
    ensures AgreeOn(m, run(c, m, j, i).mem, at, n)
    decreases j.elems - i
  {
    if i == j.elems {
      RunEnd(run, c, m, j);
    } else {
      var e := Element(j, m, i);
      ElementApart(j, m, i, at, n);
      RunFromNext(run, c, m, j, i, e);
      if e.ok {
        RunFromApart(run, c.(cycles := Inc(c.cycles)), e.mem, j, i + 1, at, n);
        AgreeTrans(m, e.mem, run(c, m, j, i).mem, at, n);
      }
    }
  }

  lemma RunFromNext(run: RunFunction, c: Core, m: Mem, j: Job, i: nat, e: Stored)
    requires IsRunFrom(run) && i < j.elems && e == Element(j, m, i)
    ensures run(c, m, j, i) ==
      if e.ok then run(c.(cycles := Inc(c.cycles)), e.mem, j, i + 1) else Ran(c.(errs := Inc(c.errs)), e.mem)
  {
    RunFromStep(c, m, j, i, e);
  }

  lemma ItemApart(c: Core, m: Mem, w: Work, at: nat, n: nat)
    requires w.progress < w.job.elems && ResultsApart(w, at, n)
    ensures AgreeOn(m, RunItem(c, m, w).mem, at, n)
  {
    if Aligned(w.job) {
      var run := RunFromAsValue();
      RunFromApart(run, c, m, w.job, w.progress, at, n);
      assert RunFrom(c, m, w.job, w.progress) == run(c, m, w.job, w.progress);
    }
  }

  /** Running the queue keeps what lies apart from its results. */
  lemma {:induction false} QueueApart(all: AllFunction, c: Core, m: Mem, queue: seq<Work>, at: nat, n: nat)
    requires IsRunAll(all) && Sane(queue) && AllApart(queue, at, n)
    ensures AgreeOn(m, all(c, m, queue).mem, at, n) && SameRegions(m, all(c, m, queue).mem)
    decreases |queue|
  {
    if queue == [] {
      AllOfNothing(all, c, m);
    } else {
      var r := RunItem(c, m, queue[0]);
      ItemApart(c, m, queue[0], at, n);
      AllFirst(all, c, m, queue, r);
      QueueApart(all, r.core, r.mem, queue[1..], at, n);
      AgreeTrans(m, r.mem, all(c, m, queue).mem, at, n);
    }
  }

  lemma AllOfNothing(all: AllFunction, c: Core, m: Mem)
    requires IsRunAll(all)
    ensures all(c, m, []) == Ran(c, m)
  {
    NothingToRun(c, m);
    assert all(c, m, []) == RunAll(c, m, []);
  }

  /** One more item at the end runs last. */
  lemma {:induction false} AllLast(all: AllFunction, c: Core, m: Mem, queue: seq<Work>, w: Work)
    requires IsRunAll(all)
    ensures var r := all(c, m, queue); all(c, m, queue + [w]) == RunItem(r.core, r.mem, w)
    decreases |queue|
  {
    if queue == [] {
      var r := RunItem(c, m, w);
      assert [] + [w] == [w] && [w][1..] == [];
      AllFirst(all, c, m, [w], r);
      AllOfNothing(all, r.core, r.mem);
      AllOfNothing(all, c, m);
    } else {
      var r := RunItem(c, m, queue[0]);
      AllFirst(all, c, m, queue, r);
      assert (queue + [w])[0] == queue[0] && (queue + [w])[1..] == queue[1..] + [w];
      AllFirst(all, c, m, queue + [w], r);
      AllLast(all, r.core, r.mem, queue[1..], w);
    }
  }

  // ---- Queued and immediate side by side ----

  /** The device that has done at once what the other still has queued. */
  ghost function Ahead(all: AllFunction, s: State): State {
    var d := s.device.(softAsync := false);
    if d.queue == [] then State(d, s.mem)
    else
      var r := all(d.core, s.mem, d.queue);
      State(Finish(d.(queue := [], core := r.core)), r.mem)
  }

  /** Queued items are sound and their operands mapped. */
  ghost predicate Ready(s: State) {
    s.device.softAsync && Sane(s.device.queue) && AllMapped(s.device.queue, s.mem)
  }

  lemma TickKeepsAhead(all: AllFunction, s: State, budget: nat, s': State)
    requires IsRunAll(all) && Ready(s) && s' == Step(s, Tick(budget))
    ensures Ahead(all, s') == Ahead(all, s)
  {
    var d := s.device;
    if d.queue != [] {
      var t := Drain(d.core, d.queue, s.mem, budget);
      var run := RunFromAsValue();
      TickDeviceIs(d, s.mem, budget, TickDevice(d, s.mem, budget), t);
      DrainKeepsRun(all, run, d.core, d.queue, s.mem, budget);
      if t.queue == [] { AllOfNothing(all, t.core, t.mem); }
    }
  }

  /** What is handed in and carried out at once leaves the two devices in step. */
  lemma ImmediateInStep(all: AllFunction, s: State, addr: nat, len: nat)
    requires IsRunAll(all) && s.device.queue == [] && (len == 0 || !AsksVector(s.mem, addr))
    ensures Ahead(all, Step(s, Submit(addr, len))) == Step(Ahead(all, s), Submit(addr, len))
  {
  }

  lemma EmptyInStep(all: AllFunction, s: State, addr: nat)
    requires IsRunAll(all) && s.device.queue != []
    ensures Ahead(all, Step(s, Submit(addr, 0))) == Step(Ahead(all, s), Submit(addr, 0))
    ensures Step(s, Submit(addr, 0)).device.queue == s.device.queue && Step(s, Submit(addr, 0)).mem == s.mem
  {
  }

  /** A vector descriptor joins the queue. */
  lemma VectorQueues(s: State, addr: nat, len: nat, desc: (u32, u32, u32, u32), w: Work)
    requires s.device.softAsync && len > 0 && AsksVector(s.mem, addr) && ReadDescriptor(s.mem, addr) == Some(desc)
    requires w == Work(JobOf(desc, len), 0)
    ensures Step(s, Submit(addr, len)) ==
      s.(device := Submitted(s.device, addr, len).(pending := false, busy := true, doneFlag := false,
                                                   queue := s.device.queue + [w]))
  {
  }

  /** The device without a queue carries it out at once. */
  lemma VectorRuns(s: State, addr: nat, len: nat, desc: (u32, u32, u32, u32), w: Work, r: Ran)
    requires !s.device.softAsync && s.device.queue == [] && len > 0
    requires ReadDescriptor(s.mem, addr) == Some(desc) && IsVector(desc.0) && w == Work(JobOf(desc, len), 0)
    requires r == RunItem(s.device.core, s.mem, w)
    ensures Step(s, Submit(addr, len)) ==
      State(Finish(Submitted(s.device, addr, len).(pending := false, busy := true, doneFlag := false, core := r.core)),
            r.mem)
  {
    var d := Submitted(s.device, addr, len);
    SyncRuns(d, s.mem, desc, w);
    assert d.(softAsync := false) == d;
  }

  lemma SameDescriptor(m: Mem, m': Mem, addr: nat)
    requires SameRegions(m, m') && AgreeOn(m, m', addr, 16)
    ensures ReadDescriptor(m, addr) == ReadDescriptor(m', addr)
  {
    ReadLEFrame(m, m', addr, 4);
    ReadLEFrame(m, m', addr + 4, 4);
    ReadLEFrame(m, m', addr + 8, 4);
    ReadLEFrame(m, m', addr + 12, 4);
  }

  lemma VectorFirst(m: Mem, addr: nat, desc: (u32, u32, u32, u32))
    requires AsksVector(m, addr) && ReadDescriptor(m, addr) == Some(desc)
    ensures IsVector(desc.0)
  {
    FirstWord(m, addr, desc);
  }

  /** The device ahead finds the descriptor the queueing one has found. */
  lemma AheadReads(all: AllFunction, s: State, addr: nat)
    requires IsRunAll(all) && Sane(s.device.queue) && AllApart(s.device.queue, addr, 16)
    ensures ReadDescriptor(Ahead(all, s).mem, addr) == ReadDescriptor(s.mem, addr)
  {
    if s.device.queue != [] {
      var r := all(s.device.core, s.mem, s.device.queue);
      QueueApart(all, s.device.core, s.mem, s.device.queue, addr, 16);
      SameDescriptor(s.mem, r.mem, addr);
    }
  }

  lemma VectorInStep(all: AllFunction, s: State, addr: nat, len: nat)
    requires IsRunAll(all) && s.device.softAsync && Sane(s.device.queue) && len > 0 && AsksVector(s.mem, addr)
    requires ReadDescriptor(s.mem, addr).Some? && AllApart(s.device.queue, addr, 16)
    ensures Ahead(all, Step(s, Submit(addr, len))) == Step(Ahead(all, s), Submit(addr, len))
  {
    var d, desc := s.device, ReadDescriptor(s.mem, addr).value;
    var w, before := Work(JobOf(desc, len), 0), Ahead(all, s);
    var r := RunItem(before.device.core, before.mem, w);
    VectorFirst(s.mem, addr, desc);
    VectorQueues(s, addr, len, desc, w);
    AheadReads(all, s, addr);
    VectorRuns(before, addr, len, desc, w, r);
    AllLast(all, d.core, s.mem, d.queue, w);
    if d.queue == [] { AllOfNothing(all, d.core, s.mem); }
  }

  /** Whatever happens, the device ahead stays the one that does everything at once. */
  lemma StepInStep(all: AllFunction, s: State, e: Event)
    requires IsRunAll(all) && Ready(s) && Allowed(s, e)
    ensures Ahead(all, Step(s, e)) == Step(Ahead(all, s), e)
  {
    match e
    case Submit(addr, len) =>
      if len == 0 && s.device.queue != [] {
        EmptyInStep(all, s, addr);
      } else if len > 0 && AsksVector(s.mem, addr) {
        VectorInStep(all, s, addr, len);
      } else {
        ImmediateInStep(all, s, addr, len);
      }
    case Tick(budget) => TickKeepsAhead(all, s, budget, Step(s, e));
    case Rewrite(_) =>
  }

  lemma SubmitStaysSound(s: State, addr: nat, len: nat)
    requires s.device.softAsync && Sane(s.device.queue) && Allowed(s, Submit(addr, len))
    ensures Step(s, Submit(addr, len)).device.softAsync && Sane(Step(s, Submit(addr, len)).device.queue)
  {
    if len > 0 && AsksVector(s.mem, addr) {
      var desc := ReadDescriptor(s.mem, addr).value;
      VectorQueues(s, addr, len, desc, Work(JobOf(desc, len), 0));
    }
  }

  lemma TickStaysSound(s: State, budget: nat)
    requires s.device.softAsync && Sane(s.device.queue)
    ensures Step(s, Tick(budget)).device.softAsync && Sane(Step(s, Tick(budget)).device.queue)
  {
    DrainShape(s.device.core, s.device.queue, s.mem, budget);
  }

  lemma StepStaysSound(s: State, e: Event)
    requires s.device.softAsync && Sane(s.device.queue) && Allowed(s, e)
    ensures Step(s, e).device.softAsync && Sane(Step(s, e).device.queue)
  {
    match e
    case Submit(addr, len) => SubmitStaysSound(s, addr, len);
    case Tick(budget) => TickStaysSound(s, budget);
    case Rewrite(_) =>
  }

  // ---- What is never finished ----

  lemma StepKeepsBlocked(s: State, e: Event)
    requires s.device.softAsync && Sane(s.device.queue) && Allowed(s, e) && Blocked(s.device.queue, s.mem)
    ensures Blocked(Step(s, e).device.queue, Step(s, e).mem)
  {
    match e
    case Submit(addr, len) =>
      if len == 0 {
        var all := RunAllAsValue();
        EmptyInStep(all, s, addr);
      } else {
        var desc := ReadDescriptor(s.mem, addr).value;
        VectorQueues(s, addr, len, desc, Work(JobOf(desc, len), 0));
        LongerBlocked(s.device.queue, Work(JobOf(desc, len), 0), s.mem);
      }
    case Tick(budget) => DrainKeepsBlocked(s.device.core, s.device.queue, s.mem, budget);
  }

  lemma LongerBlocked(queue: seq<Work>, w: Work, m: Mem)
    requires Blocked(queue, m)
    ensures Blocked(queue + [w], m)
  {
    var k: nat, i: nat :| BlockedAt(queue, m, k, i);
    assert BlockedAt(queue + [w], m, k, i);
  }

  lemma {:induction false} BlockedToTheEnd(s: State, es: seq<Event>)
    requires s.device.softAsync && Sane(s.device.queue) && AllAllowed(s, es) && Blocked(s.device.queue, s.mem)
    ensures RunOf(s, es).device.queue != []
    decreases |es|
  {
    if es != [] {
      StepStaysSound(s, es[0]);
      StepKeepsBlocked(s, es[0]);
      BlockedToTheEnd(Step(s, es[0]), es[1..]);
    }
  }

  lemma EmptiedIsReady(s: State, es: seq<Event>)
    requires s.device.softAsync && Sane(s.device.queue) && AllAllowed(s, es) && RunOf(s, es).device.queue == []
    ensures Ready(s)
  {
    if !AllMapped(s.device.queue, s.mem) {
      UnmappedBlocks(s.device.queue, s.mem);
      BlockedToTheEnd(s, es);
    }
  }

  lemma {:induction false} RunInStep(all: AllFunction, s: State, es: seq<Event>)
    requires IsRunAll(all) && s.device.softAsync && Sane(s.device.queue) && AllAllowed(s, es)
    requires RunOf(s, es).device.queue == []
    ensures Ahead(all, RunOf(s, es)) == RunOf(Ahead(all, s), es)
    decreases |es|
  {
    if es != [] {
      EmptiedIsReady(s, es);
      StepInStep(all, s, es[0]);
      StepStaysSound(s, es[0]);
      RunInStep(all, Step(s, es[0]), es[1..]);
    }
  }

  /** Main result: however submits, ticks of any budget and, while nothing is queued, outside changes of
      memory are interleaved, once the queue is empty a device that queues vector work stands exactly where
      one that does everything at once stands: same registers, counters, status bits and memory. */
  lemma QueueingRefinesImmediate(s: State, es: seq<Event>, soft: State, sync: State)
    requires s.device.softAsync && s.device.queue == [] && AllAllowed(s, es)
    requires soft == RunOf(s, es) && soft.device.queue == []
    requires sync == RunOf(s.(device := s.device.(softAsync := false)), es)
    ensures sync == soft.(device := soft.device.(softAsync := false))
  {
    var all := RunAllAsValue();
    RunInStep(all, s, es);
  }

  /** A submit to an idle device that queues leaves it busy with nothing to do, whatever ticks follow, if and
      only if it asks for vector work whose descriptor cannot be read to its end.  Done at once, that is one
      error counted. */
  lemma HangsExactlyWhen(s: State, addr: nat, len: nat)
    requires s.device.softAsync && s.device.queue == []
    ensures var s' := Step(s, Submit(addr, len));
      s'.device.busy && s'.device.queue == [] <==>
        len > 0 && AsksVector(s.mem, addr) && ReadDescriptor(s.mem, addr).None?
    ensures len > 0 && AsksVector(s.mem, addr) && ReadDescriptor(s.mem, addr).None? ==>
      var s', sync := Step(s, Submit(addr, len)), Step(s.(device := s.device.(softAsync := false)), Submit(addr, len));
      s'.device.core == s.device.core && (forall budget :: Step(s', Tick(budget)) == s') &&
      sync.device.core == s.device.core.(errs := Inc(s.device.core.errs)) && !sync.device.busy
  {
    var d := Submitted(s.device, addr, len);
    EntryFetched(d.core, s.mem, addr, len, 0, ReadDescriptor(s.mem, addr));
  }
}
