/** The NPU's vector engine: a queue of work items drained a few elements per tick.

    The synchronous path runs an item to its end at once and counts a memory error; the ticks
    share the element loop but hand a memory error to their caller. */
module NpuSpec {
  import opened Memory
  import B = Bits

  const VECTOR_FLAG: nat := 0x1000

  datatype Job = Job(opcode: nat, a: nat, b: nat, r: nat, elems: nat)

  datatype Work = Work(job: Job, progress: nat)

  /** Counters are 32-bit and wrap. */
  datatype Core = Core(opcode: u32, opA: u32, opB: u32, result: u32, cycles: u32, done: u32, errs: u32)

  function Inc(x: u32): u32 { (x + 1) % 0x1_0000_0000 }

  /** A 32-bit product, as the sum it abbreviates. */
  function WrappingMul(a: u32, b: u32): u32 {
    if b == 0 then 0 else (a + WrappingMul(a, b - 1)) % 0x1_0000_0000
  }

  lemma {:induction false} WrappingMulIs(a: u32, b: u32)
    ensures WrappingMul(a, b) == a * b % 0x1_0000_0000
  {
    if b > 0 {
      WrappingMulIs(a, b - 1);
      AddMod(a, a * (b - 1));
      assert a * b == a + a * (b - 1);
    }
  }

  lemma AddMod(a: nat, p: nat)
    ensures (a + p % 0x1_0000_0000) % 0x1_0000_0000 == (a + p) % 0x1_0000_0000
  {
  }

  /** Unknown opcodes add. */
  function Compute(opcode: nat, a: u32, b: u32): u32 {
    if opcode == 1 then WrappingMul(a, b)
    else if opcode == 2 then (if a >= b then a else b)
    else if opcode == 3 then (if a >= 0x8000_0000 then 0 else a)
    else (a + b) % 0x1_0000_0000
  }

  /** A register read as a signed number. */
  function Signed(x: u32): int { if x >= 0x8000_0000 then x - 0x1_0000_0000 else x }

  /** What the four operations are: wrapping sum, wrapping product, unsigned maximum, and the signed
      maximum of the first operand and zero.  Every other opcode is a sum. */
  lemma ComputeMeans(opcode: nat, a: u32, b: u32)
    ensures opcode != 1 && opcode != 2 && opcode != 3 ==> Compute(opcode, a, b) == (a + b) % 0x1_0000_0000
    ensures Compute(1, a, b) == a * b % 0x1_0000_0000
    ensures Compute(2, a, b) >= a && Compute(2, a, b) >= b && (Compute(2, a, b) == a || Compute(2, a, b) == b)
    ensures Signed(Compute(3, a, b)) == if Signed(a) > 0 then Signed(a) else 0
  {
    WrappingMulIs(a, b);
  }

  /** Elements are four bytes apart, so one misaligned element means they all are. */
  predicate Aligned(j: Job) { j.a % 4 == 0 && j.b % 4 == 0 && j.r % 4 == 0 }

  predicate AlignedAt(j: Job, i: nat) {
    (j.a + i * 4) % 4 == 0 && (j.b + i * 4) % 4 == 0 && (j.r + i * 4) % 4 == 0
  }

  lemma AlignedEverywhere(j: Job, i: nat)
    ensures AlignedAt(j, i) <==> Aligned(j)
  {
  }

  /** One element: two loads, the operation, one store.  A refused store may leave a part behind. */
  function Element(j: Job, m: Mem, i: nat): (r: Stored)
    ensures SameRegions(m, r.mem)
  {
    match ReadLE(m, j.a + i * 4, 4)
    case None => Stored(m, false, 0)
    case Some(a) =>
      match ReadLE(m, j.b + i * 4, 4)
      case None => Stored(m, false, 0)
      case Some(b) => WriteLE(m, j.r + i * 4, 4, Compute(j.opcode, Word32(a), Word32(b)))
  }

  function Word32(v: nat): u32 { v % 0x1_0000_0000 }

  // ---- The synchronous path ----

  datatype Ran = Ran(core: Core, mem: Mem)

  /** Elements `i` and up of an aligned item; the first memory error ends it. */
  function RunFrom(c: Core, m: Mem, j: Job, i: nat): (r: Ran)
    ensures SameRegions(m, r.mem)
    decreases j.elems - i
  {
    if i >= j.elems then Ran(c.(done := Inc(c.done)), m)
    else
      var e := Element(j, m, i);
      if e.ok then RunFrom(c.(cycles := Inc(c.cycles)), e.mem, j, i + 1)
      else Ran(c.(errs := Inc(c.errs)), e.mem)
  }

  function RunItem(c: Core, m: Mem, w: Work): (r: Ran)
    ensures SameRegions(m, r.mem)
  {
    if Aligned(w.job) then RunFrom(c, m, w.job, w.progress) else Ran(c.(errs := Inc(c.errs)), m)
  }

  /** Every item in order of arrival, each to its end. */
  function RunAll(c: Core, m: Mem, queue: seq<Work>): Ran
    decreases |queue|
  {
    if queue == [] then Ran(c, m)
    else var r := RunItem(c, m, queue[0]); RunAll(r.core, r.mem, queue[1..])
  }

  /** Queued items are never empty and never finished. */
  ghost predicate Sane(queue: seq<Work>) {
    forall i :: 0 <= i < |queue| ==> queue[i].progress < queue[i].job.elems
  }

  // ---- Ticks ----

  datatype Ticked = Ticked(core: Core, queue: seq<Work>, mem: Mem, ok: bool)

  /** The next thing a tick does: discard a misaligned item, or process one element. */
  function Advance(c: Core, queue: seq<Work>, m: Mem): (t: Ticked)
    requires queue != []
    ensures |t.queue| <= |queue| && (!Aligned(queue[0].job) ==> |t.queue| < |queue|)
  {
    var w := queue[0];
    if !Aligned(w.job) then Ticked(c.(errs := Inc(c.errs)), queue[1..], m, true)
    else AfterElement(c, queue, Element(w.job, m, w.progress))
  }

  function AfterElement(c: Core, queue: seq<Work>, e: Stored): (t: Ticked)
    requires queue != []
    ensures |t.queue| <= |queue|
  {
    if !e.ok then Ticked(c, queue, e.mem, false)
    else Settle(c.(cycles := Inc(c.cycles)), [Next(queue[0])] + queue[1..], e.mem)
  }

  /** A finished item at the front leaves the queue and is counted. */
  function Settle(c: Core, queue: seq<Work>, m: Mem): Ticked
    requires queue != []
  {
    if queue[0].progress >= queue[0].job.elems then Ticked(c.(done := Inc(c.done)), queue[1..], m, true)
    else Ticked(c, queue, m, true)
  }

  /** The three ways processing an element can leave the queue. */
  lemma AfterElementShape(c: Core, queue: seq<Work>, e: Stored)
    requires queue != [] && Sane(queue)
    ensures var t := AfterElement(c, queue, e);
      t.mem == e.mem && t.ok == e.ok && Sane(t.queue) &&
      (!e.ok ==> t.queue == queue && t.core == c) &&
      (e.ok && |t.queue| == |queue| ==>
        t.queue == [Next(queue[0])] + queue[1..] && t.core == c.(cycles := Inc(c.cycles))) &&
      (e.ok && |t.queue| < |queue| ==>
        t.queue == queue[1..] && queue[0].progress + 1 == queue[0].job.elems &&
        t.core == c.(cycles := Inc(c.cycles), done := Inc(c.done)))
  {
    assert ([Next(queue[0])] + queue[1..])[1..] == queue[1..];
  }

  lemma AdvanceShape(c: Core, queue: seq<Work>, m: Mem)
    requires queue != [] && Sane(queue)
    ensures var t := Advance(c, queue, m); SameRegions(m, t.mem) && Sane(t.queue)
  {
    if Aligned(queue[0].job) {
      AfterElementShape(c, queue, Element(queue[0].job, m, queue[0].progress));
    }
  }

  function Next(w: Work): Work { w.(progress := w.progress + 1) }

  /** One tick: spend up to `budget` elements from the front of the queue. */
  function Drain(c: Core, queue: seq<Work>, m: Mem, budget: nat): Ticked
    decreases budget, |queue|
  {
    if budget == 0 || queue == [] then Ticked(c, queue, m, true)
    else
      var t := Advance(c, queue, m);
      if !t.ok then t
      else Drain(t.core, t.queue, t.mem, if Aligned(queue[0].job) then budget - 1 else budget)
  }

  lemma {:induction false} DrainShape(c: Core, queue: seq<Work>, m: Mem, budget: nat)
    requires Sane(queue)
    ensures var t := Drain(c, queue, m, budget); SameRegions(m, t.mem) && Sane(t.queue)
    decreases budget, |queue|
  {
    if budget > 0 && queue != [] {
      AdvanceShape(c, queue, m);
      var t := Advance(c, queue, m);
      if t.ok { DrainShape(t.core, t.queue, t.mem, if Aligned(queue[0].job) then budget - 1 else budget); }
    }
  }

  lemma DropStep(c: Core, queue: seq<Work>, m: Mem, budget: nat)
    requires queue != [] && budget > 0 && !Aligned(queue[0].job)
    ensures Drain(c, queue, m, budget) == Drain(c.(errs := Inc(c.errs)), queue[1..], m, budget)
  {
    assert Advance(c, queue, m) == Ticked(c.(errs := Inc(c.errs)), queue[1..], m, true);
  }

  lemma ElementStep(c: Core, queue: seq<Work>, m: Mem, budget: nat, e: Stored)
    requires queue != [] && budget > 0 && Aligned(queue[0].job)
    requires e == Element(queue[0].job, m, queue[0].progress)
    ensures Drain(c, queue, m, budget) ==
      if !e.ok then Ticked(c, queue, e.mem, false)
      else
        var t := AfterElement(c, queue, e);
        Drain(t.core, t.queue, t.mem, budget - 1)
  {
  }

  /** A sequence of ticks; after one that reports an error the caller may go on ticking. */
  function Ticks(c: Core, queue: seq<Work>, m: Mem, budgets: seq<nat>): Ticked
    decreases |budgets|
  {
    if budgets == [] then Ticked(c, queue, m, true)
    else
      var t := Drain(c, queue, m, budgets[0]);
      Ticks(t.core, t.queue, t.mem, budgets[1..])
  }

  lemma {:induction false} TicksShape(c: Core, queue: seq<Work>, m: Mem, budgets: seq<nat>)
    requires Sane(queue)
    ensures var t := Ticks(c, queue, m, budgets); SameRegions(m, t.mem) && Sane(t.queue)
    decreases |budgets|
  {
    if budgets != [] {
      DrainShape(c, queue, m, budgets[0]);
      var t := Drain(c, queue, m, budgets[0]);
      TicksShape(t.core, t.queue, t.mem, budgets[1..]);
    }
  }

  /** Nothing to spend or nothing to do. */
  lemma DrainIdle(c: Core, queue: seq<Work>, m: Mem, budget: nat)
    requires budget == 0 || queue == []
    ensures Drain(c, queue, m, budget) == Ticked(c, queue, m, true)
  {
  }

  // `Drain` and `RunFrom` as values: a loop whose invariant speaks of the value moves along the
  // step lemmas alone, without the definitions.

  type DrainFunction = (Core, seq<Work>, Mem, nat) -> Ticked

  ghost predicate IsDrain(f: DrainFunction) {
    forall c, queue, m, b {:trigger Drain(c, queue, m, b)} :: f(c, queue, m, b) == Drain(c, queue, m, b)
  }

  lemma DrainAsValue() returns (f: DrainFunction)
    ensures IsDrain(f)
  {
    f := Drain;
  }

  type RunFunction = (Core, Mem, Job, nat) -> Ran

  ghost predicate IsRunFrom(f: RunFunction) {
    forall c, m, j, i {:trigger RunFrom(c, m, j, i)} :: f(c, m, j, i) == RunFrom(c, m, j, i)
  }

  lemma RunFromAsValue() returns (f: RunFunction)
    ensures IsRunFrom(f)
  {
    f := RunFrom;
  }

  // ---- Mapped operands ----

  predicate MappedAt(j: Job, m: Mem, i: nat) {
    (forall x :: j.a + i * 4 <= x < j.a + i * 4 + 4 ==> CanRead(m, x)) &&
    (forall x :: j.b + i * 4 <= x < j.b + i * 4 + 4 ==> CanRead(m, x)) &&
    (forall x :: j.r + i * 4 <= x < j.r + i * 4 + 4 ==> CanWrite(m, x))
  }

  ghost predicate Mapped(w: Work, m: Mem) {
    Aligned(w.job) ==> forall i :: w.progress <= i < w.job.elems ==> MappedAt(w.job, m, i)
  }

  ghost predicate AllMapped(queue: seq<Work>, m: Mem) {
    forall k :: 0 <= k < |queue| ==> Mapped(queue[k], m)
  }

  lemma LoadSucceeds(m: Mem, a: int)
    ensures ReadLE(m, a, 4).Some? <==> forall x :: a <= x < a + 4 ==> CanRead(m, x)
  {
    ReadBlockSpec(m, a, 4);
  }

  lemma StoreSucceeds(m: Mem, a: int, v: nat)
    ensures WriteLE(m, a, 4, v).ok <==> forall x :: a <= x < a + 4 ==> CanWrite(m, x)
  {
    WriteBlockSpec(m, a, ToLE(v, 4));
  }

  lemma ElementStores(j: Job, m: Mem, i: nat, r: nat, x: nat, y: nat)
    requires ReadLE(m, j.a + i * 4, 4) == Some(x) && ReadLE(m, j.b + i * 4, 4) == Some(y) && r == j.r + i * 4
    ensures Element(j, m, i) == WriteLE(m, r, 4, Compute(j.opcode, Word32(x), Word32(y)))
  {
  }

  lemma ElementSucceeds(j: Job, m: Mem, i: nat)
    ensures Element(j, m, i).ok <==> MappedAt(j, m, i)
  {
    var a, b, r := j.a + i * 4, j.b + i * 4, j.r + i * 4;
    var x, y := ReadLE(m, a, 4), ReadLE(m, b, 4);
    LoadSucceeds(m, a);
    LoadSucceeds(m, b);
    if x.Some? && y.Some? {
      StoreSucceeds(m, r, Compute(j.opcode, Word32(x.value), Word32(y.value)));
      ElementStores(j, m, i, r, x.value, y.value);
    }
  }

  lemma MappedElsewhere(j: Job, m: Mem, m': Mem, i: nat)
    requires SameRegions(m, m')
    ensures MappedAt(j, m, i) == MappedAt(j, m', i)
  {
    assert forall x :: (CanRead(m, x) <==> CanRead(m', x)) && (CanWrite(m, x) <==> CanWrite(m', x));
  }

  // ---- Asynchronous refines synchronous ----

  // `RunAll` and `RunFrom` are values here for the same reason as `Drain` is above.

  type AllFunction = (Core, Mem, seq<Work>) -> Ran

  ghost predicate IsRunAll(f: AllFunction) {
    forall c, m, queue {:trigger RunAll(c, m, queue)} :: f(c, m, queue) == RunAll(c, m, queue)
  }

  lemma RunAllAsValue() returns (f: AllFunction)
    ensures IsRunAll(f)
  {
    f := RunAll;
  }

  lemma RunFromStep(c: Core, m: Mem, j: Job, i: nat, e: Stored)
    requires i < j.elems && e == Element(j, m, i)
    ensures RunFrom(c, m, j, i) ==
      if e.ok then RunFrom(c.(cycles := Inc(c.cycles)), e.mem, j, i + 1) else Ran(c.(errs := Inc(c.errs)), e.mem)
  {
  }

  lemma RunFromEnd(c: Core, m: Mem, j: Job)
    ensures RunFrom(c, m, j, j.elems) == Ran(c.(done := Inc(c.done)), m)
  {
  }

  lemma RunAllCons(c: Core, m: Mem, w: Work, rest: seq<Work>)
    requires Sane([w] + rest)
    ensures Sane(rest) && w.progress < w.job.elems
    ensures var r := RunItem(c, m, w); RunAll(c, m, [w] + rest) == RunAll(r.core, r.mem, rest)
  {
    assert ([w] + rest)[0] == w && ([w] + rest)[1..] == rest;
    forall i | 0 <= i < |rest|
      ensures rest[i].progress < rest[i].job.elems
    {
      assert rest[i] == ([w] + rest)[i + 1];
    }
  }

  lemma AllFirst(all: AllFunction, c: Core, m: Mem, queue: seq<Work>, r: Ran)
    requires IsRunAll(all) && queue != [] && r == RunItem(c, m, queue[0])
    ensures all(c, m, queue) == all(r.core, r.mem, queue[1..])
  {
    assert RunAll(c, m, queue) == RunAll(r.core, r.mem, queue[1..]);
  }

  lemma AllAlignedFirst(all: AllFunction, run: RunFunction, c: Core, m: Mem, queue: seq<Work>, r: Ran)
    requires IsRunAll(all) && IsRunFrom(run) && queue != [] && Aligned(queue[0].job)
    requires r == run(c, m, queue[0].job, queue[0].progress)
    ensures all(c, m, queue) == all(r.core, r.mem, queue[1..])
  {
    assert RunItem(c, m, queue[0]) == r;
    AllFirst(all, c, m, queue, r);
  }

  lemma AllMisalignedFirst(all: AllFunction, c: Core, m: Mem, queue: seq<Work>)
    requires IsRunAll(all) && queue != [] && !Aligned(queue[0].job)
    ensures all(c, m, queue) == all(c.(errs := Inc(c.errs)), m, queue[1..])
  {
    AllFirst(all, c, m, queue, Ran(c.(errs := Inc(c.errs)), m));
  }

  lemma RunStep(run: RunFunction, c: Core, m: Mem, j: Job, i: nat, e: Stored)
    requires IsRunFrom(run) && i < j.elems && e == Element(j, m, i) && e.ok
    ensures run(c, m, j, i) == run(c.(cycles := Inc(c.cycles)), e.mem, j, i + 1)
  {
    RunFromStep(c, m, j, i, e);
  }

  lemma RunEnd(run: RunFunction, c: Core, m: Mem, j: Job)
    requires IsRunFrom(run)
    ensures run(c, m, j, j.elems) == Ran(c.(done := Inc(c.done)), m)
  {
    RunFromEnd(c, m, j);
  }

  /** With its last element done an item leaves the queue, where the synchronous path goes on. */
  lemma SettlingKeepsRun(all: AllFunction, run: RunFunction, c: Core, w: Work, rest: seq<Work>, m: Mem)
    requires IsRunAll(all) && IsRunFrom(run) && w.progress < w.job.elems && Aligned(w.job)
    ensures var t, r := Settle(c, [Next(w)] + rest, m), run(c, m, w.job, w.progress + 1);
      all(t.core, t.mem, t.queue) == all(r.core, r.mem, rest)
  {
    var queue := [Next(w)] + rest;
    assert queue[0] == Next(w) && queue[1..] == rest;
    if w.progress + 1 == w.job.elems {
      RunEnd(run, c, m, w.job);
    } else {
      AllAlignedFirst(all, run, c, m, queue, run(c, m, w.job, w.progress + 1));
    }
  }

  /** One element done leaves what the rest will compute. */
  lemma ElementKeepsRun(all: AllFunction, run: RunFunction, c: Core, queue: seq<Work>, m: Mem, e: Stored)
    requires IsRunAll(all) && IsRunFrom(run) && queue != [] && Sane(queue) && Aligned(queue[0].job) && e.ok
    requires run(c, m, queue[0].job, queue[0].progress) ==
      run(c.(cycles := Inc(c.cycles)), e.mem, queue[0].job, queue[0].progress + 1)
    ensures var t := AfterElement(c, queue, e); all(t.core, t.mem, t.queue) == all(c, m, queue)
  {
    var c1 := c.(cycles := Inc(c.cycles));
    SettlingKeepsRun(all, run, c1, queue[0], queue[1..], e.mem);
    AllAlignedFirst(all, run, c, m, queue, run(c, m, queue[0].job, queue[0].progress));
  }

  lemma AdvanceSucceeds(c: Core, queue: seq<Work>, m: Mem)
    requires queue != [] && Sane(queue) && Mapped(queue[0], m)
    ensures Advance(c, queue, m).ok
  {
    if Aligned(queue[0].job) {
      ElementSucceeds(queue[0].job, m, queue[0].progress);
      AfterElementShape(c, queue, Element(queue[0].job, m, queue[0].progress));
    }
  }

  /** Each thing a tick does leaves what the synchronous path would still compute unchanged. */
  lemma AdvanceKeepsRun(all: AllFunction, run: RunFunction, c: Core, queue: seq<Work>, m: Mem)
    requires IsRunAll(all) && IsRunFrom(run) && queue != [] && Sane(queue) && Mapped(queue[0], m)
    ensures var t := Advance(c, queue, m); all(t.core, t.mem, t.queue) == all(c, m, queue)
  {
    var w := queue[0];
    if Aligned(w.job) {
      ElementSucceeds(w.job, m, w.progress);
      var e := Element(w.job, m, w.progress);
      RunStep(run, c, m, w.job, w.progress, e);
      ElementKeepsRun(all, run, c, queue, m, e);
    } else {
      AllMisalignedFirst(all, c, m, queue);
    }
  }

  lemma AfterElementMapped(c: Core, queue: seq<Work>, m: Mem, e: Stored)
    requires queue != [] && Sane(queue) && AllMapped(queue, m) && SameRegions(m, e.mem)
    ensures AllMapped(AfterElement(c, queue, e).queue, e.mem)
  {
    var t := AfterElement(c, queue, e);
    var shift := |queue| - |t.queue|;
    AfterElementShape(c, queue, e);
    forall k | 0 <= k < |t.queue|
      ensures Mapped(t.queue[k], e.mem)
    {
      var w := queue[k + shift];
      assert t.queue[k] == w || t.queue[k] == Next(w);
      MappedStays(w, t.queue[k], m, e.mem);
    }
  }

  lemma MappedStays(w: Work, w': Work, m: Mem, m': Mem)
    requires Mapped(w, m) && SameRegions(m, m') && w'.job == w.job && w'.progress >= w.progress
    ensures Mapped(w', m')
  {
    forall i | w'.progress <= i < w'.job.elems && Aligned(w.job)
      ensures MappedAt(w'.job, m', i)
    {
      MappedElsewhere(w.job, m, m', i);
    }
  }

  lemma AdvanceKeepsMapped(c: Core, queue: seq<Work>, m: Mem)
    requires queue != [] && Sane(queue) && AllMapped(queue, m)
    ensures var t := Advance(c, queue, m); AllMapped(t.queue, t.mem)
  {
    if Aligned(queue[0].job) {
      AfterElementMapped(c, queue, m, Element(queue[0].job, m, queue[0].progress));
    }
  }

  lemma {:induction false} DrainKeepsMapped(c: Core, queue: seq<Work>, m: Mem, budget: nat)
    requires Sane(queue) && AllMapped(queue, m)
    ensures var t := Drain(c, queue, m, budget); t.ok && Sane(t.queue) && AllMapped(t.queue, t.mem)
    decreases budget, |queue|
  {
    if budget > 0 && queue != [] {
      AdvanceShape(c, queue, m);
      AdvanceSucceeds(c, queue, m);
      AdvanceKeepsMapped(c, queue, m);
      var t := Advance(c, queue, m);
      DrainKeepsMapped(t.core, t.queue, t.mem, if Aligned(queue[0].job) then budget - 1 else budget);
    }
  }

  lemma {:induction false} DrainKeepsRun(all: AllFunction, run: RunFunction, c: Core, queue: seq<Work>, m: Mem,
                                         budget: nat)
    requires IsRunAll(all) && IsRunFrom(run) && Sane(queue) && AllMapped(queue, m)
    ensures var t := Drain(c, queue, m, budget); all(t.core, t.mem, t.queue) == all(c, m, queue)
    decreases budget, |queue|
  {
    if budget > 0 && queue != [] {
      AdvanceShape(c, queue, m);
      AdvanceSucceeds(c, queue, m);
      AdvanceKeepsRun(all, run, c, queue, m);
      AdvanceKeepsMapped(c, queue, m);
      var t := Advance(c, queue, m);
      DrainKeepsRun(all, run, t.core, t.queue, t.mem, if Aligned(queue[0].job) then budget - 1 else budget);
    }
  }

  lemma {:induction false} TicksKeepRun(all: AllFunction, run: RunFunction, c: Core, queue: seq<Work>, m: Mem,
                                        budgets: seq<nat>)
    requires IsRunAll(all) && IsRunFrom(run) && Sane(queue) && AllMapped(queue, m)
    ensures var t := Ticks(c, queue, m, budgets); all(t.core, t.mem, t.queue) == all(c, m, queue)
    decreases |budgets|
  {
    if budgets != [] {
      DrainKeepsMapped(c, queue, m, budgets[0]);
      DrainKeepsRun(all, run, c, queue, m, budgets[0]);
      var t := Drain(c, queue, m, budgets[0]);
      TicksKeepRun(all, run, t.core, t.queue, t.mem, budgets[1..]);
    }
  }

  /** Main result: whatever the budgets, ticks that empty the queue have done exactly what running
      every item to its end in order would have done: same memory, cycles, done and error counts,
      also when operands and results overlap within or between items. */
  lemma AsyncRefinesSync(c: Core, queue: seq<Work>, m: Mem, budgets: seq<nat>)
    requires Sane(queue) && Ticks(c, queue, m, budgets).queue == []
    ensures var t := Ticks(c, queue, m, budgets); Ran(t.core, t.mem) == RunAll(c, m, queue)
  {
    var all := RunAllAsValue();
    var run := RunFromAsValue();
    EmptiedWasMapped(c, queue, m, budgets);
    TicksKeepRun(all, run, c, queue, m, budgets);
    var t := Ticks(c, queue, m, budgets);
    NothingToRun(t.core, t.mem);
    assert RunAll(c, m, queue) == all(c, m, queue);
  }

  lemma NothingToRun(c: Core, m: Mem)
    ensures RunAll(c, m, []) == Ran(c, m)
  {
  }

  // ---- How long it takes ----

  function Remaining(queue: seq<Work>): nat {
    if queue == [] then 0
    else
      var w := queue[0];
      (if Aligned(w.job) && w.progress < w.job.elems then w.job.elems - w.progress else 0) + Remaining(queue[1..])
  }

  ghost predicate AllAligned(queue: seq<Work>) {
    forall k :: 0 <= k < |queue| ==> Aligned(queue[k].job)
  }

  function Sum(budgets: seq<nat>): nat {
    if budgets == [] then 0 else budgets[0] + Sum(budgets[1..])
  }

  lemma AdvanceRemaining(c: Core, queue: seq<Work>, m: Mem)
    requires queue != [] && Sane(queue) && Mapped(queue[0], m)
    ensures var t := Advance(c, queue, m);
      Remaining(t.queue) == Remaining(queue) - (if Aligned(queue[0].job) then 1 else 0) &&
      (AllAligned(queue) ==> AllAligned(t.queue))
  {
    var w := queue[0];
    if Aligned(w.job) {
      ElementSucceeds(w.job, m, w.progress);
      AfterElementRemaining(c, queue, Element(w.job, m, w.progress));
    }
  }

  lemma AfterElementRemaining(c: Core, queue: seq<Work>, e: Stored)
    requires queue != [] && Sane(queue) && Aligned(queue[0].job) && e.ok
    ensures var t := AfterElement(c, queue, e);
      Remaining(t.queue) == Remaining(queue) - 1 && (AllAligned(queue) ==> AllAligned(t.queue))
  {
    assert ([Next(queue[0])] + queue[1..])[1..] == queue[1..];
  }

  /** A tick spends its whole budget as long as there is work, and nothing beyond. */
  lemma {:induction false} DrainRemaining(c: Core, queue: seq<Work>, m: Mem, budget: nat)
    requires Sane(queue) && AllMapped(queue, m)
    ensures var t := Drain(c, queue, m, budget);
      Sane(t.queue) && Remaining(t.queue) == (if Remaining(queue) <= budget then 0 else Remaining(queue) - budget) &&
      (Remaining(queue) < budget ==> t.queue == []) && (AllAligned(queue) ==> AllAligned(t.queue))
    decreases budget, |queue|
  {
    if budget > 0 && queue != [] {
      AdvanceShape(c, queue, m);
      AdvanceSucceeds(c, queue, m);
      AdvanceKeepsMapped(c, queue, m);
      AdvanceRemaining(c, queue, m);
      var t := Advance(c, queue, m);
      DrainRemaining(t.core, t.queue, t.mem, if Aligned(queue[0].job) then budget - 1 else budget);
    }
  }

  lemma {:induction false} TicksRemaining(c: Core, queue: seq<Work>, m: Mem, budgets: seq<nat>)
    requires Sane(queue) && AllMapped(queue, m)
    ensures var t := Ticks(c, queue, m, budgets);
      Sane(t.queue) &&
      Remaining(t.queue) == (if Remaining(queue) <= Sum(budgets) then 0 else Remaining(queue) - Sum(budgets)) &&
      (AllAligned(queue) ==> AllAligned(t.queue))
    decreases |budgets|
  {
    if budgets != [] {
      DrainRemaining(c, queue, m, budgets[0]);
      DrainKeepsMapped(c, queue, m, budgets[0]);
      var t := Drain(c, queue, m, budgets[0]);
      TicksRemaining(t.core, t.queue, t.mem, budgets[1..]);
    }
  }

  lemma {:induction false} SumOfEqual(k: nat, b: nat)
    ensures Sum(seq(k, _ => b)) == k * b
  {
    if k > 0 {
      assert seq(k, _ => b)[1..] == seq(k - 1, _ => b);
      SumOfEqual(k - 1, b);
    }
  }

  /** Aligned work of N elements under budget b is finished by k ticks exactly when k * b >= N, so
      the first tick to finish it is number ceil(N / b). */
  lemma TicksNeeded(c: Core, queue: seq<Work>, m: Mem, b: nat, k: nat)
    requires Sane(queue) && AllMapped(queue, m) && AllAligned(queue) && b > 0
    ensures Ticks(c, queue, m, seq(k, _ => b)).queue == [] <==> k >= (Remaining(queue) + b - 1) / b
  {
    TicksRemaining(c, queue, m, seq(k, _ => b));
    SumOfEqual(k, b);
    var t := Ticks(c, queue, m, seq(k, _ => b));
    if t.queue != [] { assert Aligned(t.queue[0].job) && Remaining(t.queue) > 0; }
    Ceiling(Remaining(queue), b, k);
  }

  lemma Ceiling(n: nat, b: nat, k: nat)
    requires b > 0
    ensures k * b >= n <==> k >= (n + b - 1) / b
  {
    var q, r := (n + b - 1) / b, (n + b - 1) % b;
    assert n + b - 1 == q * b + r;
    assert (k - q) * b == k * b - q * b;
    B.MultipleOutside(k - q, b);
  }

  // ---- Why operands must be mapped ----

  /** Some aligned item still has an element that memory will refuse. */
  ghost predicate Blocked(queue: seq<Work>, m: Mem) {
    exists k: nat, i: nat :: BlockedAt(queue, m, k, i)
  }

  ghost predicate BlockedAt(queue: seq<Work>, m: Mem, k: nat, i: nat) {
    k < |queue| && Aligned(queue[k].job) && queue[k].progress <= i < queue[k].job.elems && !MappedAt(queue[k].job, m, i)
  }

  lemma AdvanceKeepsBlocked(c: Core, queue: seq<Work>, m: Mem)
    requires queue != [] && Sane(queue) && Blocked(queue, m)
    ensures var t := Advance(c, queue, m); Blocked(t.queue, t.mem)
  {
    var k: nat, i: nat :| BlockedAt(queue, m, k, i);
    var w, m' := queue[0], Advance(c, queue, m).mem;
    MappedElsewhere(queue[k].job, m, m', i);
    if Aligned(w.job) {
      ElementSucceeds(w.job, m, w.progress);
      AfterElementBlocked(c, queue, Element(w.job, m, w.progress), k, i);
    } else {
      assert BlockedAt(queue[1..], m', k - 1, i);
    }
  }

  /** The blocking element is not the one that has just succeeded, so it is still ahead. */
  lemma AfterElementBlocked(c: Core, queue: seq<Work>, e: Stored, k: nat, i: nat)
    requires queue != [] && Sane(queue) && BlockedAt(queue, e.mem, k, i)
    requires k == 0 && i == queue[0].progress ==> !e.ok
    ensures Blocked(AfterElement(c, queue, e).queue, e.mem)
  {
    var t := AfterElement(c, queue, e);
    AfterElementShape(c, queue, e);
    assert BlockedAt(t.queue, e.mem, k - (|queue| - |t.queue|), i);
  }

  lemma {:induction false} DrainKeepsBlocked(c: Core, queue: seq<Work>, m: Mem, budget: nat)
    requires Sane(queue) && Blocked(queue, m)
    ensures var t := Drain(c, queue, m, budget); Sane(t.queue) && Blocked(t.queue, t.mem)
    decreases budget, |queue|
  {
    if budget > 0 && queue != [] {
      AdvanceShape(c, queue, m);
      AdvanceKeepsBlocked(c, queue, m);
      var t := Advance(c, queue, m);
      if t.ok { DrainKeepsBlocked(t.core, t.queue, t.mem, if Aligned(queue[0].job) then budget - 1 else budget); }
    }
  }

  lemma {:induction false} TicksKeepBlocked(c: Core, queue: seq<Work>, m: Mem, budgets: seq<nat>)
    requires Sane(queue) && Blocked(queue, m)
    ensures var t := Ticks(c, queue, m, budgets); Blocked(t.queue, t.mem)
    decreases |budgets|
  {
    if budgets != [] {
      DrainKeepsBlocked(c, queue, m, budgets[0]);
      var t := Drain(c, queue, m, budgets[0]);
      TicksKeepBlocked(t.core, t.queue, t.mem, budgets[1..]);
    }
  }

  lemma UnmappedBlocks(queue: seq<Work>, m: Mem)
    requires !AllMapped(queue, m)
    ensures Blocked(queue, m)
  {
    var k :| 0 <= k < |queue| && !Mapped(queue[k], m);
    var i :| queue[k].progress <= i < queue[k].job.elems && !MappedAt(queue[k].job, m, i);
    assert BlockedAt(queue, m, k, i);
  }

  lemma BudgetEmpties(c: Core, queue: seq<Work>, m: Mem, budget: nat)
    requires Sane(queue) && AllMapped(queue, m) && budget > Remaining(queue)
    ensures Drain(c, queue, m, budget).queue == []
  {
    DrainRemaining(c, queue, m, budget);
  }

  lemma EmptiedWasMapped(c: Core, queue: seq<Work>, m: Mem, budgets: seq<nat>)
    requires Sane(queue) && Ticks(c, queue, m, budgets).queue == []
    ensures AllMapped(queue, m)
  {
    if !AllMapped(queue, m) {
      UnmappedBlocks(queue, m);
      TicksKeepBlocked(c, queue, m, budgets);
    }
  }

  /** The queue can be emptied exactly when every operand of its aligned items is mapped.  An item
      that is not stays in the queue for ever, where the synchronous path would count an error. */
  lemma EmptiesExactlyWhenMapped(c: Core, queue: seq<Work>, m: Mem)
    requires Sane(queue)
    ensures (exists budgets :: Ticks(c, queue, m, budgets).queue == []) <==> AllMapped(queue, m)
  {
    if budgets :| Ticks(c, queue, m, budgets).queue == [] {
      EmptiedWasMapped(c, queue, m, budgets);
    }
    if AllMapped(queue, m) {
      var budget := Remaining(queue) + 1;
      BudgetEmpties(c, queue, m, budget);
      OneTick(c, queue, m, budget);
    }
  }

  lemma OneTick(c: Core, queue: seq<Work>, m: Mem, budget: nat)
    ensures Ticks(c, queue, m, [budget]).queue == Drain(c, queue, m, budget).queue
  {
    var t := Drain(c, queue, m, budget);
    assert [budget][1..] == [];
    NothingToDo(t.core, t.queue, t.mem);
  }

  lemma NothingToDo(c: Core, queue: seq<Work>, m: Mem)
    ensures Ticks(c, queue, m, []) == Ticked(c, queue, m, true)
  {
  }

  // ---- Descriptors and notifications ----

  datatype Device = Device(
    core: Core, queue: seq<Work>, busy: bool, doneFlag: bool, irq: bool, irqEnabled: bool,
    pending: bool, descAddr: nat, descLen: nat, softAsync: bool)

  /** One scalar descriptor.  The counters move before the result is stored, so a refused store
      counts as done and as an error. */
  function RunScalar(c: Core, m: Mem, raw: u32, a: nat, b: nat, r: nat): (out: Ran)
    ensures SameRegions(m, out.mem)
  {
    var c1 := c.(opcode := raw);
    match ReadLE(m, a, 4)
    case None => Ran(c1.(errs := Inc(c.errs)), m)
    case Some(x) =>
      var c2 := c1.(opA := Word32(x));
      match ReadLE(m, b, 4)
      case None => Ran(c2.(errs := Inc(c.errs)), m)
      case Some(y) =>
        var res := Compute(raw, Word32(x), Word32(y));
        var c3 := c2.(opB := Word32(y), result := res, cycles := Inc(c.cycles), done := Inc(c.done));
        var s := WriteLE(m, r, 4, res);
        Ran(if s.ok then c3 else c3.(errs := Inc(c.errs)), s.mem)
  }

  /** A scalar descriptor reads both operands before it computes: a missing one is an error and nothing
      else.  Otherwise the result is counted as done, stands in memory if memory took it, and counts as an
      error as well if it did not. */
  lemma ScalarMeans(c: Core, m: Mem, raw: u32, a: nat, b: nat, r: nat, x: Option<nat>, y: Option<nat>)
    requires x == ReadLE(m, a, 4) && y == ReadLE(m, b, 4)
    ensures var out := RunScalar(c, m, raw, a, b, r);
      var stored := forall k :: r <= k < r + 4 ==> CanWrite(m, k);
      if x.None? || y.None? then
        out.mem == m && out.core.errs == Inc(c.errs) && out.core.done == c.done && out.core.cycles == c.cycles
      else
        out.core.done == Inc(c.done) && out.core.cycles == Inc(c.cycles) &&
        out.core.result == Compute(raw, Word32(x.value), Word32(y.value)) &&
        (stored ==> ReadLE(out.mem, r, 4) == Some(out.core.result) && out.core.errs == c.errs) &&
        (!stored ==> out.core.errs == Inc(c.errs))
  {
    if x.Some? && y.Some? {
      var res := Compute(raw, Word32(x.value), Word32(y.value));
      StoreSucceeds(m, r, res);
      assert Pow256(4) == 0x1_0000_0000;
      if WriteLE(m, r, 4, res).ok { WriteLEThenRead(m, r, 4, res); }
    }
  }

  function ReadDescriptor(m: Mem, base: nat): Option<(u32, u32, u32, u32)> {
    match ReadLE(m, base, 4)
    case None => None
    case Some(raw) =>
      match ReadLE(m, base + 4, 4)
      case None => None
      case Some(a) =>
        match ReadLE(m, base + 8, 4)
        case None => None
        case Some(b) =>
          match ReadLE(m, base + 12, 4)
          case None => None
          case Some(r) => Some((Word32(raw), Word32(a), Word32(b), Word32(r)))
  }

  predicate IsVector(raw: nat) { raw / VECTOR_FLAG % 2 == 1 }

  function JobOf(d: (u32, u32, u32, u32), elems: nat): Job {
    Job(if IsVector(d.0) then d.0 - VECTOR_FLAG else d.0, d.1, d.2, d.3, elems)
  }

  /** One descriptor on the synchronous path, its failure counted. */
  function RunEntry(c: Core, m: Mem, descAddr: nat, descLen: nat, index: nat): (r: Ran)
    ensures SameRegions(m, r.mem)
  {
    match ReadDescriptor(m, descAddr + index * 16)
    case None => Ran(c.(errs := Inc(c.errs)), m)
    case Some(d) => RunDescriptor(c, m, d, descLen)
  }

  lemma EntryFetched(c: Core, m: Mem, descAddr: nat, descLen: nat, index: nat, d: Option<(u32, u32, u32, u32)>)
    requires d == ReadDescriptor(m, descAddr + index * 16)
    ensures RunEntry(c, m, descAddr, descLen, index) ==
      if d.None? then Ran(c.(errs := Inc(c.errs)), m) else RunDescriptor(c, m, d.value, descLen)
  {
  }

  function RunDescriptor(c: Core, m: Mem, d: (u32, u32, u32, u32), descLen: nat): (r: Ran)
    ensures SameRegions(m, r.mem)
  {
    if !IsVector(d.0) then RunScalar(c, m, d.0, d.1, d.2, d.3)
    else if descLen == 0 then Ran(c, m)
    else RunItem(c, m, Work(JobOf(d, descLen), 0))
  }

  function RunEntries(c: Core, m: Mem, descAddr: nat, descLen: nat, index: nat): (r: Ran)
    requires index <= descLen
    ensures SameRegions(m, r.mem)
    decreases descLen - index
  {
    if index == descLen then Ran(c, m)
    else
      var r := RunEntry(c, m, descAddr, descLen, index);
      RunEntries(r.core, r.mem, descAddr, descLen, index + 1)
  }

  datatype Served = Served(device: Device, mem: Mem, ok: bool)

  function Finish(d: Device): Device {
    if d.queue != [] then d else d.(busy := false, doneFlag := true, irq := d.irq || d.irqEnabled)
  }

  function TickDevice(d: Device, m: Mem, budget: nat): Served
  {
    if d.queue == [] || budget == 0 then Served(d, m, true)
    else
      var t := Drain(d.core, d.queue, m, budget);
      var d' := d.(core := t.core, queue := t.queue);
      Served(if t.ok then Finish(d') else d', t.mem, t.ok)
  }

  function Notify(d: Device, m: Mem): Served
  {
    if !d.pending then Served(d, m, true)
    else
      var d1 := d.(pending := false, busy := true, doneFlag := false);
      if d.descLen == 0 then Served(Finish(d1), m, true)
      else match ReadLE(m, d.descAddr, 4)
        case None => Served(Finish(d1.(core := d.core.(errs := Inc(d.core.errs)))), m, true)
        case Some(first) =>
          if IsVector(first) && d.softAsync then
            match ReadDescriptor(m, d.descAddr)
            case None => Served(d1, m, false)
            case Some(desc) => Served(d1.(queue := d.queue + [Work(JobOf(desc, d.descLen), 0)]), m, true)
          else
            var r := if IsVector(first) then RunEntry(d.core, m, d.descAddr, d.descLen, 0)
                     else RunEntries(d.core, m, d.descAddr, d.descLen, 0);
            Served(Finish(d1.(core := r.core)), r.mem, true)
  }

  function TicksDevice(d: Device, m: Mem, budgets: seq<nat>): Served
    decreases |budgets|
  {
    if budgets == [] then Served(d, m, true)
    else
      var s := TickDevice(d, m, budgets[0]);
      TicksDevice(s.device, s.mem, budgets[1..])
  }

  /** A tick that memory stops leaves its item in the queue. */
  lemma {:induction false} FailureStays(c: Core, queue: seq<Work>, m: Mem, budget: nat)
    ensures var t := Drain(c, queue, m, budget); t.ok || t.queue != []
    decreases budget, |queue|
  {
    if budget > 0 && queue != [] {
      var t := Advance(c, queue, m);
      if t.ok { FailureStays(t.core, t.queue, t.mem, if Aligned(queue[0].job) then budget - 1 else budget); }
    }
  }

  /** One device tick, also one that fails: the engine's tick, and the status bits. */
  lemma TickDeviceIs(d: Device, m: Mem, budget: nat, s: Served, t: Ticked)
    requires d.queue == [] ==> d == Finish(d)
    requires s == TickDevice(d, m, budget) && t == Drain(d.core, d.queue, m, budget)
    ensures s.mem == t.mem && s.device == Finish(d.(core := t.core, queue := t.queue))
    ensures s.device.queue == t.queue && (t.queue == [] ==> s.device == Finish(s.device))
  {
    FailureStays(d.core, d.queue, m, budget);
    if budget == 0 || d.queue == [] { DrainIdle(d.core, d.queue, m, budget); }
  }

  /** Device ticks are engine ticks plus the status bits, which settle when the queue empties. */
  lemma {:induction false} TicksDeviceIs(d: Device, m: Mem, budgets: seq<nat>)
    requires d.queue == [] ==> d == Finish(d)
    ensures var s, t := TicksDevice(d, m, budgets), Ticks(d.core, d.queue, m, budgets);
      s.mem == t.mem && s.device == Finish(d.(core := t.core, queue := t.queue))
    decreases |budgets|
  {
    if budgets != [] {
      var s := TickDevice(d, m, budgets[0]);
      var t := Drain(d.core, d.queue, m, budgets[0]);
      TickDeviceIs(d, m, budgets[0], s, t);
      TicksDeviceIs(s.device, s.mem, budgets[1..]);
      if t.queue == [] { NothingLeft(t.core, t.mem, budgets[1..]); }
    }
  }

  lemma {:induction false} NothingLeft(c: Core, m: Mem, budgets: seq<nat>)
    ensures Ticks(c, [], m, budgets) == Ticked(c, [], m, true)
    decreases |budgets|
  {
    if budgets != [] { NothingLeft(c, m, budgets[1..]); }
  }

  /** A vector descriptor handled softly and ticked until done leaves the device and memory exactly
      as if it had been executed on the spot. */
  lemma SoftNotifyRefinesSync(d: Device, m: Mem, desc: (u32, u32, u32, u32), w: Work, budgets: seq<nat>)
    requires d.queue == [] && d.pending && d.softAsync && d.descLen > 0
    requires ReadDescriptor(m, d.descAddr) == Some(desc) && IsVector(desc.0)
    requires w == Work(JobOf(desc, d.descLen), 0)
    requires var n := Notify(d, m); TicksDevice(n.device, n.mem, budgets).device.queue == []
    ensures var n := Notify(d, m);
      var soft, sync := TicksDevice(n.device, n.mem, budgets), Notify(d.(softAsync := false), m);
      n.ok && sync.ok && soft.mem == sync.mem && soft.device == sync.device.(softAsync := true)
  {
    var n := SoftQueues(d, m, desc, w);
    SyncRuns(d, m, desc, w);
    TicksDeviceIs(n, m, budgets);
    AsyncRefinesSync(d.core, [w], m, budgets);
    RunAllCons(d.core, m, w, []);
    assert [w] + [] == [w];
  }

  lemma SoftQueues(d: Device, m: Mem, desc: (u32, u32, u32, u32), w: Work) returns (n: Device)
    requires d.queue == [] && d.pending && d.softAsync && d.descLen > 0
    requires ReadDescriptor(m, d.descAddr) == Some(desc) && IsVector(desc.0) && w == Work(JobOf(desc, d.descLen), 0)
    ensures n == d.(pending := false, busy := true, doneFlag := false, queue := [w]) &&
      Notify(d, m) == Served(n, m, true)
  {
    n := d.(pending := false, busy := true, doneFlag := false, queue := [w]);
    assert d.queue + [w] == [w];
  }

  lemma EntryIsItem(c: Core, m: Mem, descAddr: nat, descLen: nat, desc: (u32, u32, u32, u32), w: Work)
    requires ReadDescriptor(m, descAddr) == Some(desc) && IsVector(desc.0) && w == Work(JobOf(desc, descLen), 0)
    requires descLen > 0
    ensures RunEntry(c, m, descAddr, descLen, 0) == RunItem(c, m, w)
  {
    assert descAddr + 0 * 16 == descAddr;
  }

  lemma FirstWord(m: Mem, descAddr: nat, desc: (u32, u32, u32, u32))
    requires ReadDescriptor(m, descAddr) == Some(desc)
    ensures ReadLE(m, descAddr, 4) == Some(desc.0)
  {
    assert Pow256(4) == 0x1_0000_0000;
  }

  lemma SyncRuns(d: Device, m: Mem, desc: (u32, u32, u32, u32), w: Work)
    requires d.queue == [] && d.pending && d.descLen > 0
    requires ReadDescriptor(m, d.descAddr) == Some(desc) && IsVector(desc.0) && w == Work(JobOf(desc, d.descLen), 0)
    ensures var r := RunItem(d.core, m, w);
      Notify(d.(softAsync := false), m) ==
        Served(Finish(d.(softAsync := false, pending := false, busy := true, doneFlag := false, core := r.core)),
               r.mem, true)
  {
    FirstWord(m, d.descAddr, desc);
    EntryIsItem(d.core, m, d.descAddr, d.descLen, desc, w);
    NotifyRunsEntry(d.(softAsync := false), m, desc.0, RunEntry(d.core, m, d.descAddr, d.descLen, 0));
  }

  lemma NotifyRunsEntry(d: Device, m: Mem, first: u32, r: Ran)
    requires d.pending && d.descLen > 0 && !d.softAsync && ReadLE(m, d.descAddr, 4) == Some(first) && IsVector(first)
    requires r == RunEntry(d.core, m, d.descAddr, d.descLen, 0)
    ensures Notify(d, m) ==
      Served(Finish(d.(pending := false, busy := true, doneFlag := false, core := r.core)), r.mem, true)
  {
  }
}
