/** The accelerator doorbell: work handed to an engine is accounted from the engine's own counters. */
module Doorbell {
  import opened Memory
  import Bits
  import opened SystemBus
  import opened LpuSampling
  import opened LpuSpec
  import opened LpuDevice
  import opened LpuMeaning
  import opened LpuCompletion

  const ENGINE_LPU: nat := 1
  const ENGINE_LAST: nat := 3

  datatype Status = Idle | Busy | Done | DoneWithErrors | Error

  /** Doorbell and root registers; the counters are 64-bit and wrap. */
  datatype Acc = Acc(status: Status, submits: u64, completes: u64, errors: u64, submitCount: u64, errorCount: u64)

  function Wrap64(x: nat): u64 { x % 0x1_0000_0000_0000_0000 }

  /** `after - before` in a 32-bit register. */
  function Delta(before: u32, after: u32): u32 { Wrap32(after + 0x1_0000_0000 - before) }

  datatype System = System(acc: Acc, engine: Engine, mem: Mem)

  function Started(a: Acc): Acc {
    a.(status := Busy, submits := Wrap64(a.submits + 1), submitCount := Wrap64(a.submitCount + 1))
  }

  function Rejected(a: Acc): Acc {
    a.(status := Error, errors := Wrap64(a.errors + 1), errorCount := Wrap64(a.errorCount + 1))
  }

  function Accounted(a: Acc, done: u32, errs: u32): Acc {
    a.(status := if errs > 0 then DoneWithErrors else Done, completes := Wrap64(a.completes + done),
       errors := Wrap64(a.errors + errs), errorCount := Wrap64(a.errorCount + errs))
  }

  /** One submit on a bus where only the language unit is attached.  The other engines' counters cannot
      be read, which ends the submit before anything is accounted. */
  function Submit(s: System, engine: nat, addr: nat, len: u32): System {
    var started := Started(s.acc);
    if engine > ENGINE_LAST then s.(acc := Rejected(started))
    else if engine != ENGINE_LPU then s.(acc := started)
    else Settled(s.engine, started, Entries(s.engine, s.mem, addr, len, 0))
  }

  /** The list has been run: account the differences of the unit's counters. */
  function Settled(before: Engine, started: Acc, r: Ran): System {
    System(Accounted(started, Delta(before.done, r.engine.done), Delta(before.errs, r.engine.errs)), r.engine, r.mem)
  }

  // ---- Conservation ----

  lemma DeltaExact(before: u32, n: nat)
    requires n < 0x1_0000_0000
    ensures Delta(before, Wrap32(before + n)) == n
  {
  }

  /** How many entries of the list a submit runs can be done when they are reached. */
  ghost function DoneBy(s: System, addr: nat, len: u32): nat { |Doables(s.engine, s.mem, addr, len)| }

  /** A submit to the language unit accounts each entry of its list once, as completed exactly if it can be done when
      it is reached, even when the unit's 32-bit counters wrap while it runs. */
  lemma SubmitAccounts(s: System, addr: nat, len: u32) returns (done: u32, errs: u32)
    ensures done == DoneBy(s, addr, len) && done + errs == len
    ensures Submit(s, ENGINE_LPU, addr, len).acc == Accounted(Started(s.acc), done, errs)
  {
    var r := Entries(s.engine, s.mem, addr, len, 0);
    done, errs := RunAccounts(s, addr, len, r);
    SubmitSettles(s, addr, len, r);
  }

  lemma RunAccounts(s: System, addr: nat, len: u32, r: Ran) returns (done: u32, errs: u32)
    requires r == Entries(s.engine, s.mem, addr, len, 0)
    ensures done == DoneBy(s, addr, len) && done + errs == len
    ensures Settled(s.engine, Started(s.acc), r).acc == Accounted(Started(s.acc), done, errs)
  {
    done, errs := EntriesDone(s, addr, len, r);
    SettledExactly(s.engine, Started(s.acc), r, done, errs);
  }

  lemma EntriesDone(s: System, addr: nat, len: u32, r: Ran) returns (done: u32, errs: u32)
    requires r == Entries(s.engine, s.mem, addr, len, 0)
    ensures done == DoneBy(s, addr, len) && done + errs == len
    ensures r.engine.done == Wrap32(s.engine.done + done) && r.engine.errs == Wrap32(s.engine.errs + errs)
  {
    var d := DoneBy(s, addr, len);
    ListDoneExactly(s.engine, s.mem, addr, len, r, d);
    done, errs := d, len - d;
  }

  lemma SubmitSettles(s: System, addr: nat, len: u32, r: Ran)
    requires r == Entries(s.engine, s.mem, addr, len, 0)
    ensures Submit(s, ENGINE_LPU, addr, len) == Settled(s.engine, Started(s.acc), r)
  {
  }

  lemma SettledExactly(before: Engine, started: Acc, r: Ran, d: nat, e: nat)
    requires d < 0x1_0000_0000 && e < 0x1_0000_0000
    requires r.engine.done == Wrap32(before.done + d) && r.engine.errs == Wrap32(before.errs + e)
    ensures Settled(before, started, r).acc == Accounted(started, d, e)
  {
    DeltaExact(before.done, d);
    DeltaExact(before.errs, e);
  }

  /** The registers after a submit of which `done` entries were completed and `errs` failed. */
  predicate Tells(a: Acc, a': Acc, status: Status, done: nat, errs: nat) {
    a'.status == status &&
    a'.submits == (a.submits + 1) % 0x1_0000_0000_0000_0000 &&
    a'.submitCount == (a.submitCount + 1) % 0x1_0000_0000_0000_0000 &&
    a'.completes == (a.completes + done) % 0x1_0000_0000_0000_0000 &&
    a'.errors == (a.errors + errs) % 0x1_0000_0000_0000_0000 &&
    a'.errorCount == (a.errorCount + errs) % 0x1_0000_0000_0000_0000
  }

  lemma AccountedTells(a: Acc, done: u32, errs: u32)
    ensures Tells(a, Accounted(Started(a), done, errs), if errs == 0 then Done else DoneWithErrors, done, errs)
  {
  }

  /** Main result: after a submit to engine 1 the registers tell how many entries could be done when they were reached
      and how many could not, and the status is DONE alone if and only if every entry could. */
  lemma SubmitTells(s: System, addr: nat, len: u32, done: nat)
    requires done == |Doables(s.engine, s.mem, addr, len)|
    ensures done <= len &&
      Tells(s.acc, Submit(s, 1, addr, len).acc, if done == len then Done else DoneWithErrors, done, len - done)
  {
    var d, errs := SubmitAccounts(s, addr, len);
    AccountedTells(s.acc, d, errs);
  }

  /** The same for a list that does not store over itself, by what memory says before the submit. */
  lemma SubmitTellsFromStart(s: System, addr: nat, len: u32, done: nat)
    requires LeavesItself(s.mem, addr, len) && done == |DoablesAtStart(s.mem, addr, len)|
    ensures done <= len &&
      Tells(s.acc, Submit(s, 1, addr, len).acc, if done == len then Done else DoneWithErrors, done, len - done)
  {
    StartDecides(s.engine, s.mem, addr, len);
    SubmitTells(s, addr, len, done);
  }

  /** Main result: a submit to any other engine touches neither the unit nor memory.  An engine beyond the last is one
      error with status ERROR; one that is not attached leaves BUSY and counts nothing but the submit. */
  lemma SubmitElsewhere(s: System, engine: nat, addr: nat, len: u32)
    requires engine != 1
    ensures var s' := Submit(s, engine, addr, len);
      s'.engine == s.engine && s'.mem == s.mem &&
      if engine > 3 then Tells(s.acc, s'.acc, Error, 0, 1) else Tells(s.acc, s'.acc, Busy, 0, 0)
  {
    SmallWrap(s.acc.completes);
    SmallWrap(s.acc.errors);
    SmallWrap(s.acc.errorCount);
  }

  /** What software and devices may do between submits is anything to the unit and to memory. */
  datatype Event = Ring(engine: nat, addr: nat, len: u32) | Meanwhile(engine': Engine, mem: Mem)

  function Step(s: System, e: Event): System {
    match e
    case Ring(engine, addr, len) => Submit(s, engine, addr, len)
    case Meanwhile(engine, m) => s.(engine := engine, mem := m)
  }

  function RunOf(s: System, es: seq<Event>): System
    decreases |es|
  {
    if es == [] then s else RunOf(Step(s, es[0]), es[1..])
  }

  /** What has to be accounted: the entries submitted to the unit, and one for every unknown engine. */
  function Due(es: seq<Event>): nat {
    if es == [] then 0
    else
      (match es[0]
       case Ring(engine, _, len) => if engine > ENGINE_LAST then 1 else if engine == ENGINE_LPU then len else 0
       case Meanwhile(_, _) => 0) + Due(es[1..])
  }

  /** What has to be accounted as completed: the entries that can be done when they are reached. */
  ghost function Completed(s: System, es: seq<Event>): nat
    decreases |es|
  {
    if es == [] then 0 else CompletedBy(s, es[0]) + Completed(Step(s, es[0]), es[1..])
  }

  ghost function CompletedBy(s: System, e: Event): nat {
    match e
    case Ring(engine, addr, len) => if engine == ENGINE_LPU then DoneBy(s, addr, len) else 0
    case Meanwhile(_, _) => 0
  }

  function Rings(es: seq<Event>): nat {
    if es == [] then 0 else (if es[0].Ring? then 1 else 0) + Rings(es[1..])
  }

  /** `a'` is `a` after `n` submits that completed `done` entries and failed `errs`. */
  predicate Advanced(a: Acc, a': Acc, n: nat, done: nat, errs: nat) {
    AdvancedBy(Wrap64, a, a', n, done, errs)
  }

  predicate AdvancedBy(wrap: nat -> u64, a: Acc, a': Acc, n: nat, done: nat, errs: nat) {
    a'.submits == wrap(a.submits + n) && a'.submitCount == wrap(a.submitCount + n) &&
    a'.completes == wrap(a.completes + done) &&
    a'.errors == wrap(a.errors + errs) && a'.errorCount == wrap(a.errorCount + errs)
  }

  predicate WrapsAt(wrap: nat -> u64, x: nat, k: nat) { wrap(wrap(x) + k) == wrap(x + k) }

  /** Wrapping twice is wrapping once. */
  ghost predicate Wraps(wrap: nat -> u64) { forall x: nat, k: nat :: WrapsAt(wrap, x, k) }

  lemma WrapOn(x: nat, k: nat)
    ensures WrapsAt(Wrap64, x, k)
  {
    Bits.WrapTwice(x, k, 0x1_0000_0000_0000_0000);
  }

  lemma Wrap64Wraps()
    ensures Wraps(Wrap64)
  {
    forall x: nat, k: nat
      ensures WrapsAt(Wrap64, x, k)
    {
      WrapOn(x, k);
    }
  }

  lemma AdvancedByOn(wrap: nat -> u64, a: Acc, a1: Acc, a2: Acc, n: nat, d: nat, e: nat, n': nat, d': nat, e': nat)
    requires Wraps(wrap) && AdvancedBy(wrap, a, a1, n, d, e) && AdvancedBy(wrap, a1, a2, n', d', e')
    ensures AdvancedBy(wrap, a, a2, n + n', d + d', e + e')
  {
    assert WrapsAt(wrap, a.submits + n, n') && WrapsAt(wrap, a.submitCount + n, n');
    assert WrapsAt(wrap, a.completes + d, d') && WrapsAt(wrap, a.errors + e, e') && WrapsAt(wrap, a.errorCount + e, e');
  }

  lemma AdvancedOn(a: Acc, a1: Acc, a2: Acc, n: nat, d: nat, e: nat, n': nat, d': nat, e': nat)
    requires Advanced(a, a1, n, d, e) && Advanced(a1, a2, n', d', e')
    ensures Advanced(a, a2, n + n', d + d', e + e')
  {
    Wrap64Wraps();
    AdvancedByOn(Wrap64, a, a1, a2, n, d, e, n', d', e');
  }

  lemma AccountedAdvances(a: Acc, done: u32, errs: u32)
    ensures Advanced(a, Accounted(Started(a), done, errs), 1, done, errs)
  {
  }

  lemma RejectedAdvances(a: Acc)
    ensures Advanced(a, Rejected(Started(a)), 1, 0, 1)
  {
    SmallWrap(a.completes);
  }

  lemma StartedAdvances(a: Acc)
    ensures Advanced(a, Started(a), 1, 0, 0)
  {
    SmallWrap(a.completes);
    SmallWrap(a.errors);
    SmallWrap(a.errorCount);
  }

  lemma NothingAdvances(a: Acc)
    ensures Advanced(a, a, 0, 0, 0)
  {
    SmallWrap(a.submits);
    SmallWrap(a.submitCount);
    SmallWrap(a.completes);
    SmallWrap(a.errors);
    SmallWrap(a.errorCount);
  }

  lemma SmallWrap(x: u64)
    ensures Wrap64(x) == x
  {
  }

  lemma StepAdvances(s: System, e: Event) returns (done: nat, errs: nat)
    ensures done == CompletedBy(s, e)
    ensures done + errs == Due([e]) && Advanced(s.acc, Step(s, e).acc, Rings([e]), done, errs)
  {
    done, errs := 0, 0;
    match e
    case Ring(engine, addr, len) =>
      if engine > ENGINE_LAST {
        errs := 1;
        RejectedAdvances(s.acc);
      } else if engine == ENGINE_LPU {
        done, errs := SubmitAccounts(s, addr, len);
        AccountedAdvances(s.acc, done, errs);
      } else {
        StartedAdvances(s.acc);
      }
    case Meanwhile(_, _) =>
      NothingAdvances(s.acc);
  }

  lemma DueFirst(es: seq<Event>)
    requires es != []
    ensures Due(es) == Due([es[0]]) + Due(es[1..]) && Rings(es) == Rings([es[0]]) + Rings(es[1..])
  {
    assert [es[0]][1..] == [];
  }

  lemma Together(es: seq<Event>, a: Acc, a1: Acc, a2: Acc, d: nat, e: nat, d': nat, e': nat, done: nat, errs: nat)
    requires es != [] && d + e == Due([es[0]]) && Advanced(a, a1, Rings([es[0]]), d, e)
    requires d' + e' == Due(es[1..]) && Advanced(a1, a2, Rings(es[1..]), d', e')
    requires done == d + d' && errs == e + e'
    ensures done + errs == Due(es) && Advanced(a, a2, Rings(es), done, errs)
  {
    DueFirst(es);
    AdvancedOn(a, a1, a2, Rings([es[0]]), d, e, Rings(es[1..]), d', e');
  }

  /** Main result: over any run of submits, whatever happens in between, completes and errors have grown
      by exactly the entries submitted to the unit plus one for each unknown engine, completes by those that could be
      done when they were reached. */
  lemma {:induction false} Conservation(s: System, es: seq<Event>, s': System) returns (done: nat, errs: nat)
    requires s' == RunOf(s, es)
    ensures done == Completed(s, es)
    ensures done + errs == Due(es) && Advanced(s.acc, s'.acc, Rings(es), done, errs)
    decreases |es|
  {
    if es == [] {
      done, errs := 0, 0;
      NothingAdvances(s.acc);
    } else {
      var s1, d, e := FirstStep(s, es, s');
      var d', e' := Conservation(s1, es[1..], s');
      done, errs := d + d', e + e';
      Together(es, s.acc, s1.acc, s'.acc, d, e, d', e', done, errs);
    }
  }

  lemma FirstStep(s: System, es: seq<Event>, s': System) returns (s1: System, done: nat, errs: nat)
    requires es != [] && s' == RunOf(s, es)
    ensures s1 == Step(s, es[0]) && s' == RunOf(s1, es[1..]) && done == CompletedBy(s, es[0])
    ensures done + errs == Due([es[0]]) && Advanced(s.acc, s1.acc, Rings([es[0]]), done, errs)
  {
    s1 := Step(s, es[0]);
    done, errs := StepAdvances(s, es[0]);
  }

  /** A submit to an engine that exists but is not attached is never settled: BUSY stays. */
  lemma StaysBusy(s: System, engine: nat, addr: nat, len: u32)
    ensures Submit(s, engine, addr, len).acc.status == Busy <==> engine <= ENGINE_LAST && engine != ENGINE_LPU
  {
  }

  /** The engine the last submit of a run named, if there was one. */
  function LastEngine(es: seq<Event>): (engine: Option<nat>) {
    if es == [] then None
    else
      var later := LastEngine(es[1..]);
      if later.Some? then later else if es[0].Ring? then Some(es[0].engine) else None
  }

  /** Main result: after any run BUSY is set if and only if the last submit named an engine that exists and
      is not attached; without a submit it is as it was. */
  lemma {:induction false} BusyAfter(s: System, es: seq<Event>, s': System)
    requires s' == RunOf(s, es)
    ensures s'.acc.status == Busy <==>
      match LastEngine(es)
      case None => s.acc.status == Busy
      case Some(engine) => engine <= ENGINE_LAST && engine != ENGINE_LPU
    decreases |es|
  {
    if es != [] {
      if es[0].Ring? { StaysBusy(s, es[0].engine, es[0].addr, es[0].len); }
      BusyAfter(Step(s, es[0]), es[1..], s');
    }
  }

  // ---- The bus side ----

  class AccBus {
    var acc: Acc
    const lpu: Lpu
    const bus: Bus

    ghost function State(): System
      reads this, lpu, bus
    {
      System(acc, lpu.engine, bus.mem)
    }

    constructor (l: Lpu, b: Bus)
      ensures lpu == l && bus == b && acc == Acc(Idle, 0, 0, 0, 0, 0)
    {
      lpu, bus := l, b;
      acc := Acc(Idle, 0, 0, 0, 0, 0);
    }

    method ReadEngineTaskCounters(engine: nat) returns (counters: Option<(u32, u32)>)
      ensures counters == if engine == ENGINE_LPU then Some((lpu.engine.done, lpu.engine.errs)) else None
    {
      if engine != ENGINE_LPU { return None; }
      return Some((lpu.engine.done, lpu.engine.errs));
    }

    /** The descriptor registers, then the notify register, which runs the list at once. */
    method Hand(addr: nat, len: u32)
      modifies lpu, bus
      ensures Entries(old(lpu.engine), old(bus.mem), addr, len, 0) == Ran(lpu.engine, bus.mem)
    {
      lpu.descAddr, lpu.descLen, lpu.pending := addr, len, true;
      lpu.ProcessPendingDescriptorNotify(bus);
    }

    method SubmitAccDoorbell(engine: nat, addr: nat, len: u32) returns (ok: bool)
      modifies this, lpu, bus
      ensures State() == Submit(old(State()), engine, addr, len) && ok == (engine == ENGINE_LPU)
    {
      acc := Started(acc);
      if engine > ENGINE_LAST {
        acc := Rejected(acc);
        return false;
      }
      var before := ReadEngineTaskCounters(engine);
      if before.None? { return false; }
      Hand(addr, len);
      var after := ReadEngineTaskCounters(engine);
      acc := Accounted(acc, Delta(before.value.0, after.value.0), Delta(before.value.1, after.value.1));
      return true;
    }
  }
}
