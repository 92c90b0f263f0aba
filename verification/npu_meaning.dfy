/** What the NPU leaves in memory, in terms of the descriptor words and operands as they stood there. */
module NpuMeaning {
  import opened Memory
  import opened NpuSpec
  import Bits

  /** Sum, product or signed or unsigned maximum, by opcode. */
  function Result(op: nat, x: nat, y: nat): nat {
    if op == 1 then x * y % 0x1_0000_0000
    else if op == 2 then (if x >= y then x else y)
    else if op == 3 then (if x < 0x8000_0000 then x else 0)
    else (x + y) % 0x1_0000_0000
  }

  /** The word at `a` is `v`. */
  predicate WordIs(m: Mem, a: int, v: nat) { ReadLE(m, a, 4) == Some(v) }

  lemma WordReadable(m: Mem, a: int) returns (v: nat)
    requires Readable(m, a, 4)
    ensures WordIs(m, a, v) && v < 0x1_0000_0000
  {
    LoadSucceeds(m, a);
    WordFits(m, a);
    v := ReadLE(m, a, 4).value;
  }

  lemma SameWord(x: u32)
    ensures Word32(x) == x
  {
  }

  lemma ProductIsResult(x: u32, y: u32)
    ensures Compute(1, x, y) == Result(1, x, y)
  {
    WrappingMulIs(x, y);
  }

  lemma OthersAreResult(op: nat, x: u32, y: u32)
    requires op != 1
    ensures Compute(op, x, y) == Result(op, x, y)
  {
  }

  lemma ComputeIsResult(op: nat, x: u32, y: u32) returns (v: u32)
    ensures v == Result(op, x, y) && v == Compute(op, Word32(x), Word32(y))
  {
    SameWord(x);
    SameWord(y);
    if op == 1 { ProductIsResult(x, y); } else { OthersAreResult(op, x, y); }
    v := Compute(op, x, y);
  }

  // ---- One element ----

  lemma WordStored(m: Mem, a: int, v: nat, m': Mem)
    requires Writable(m, a, 4) && v < 0x1_0000_0000 && m' == WriteLE(m, a, 4, v).mem
    ensures WriteLE(m, a, 4, v).ok && WordIs(m', a, v) && SameOutside(m, m', a, 4)
  {
    assert Pow256(4) == 0x1_0000_0000;
    StoreSucceeds(m, a, v);
    WriteLEThenRead(m, a, 4, v);
    WriteBlockSpec(m, a, ToLE(v, 4));
  }

  lemma WordKept(m: Mem, m': Mem, a: int, n: nat, b: int, v: nat)
    requires SameOutside(m, m', a, n) && Apart(a, n, b, 4) && WordIs(m, b, v)
    ensures WordIs(m', b, v)
  {
    ReadLEFrame(m, m', b, 4);
  }

  lemma ElementWrites(j: Job, m: Mem, i: nat, r: nat, x: nat, y: nat, v: nat)
    requires WordIs(m, j.a + i * 4, x) && WordIs(m, j.b + i * 4, y) && r == j.r + i * 4 && v == Result(j.opcode, x, y)
    ensures v < 0x1_0000_0000 && Element(j, m, i) == WriteLE(m, r, 4, v)
  {
    WordFits(m, j.a + i * 4);
    WordFits(m, j.b + i * 4);
    var w := ComputeIsResult(j.opcode, x, y);
    ElementIsStore(j, m, i, r, x, y, w);
  }

  lemma ElementIsStore(j: Job, m: Mem, i: nat, r: nat, x: nat, y: nat, w: nat)
    requires WordIs(m, j.a + i * 4, x) && WordIs(m, j.b + i * 4, y) && r == j.r + i * 4
    requires w == Compute(j.opcode, Word32(x), Word32(y))
    ensures Element(j, m, i) == WriteLE(m, r, 4, w)
  {
    ElementStores(j, m, i, r, x, y);
  }

  lemma ElementMeans(j: Job, m: Mem, i: nat, r: nat, x: nat, y: nat, v: nat) returns (e: Stored)
    requires WordIs(m, j.a + i * 4, x) && WordIs(m, j.b + i * 4, y) && r == j.r + i * 4 && Writable(m, r, 4)
    requires v == Result(j.opcode, x, y)
    ensures e == Element(j, m, i) && e.ok && WordIs(e.mem, r, v) && SameOutside(m, e.mem, r, 4)
  {
    e := Element(j, m, i);
    ElementWrites(j, m, i, r, x, y, v);
    WordStored(m, r, v, e.mem);
  }

  // ---- A vector ----

  /** Element `k` of the result is what the operands make at their places in `m`. */
  ghost predicate ElementIs(m: Mem, m': Mem, j: Job, k: nat) {
    var x, y := ReadLE(m, j.a + k * 4, 4), ReadLE(m, j.b + k * 4, 4);
    x.Some? && y.Some? && WordIs(m', j.r + k * 4, Result(j.opcode, x.value, y.value))
  }

  /** Storing forwards never overtakes the operand. */
  predicate Behind(r: int, a: int, n: nat) { r <= a || a + n <= r }

  /** The first `n` elements are mapped. */
  ghost predicate VectorMapped(m: Mem, j: Job, n: nat) {
    Readable(m, j.a, n * 4) && Readable(m, j.b, n * 4) && Writable(m, j.r, n * 4)
  }

  lemma MappedSame(m: Mem, m': Mem, j: Job, n: nat)
    requires VectorMapped(m, j, n) && SameRegions(m, m')
    ensures VectorMapped(m', j, n)
  {
    assert forall x :: (CanRead(m, x) <==> CanRead(m', x)) && (CanWrite(m, x) <==> CanWrite(m', x));
  }

  lemma ElementReads(m: Mem, j: Job, n: nat, i: nat) returns (x: nat, y: nat)
    requires VectorMapped(m, j, n) && i < n
    ensures WordIs(m, j.a + i * 4, x) && WordIs(m, j.b + i * 4, y) && Writable(m, j.r + i * 4, 4)
  {
    x := WordReadable(m, j.a + i * 4);
    y := WordReadable(m, j.b + i * 4);
  }

  /** No result among the first `n` overtakes an operand. */
  predicate InStep(j: Job, n: nat) { Aligned(j) && Behind(j.r, j.a, n * 4) && Behind(j.r, j.b, n * 4) }

  /** After element `i` the rest of the operands is as before. */
  lemma OperandsKept(m: Mem, m': Mem, j: Job, n: nat, i: nat, k: nat)
    requires VectorMapped(m, j, n) && SameOutside(m, m', j.r + i * 4, 4) && i < k < n && InStep(j, n)
    ensures ReadLE(m', j.a + k * 4, 4) == ReadLE(m, j.a + k * 4, 4)
    ensures ReadLE(m', j.b + k * 4, 4) == ReadLE(m, j.b + k * 4, 4)
  {
    ReadLEFrame(m, m', j.a + k * 4, 4);
    ReadLEFrame(m, m', j.b + k * 4, 4);
  }

  lemma SameTwice(m: Mem, m1: Mem, m2: Mem, a: int, n: nat, b: int, k: nat, c: int, l: nat)
    requires SameOutside(m, m1, a, n) && SameOutside(m1, m2, b, k)
    requires c <= a && a + n <= c + l && c <= b && b + k <= c + l
    ensures SameOutside(m, m2, c, l)
  {
  }

  /** Elements `i` up to `n` are as they should be, nothing else touched, a cycle counted for each. */
  ghost predicate RanTo(c: Core, m: Mem, j: Job, i: nat, n: nat, r: Ran) {
    i <= n && (forall k: nat :: i <= k < n ==> ElementIs(m, r.mem, j, k)) &&
    SameOutside(m, r.mem, j.r + i * 4, (n - i) * 4) && r.core == c.(cycles := (c.cycles + (n - i)) % 0x1_0000_0000)
  }

  lemma FirstElementStays(m: Mem, j: Job, n: nat, i: nat, x: nat, y: nat, m1: Mem, m2: Mem, v: nat)
    requires i < n && WordIs(m, j.a + i * 4, x) && WordIs(m, j.b + i * 4, y) && v == Result(j.opcode, x, y)
    requires WordIs(m1, j.r + i * 4, v) && SameOutside(m1, m2, j.r + (i + 1) * 4, (n - (i + 1)) * 4)
    ensures ElementIs(m, m2, j, i)
  {
    WordKept(m1, m2, j.r + (i + 1) * 4, (n - (i + 1)) * 4, j.r + i * 4, v);
  }

  lemma LaterElementIs(m: Mem, j: Job, n: nat, i: nat, m1: Mem, m2: Mem, k: nat)
    requires VectorMapped(m, j, n) && i < k < n && InStep(j, n) && SameOutside(m, m1, j.r + i * 4, 4)
    requires ElementIs(m1, m2, j, k)
    ensures ElementIs(m, m2, j, k)
  {
    OperandsKept(m, m1, j, n, i, k);
  }

  lemma CountOn(x: u32, n: nat)
    requires n > 0
    ensures (Inc(x) + (n - 1)) % 0x1_0000_0000 == (x + n) % 0x1_0000_0000
  {
  }

  lemma RanOneMore(c: Core, m: Mem, j: Job, n: nat, i: nat, x: nat, y: nat, m1: Mem, r: Ran, v: nat)
    requires VectorMapped(m, j, n) && i < n && InStep(j, n)
    requires WordIs(m, j.a + i * 4, x) && WordIs(m, j.b + i * 4, y) && v == Result(j.opcode, x, y)
    requires WordIs(m1, j.r + i * 4, v) && SameOutside(m, m1, j.r + i * 4, 4)
    requires RanTo(c.(cycles := Inc(c.cycles)), m1, j, i + 1, n, r)
    ensures RanTo(c, m, j, i, n, r)
  {
    forall k: nat | i <= k < n
      ensures ElementIs(m, r.mem, j, k)
    {
      if k == i {
        FirstElementStays(m, j, n, i, x, y, m1, r.mem, v);
      } else {
        LaterElementIs(m, j, n, i, m1, r.mem, k);
      }
    }
    SameTwice(m, m1, r.mem, j.r + i * 4, 4, j.r + (i + 1) * 4, (n - (i + 1)) * 4, j.r + i * 4, (n - i) * 4);
    CountOn(c.cycles, n - i);
  }

  /** The first `n` elements leave `r`, from where the rest goes on. */
  lemma {:induction false} RunTo(run: RunFunction, c: Core, m: Mem, j: Job, i: nat, n: nat) returns (r: Ran)
    requires IsRunFrom(run) && i <= n <= j.elems && VectorMapped(m, j, n) && InStep(j, n)
    ensures RanTo(c, m, j, i, n, r) && run(c, m, j, i) == run(r.core, r.mem, j, n)
    decreases n - i
  {
    r := Ran(c, m);
    if i < n {
      var x, y := ElementReads(m, j, n, i);
      var v := Result(j.opcode, x, y);
      var e := ElementMeans(j, m, i, j.r + i * 4, x, y, v);
      RunStep(run, c, m, j, i, e);
      MappedSame(m, e.mem, j, n);
      r := RunTo(run, c.(cycles := Inc(c.cycles)), e.mem, j, i + 1, n);
      RanOneMore(c, m, j, n, i, x, y, e.mem, r, v);
    }
  }

  // ---- Descriptors ----

  /** Four words: opcode, the two operands' addresses, the result's. */
  datatype Words = Words(op: u32, a: u32, b: u32, r: u32)

  predicate StandAt(m: Mem, base: nat, d: Words) {
    WordIs(m, base, d.op) && WordIs(m, base + 4, d.a) && WordIs(m, base + 8, d.b) && WordIs(m, base + 12, d.r)
  }

  lemma DescriptorIs(m: Mem, base: nat, d: Words)
    requires StandAt(m, base, d)
    ensures ReadDescriptor(m, base) == Some((d.op, d.a, d.b, d.r))
  {
    SameWord(d.op);
    SameWord(d.a);
    SameWord(d.b);
    SameWord(d.r);
  }

  lemma EntryIs(c: Core, m: Mem, list: nat, len: nat, i: nat, base: nat, d: Words)
    requires base == list + i * 16 && StandAt(m, base, d)
    ensures RunEntry(c, m, list, len, i) == RunDescriptor(c, m, (d.op, d.a, d.b, d.r), len)
  {
    DescriptorIs(m, base, d);
    EntryFetched(c, m, list, len, i, Some((d.op, d.a, d.b, d.r)));
  }

  // ---- A vector descriptor ----

  /** Bit 12 of the opcode asks for `len` elements; addresses are aligned, operands and results mapped, and no result
      overtakes an operand. */
  ghost predicate VectorReady(m: Mem, d: Words, len: nat) {
    d.op / 0x1000 % 2 == 1 && len > 0 && d.a % 4 == 0 && d.b % 4 == 0 && d.r % 4 == 0 &&
    Readable(m, d.a, len * 4) && Readable(m, d.b, len * 4) && Writable(m, d.r, len * 4) &&
    Behind(d.r, d.a, len * 4) && Behind(d.r, d.b, len * 4)
  }

  /** Word `i` of the result is made of words `i` of the operands as they were, and nothing else has changed. */
  ghost predicate VectorDone(m: Mem, m': Mem, d: Words, len: nat)
    requires d.op >= 0x1000
  {
    SameOutside(m, m', d.r, len * 4) &&
    forall i: nat :: i < len ==> VectorWordDone(m, m', d, i)
  }

  ghost predicate VectorWordDone(m: Mem, m': Mem, d: Words, i: nat)
    requires d.op >= 0x1000
  {
    var x, y := ReadLE(m, d.a + i * 4, 4), ReadLE(m, d.b + i * 4, 4);
    x.Some? && y.Some? && ReadLE(m', d.r + i * 4, 4) == Some(Result(d.op - 0x1000, x.value, y.value))
  }

  lemma WordsDone(m: Mem, m': Mem, d: Words, j: Job, n: nat)
    requires d.op >= 0x1000 && j == Job(d.op - 0x1000, d.a, d.b, d.r, j.elems)
    requires forall k: nat :: 0 <= k < n ==> ElementIs(m, m', j, k)
    ensures forall i: nat :: i < n ==> VectorWordDone(m, m', d, i)
  {
    forall i: nat | i < n
      ensures VectorWordDone(m, m', d, i)
    {
      assert ElementIs(m, m', j, i);
    }
  }

  lemma ItemIs(run: RunFunction, c: Core, m: Mem, d: Words, len: nat, j: Job)
    requires IsRunFrom(run) && d.op / 0x1000 % 2 == 1 && j == Job(d.op - 0x1000, d.a, d.b, d.r, len) && Aligned(j)
    ensures RunItem(c, m, Work(JobOf((d.op, d.a, d.b, d.r), len), 0)) == run(c, m, j, 0)
  {
    assert RunFrom(c, m, j, 0) == run(c, m, j, 0);
  }

  lemma VectorItemMeans(c: Core, m: Mem, d: Words, len: nat, r: Ran)
    requires VectorReady(m, d, len) && r == RunItem(c, m, Work(JobOf((d.op, d.a, d.b, d.r), len), 0))
    ensures VectorDone(m, r.mem, d, len)
    ensures r.core == c.(cycles := (c.cycles + len) % 0x1_0000_0000, done := (c.done + 1) % 0x1_0000_0000)
  {
    var run := RunFromAsValue();
    var j := Job(d.op - 0x1000, d.a, d.b, d.r, len);
    var r1 := RunTo(run, c, m, j, 0, len);
    ItemIs(run, c, m, d, len, j);
    RunEnd(run, r1.core, r1.mem, j);
    WordsDone(m, r1.mem, d, j, len);
  }

  lemma EntryIsRun(run: RunFunction, c: Core, m: Mem, base: nat, len: nat, d: Words, j: Job)
    requires IsRunFrom(run) && StandAt(m, base, d) && d.op / 0x1000 % 2 == 1 && len > 0
    requires j == Job(d.op - 0x1000, d.a, d.b, d.r, len) && Aligned(j)
    ensures RunEntry(c, m, base, len, 0) == run(c, m, j, 0)
  {
    EntryIs(c, m, base, len, 0, base, d);
    ItemIs(run, c, m, d, len, j);
  }

  lemma StopsAt(run: RunFunction, c: Core, m: Mem, d: Words, j: Job, k: nat, r: Ran)
    requires IsRunFrom(run) && d.op >= 0x1000 && j == Job(d.op - 0x1000, d.a, d.b, d.r, j.elems) && k < j.elems
    requires VectorMapped(m, j, k) && InStep(j, k) && r == run(c, m, j, 0)
    requires !(Readable(m, j.a + k * 4, 4) && Readable(m, j.b + k * 4, 4) && Writable(m, j.r + k * 4, 4))
    ensures SameOutside(m, r.mem, d.r, (k + 1) * 4) && (forall i: nat :: i < k ==> VectorWordDone(m, r.mem, d, i))
    ensures r.core == c.(cycles := (c.cycles + k) % 0x1_0000_0000, errs := (c.errs + 1) % 0x1_0000_0000)
  {
    var r1 := RunTo(run, c, m, j, 0, k);
    ElementStops(run, r1.core, m, r1.mem, j, k, r);
    WordsStay(m, r1.mem, r.mem, j, k);
    WordsDone(m, r.mem, d, j, k);
    SameTwice(m, r1.mem, r.mem, d.r, k * 4, d.r + k * 4, 4, d.r, (k + 1) * 4);
  }

  /** An element that is not mapped stops the entry: the words before it are done, only its own place may have been
      touched besides, and the entry counts as an error. */
  lemma VectorEntryStops(c: Core, m: Mem, base: nat, len: nat, d: Words, k: nat)
    requires StandAt(m, base, d) && k < len && d.op / 0x1000 % 2 == 1
    requires d.a % 4 == 0 && d.b % 4 == 0 && d.r % 4 == 0
    requires Readable(m, d.a, k * 4) && Readable(m, d.b, k * 4) && Writable(m, d.r, k * 4)
    requires !(Readable(m, d.a + k * 4, 4) && Readable(m, d.b + k * 4, 4) && Writable(m, d.r + k * 4, 4))
    requires Behind(d.r, d.a, k * 4) && Behind(d.r, d.b, k * 4)
    ensures var r := RunEntry(c, m, base, len, 0);
      SameOutside(m, r.mem, d.r, (k + 1) * 4) && (forall i: nat :: i < k ==> VectorWordDone(m, r.mem, d, i)) &&
      r.core == c.(cycles := (c.cycles + k) % 0x1_0000_0000, errs := (c.errs + 1) % 0x1_0000_0000)
  {
    var run := RunFromAsValue();
    var j := Job(d.op - 0x1000, d.a, d.b, d.r, len);
    EntryIsRun(run, c, m, base, len, d, j);
    StopsAt(run, c, m, d, j, k, run(c, m, j, 0));
  }

  /** A misaligned address is an error and nothing else. */
  lemma VectorEntryMisaligned(c: Core, m: Mem, base: nat, len: nat, d: Words)
    requires StandAt(m, base, d) && len > 0 && d.op / 0x1000 % 2 == 1
    requires d.a % 4 != 0 || d.b % 4 != 0 || d.r % 4 != 0
    ensures RunEntry(c, m, base, len, 0) == Ran(c.(errs := (c.errs + 1) % 0x1_0000_0000), m)
  {
    EntryIs(c, m, base, len, 0, base, d);
  }

  lemma ElementStops(run: RunFunction, c: Core, m: Mem, m1: Mem, j: Job, k: nat, r: Ran)
    requires IsRunFrom(run) && k < j.elems && SameRegions(m, m1) && r == run(c, m1, j, k)
    requires !(Readable(m, j.a + k * 4, 4) && Readable(m, j.b + k * 4, 4) && Writable(m, j.r + k * 4, 4))
    ensures SameOutside(m1, r.mem, j.r + k * 4, 4) && r.core == c.(errs := (c.errs + 1) % 0x1_0000_0000)
  {
    assert run(c, m1, j, k) == RunFrom(c, m1, j, k);
    ElementSucceeds(j, m, k);
    MappedElsewhere(j, m, m1, k);
    ElementSucceeds(j, m1, k);
    RunFromStep(c, m1, j, k, Element(j, m1, k));
    ElementTouches(j, m1, k);
  }

  lemma ElementTouches(j: Job, m: Mem, i: nat)
    ensures SameOutside(m, Element(j, m, i).mem, j.r + i * 4, 4)
  {
    var x, y := ReadLE(m, j.a + i * 4, 4), ReadLE(m, j.b + i * 4, 4);
    if x.Some? && y.Some? {
      var w := Compute(j.opcode, Word32(x.value), Word32(y.value));
      ElementIsStore(j, m, i, j.r + i * 4, x.value, y.value, w);
      StoreTouches(m, j.r + i * 4, w);
    }
  }

  lemma StoreTouches(m: Mem, r: nat, v: nat)
    ensures SameOutside(m, WriteLE(m, r, 4, v).mem, r, 4)
  {
    WriteBlockSpec(m, r, ToLE(v, 4));
  }

  lemma WordsStay(m: Mem, m1: Mem, m2: Mem, j: Job, k: nat)
    requires SameOutside(m1, m2, j.r + k * 4, 4) && forall i: nat :: 0 <= i < k ==> ElementIs(m, m1, j, i)
    ensures forall i: nat :: 0 <= i < k ==> ElementIs(m, m2, j, i)
  {
    forall i: nat | 0 <= i < k
      ensures ElementIs(m, m2, j, i)
    {
      assert ElementIs(m, m1, j, i);
      ReadLEFrame(m1, m2, j.r + i * 4, 4);
    }
  }

  /** Main result: a vector entry puts into each word of its result the sum, product or maximum of the words at the
      same place of its operands, touches nothing else, and counts as one done and `len` cycles. */
  lemma VectorEntryMeans(c: Core, m: Mem, base: nat, len: nat, d: Words)
    requires StandAt(m, base, d) && VectorReady(m, d, len)
    ensures var r := RunEntry(c, m, base, len, 0);
      VectorDone(m, r.mem, d, len) &&
      r.core == c.(cycles := (c.cycles + len) % 0x1_0000_0000, done := (c.done + 1) % 0x1_0000_0000)
  {
    EntryIs(c, m, base, len, 0, base, d);
    VectorItemMeans(c, m, d, len, RunEntry(c, m, base, len, 0));
  }

  /** The idle device after its work: counters as given, status bits settled. */
  function Settled(d: Device, core: Core): Device {
    d.(pending := false, busy := false, doneFlag := true, irq := d.irq || d.irqEnabled, core := core)
  }

  /** The counters after one vector item of `len` elements. */
  function Worked(c: Core, len: nat): Core {
    c.(cycles := (c.cycles + len) % 0x1_0000_0000, done := (c.done + 1) % 0x1_0000_0000)
  }

  lemma ImmediateSettles(d: Device, m: Mem, desc: (u32, u32, u32, u32), item: Work, r: Ran)
    requires d.queue == [] && d.pending && !d.softAsync && d.descLen > 0
    requires ReadDescriptor(m, d.descAddr) == Some(desc) && IsVector(desc.0)
    requires item == Work(JobOf(desc, d.descLen), 0) && r == RunItem(d.core, m, item)
    ensures Notify(d, m) == Served(Settled(d, r.core), r.mem, true)
  {
    SyncRuns(d, m, desc, item);
    assert d.(softAsync := false) == d;
  }

  lemma QueuedSettles(d: Device, m: Mem, desc: (u32, u32, u32, u32), item: Work, budgets: seq<nat>, r: Ran, n: Served)
    requires d.queue == [] && d.pending && d.softAsync && d.descLen > 0
    requires ReadDescriptor(m, d.descAddr) == Some(desc) && IsVector(desc.0)
    requires item == Work(JobOf(desc, d.descLen), 0) && r == RunItem(d.core, m, item)
    requires n == Notify(d, m) && TicksDevice(n.device, n.mem, budgets).device.queue == []
    ensures n.ok
    ensures var s := TicksDevice(n.device, n.mem, budgets); s.mem == r.mem && s.device == Settled(d, r.core)
  {
    SoftNotifyRefinesSync(d, m, desc, item, budgets);
    ImmediateSettles(d.(softAsync := false), m, desc, item, r);
  }

  lemma NotifySettles(d: Device, m: Mem, desc: (u32, u32, u32, u32), item: Work, budgets: seq<nat>, r: Ran, n: Served,
                      s: Served)
    requires d.queue == [] && d.pending && d.descLen > 0
    requires ReadDescriptor(m, d.descAddr) == Some(desc) && IsVector(desc.0)
    requires item == Work(JobOf(desc, d.descLen), 0) && r == RunItem(d.core, m, item) && n == Notify(d, m)
    requires s == (if d.softAsync then TicksDevice(n.device, n.mem, budgets) else n) && s.device.queue == []
    ensures n.ok && s.mem == r.mem && s.device == Settled(d, r.core)
  {
    if d.softAsync { QueuedSettles(d, m, desc, item, budgets, r, n); } else { ImmediateSettles(d, m, desc, item, r); }
  }

  // The run of an item as a value, to carry it without its definition.

  type ItemFunction = (Core, Mem, Work) -> Ran

  ghost predicate IsRunItem(f: ItemFunction) {
    forall c, m, w {:trigger RunItem(c, m, w)} :: f(c, m, w) == RunItem(c, m, w)
  }

  lemma RunItemAsValue() returns (f: ItemFunction)
    ensures IsRunItem(f)
  {
    f := RunItem;
  }

  lemma VectorSettles(f: ItemFunction, d: Device, m: Mem, w: Words, budgets: seq<nat>, n: Served, s: Served, item: Work)
    requires IsRunItem(f) && d.queue == [] && d.pending && StandAt(m, d.descAddr, w) && w.op / 0x1000 % 2 == 1
    requires d.descLen > 0 && item == Work(JobOf((w.op, w.a, w.b, w.r), d.descLen), 0) && n == Notify(d, m)
    requires s == (if d.softAsync then TicksDevice(n.device, n.mem, budgets) else n) && s.device.queue == []
    ensures n.ok && s == Served(Settled(d, f(d.core, m, item).core), f(d.core, m, item).mem, s.ok)
  {
    var r := RunItem(d.core, m, item);
    DescriptorIs(m, d.descAddr, w);
    NotifySettles(d, m, (w.op, w.a, w.b, w.r), item, budgets, r, n, s);
  }

  lemma VectorItemDone(f: ItemFunction, c: Core, m: Mem, d: Words, len: nat, item: Work)
    requires IsRunItem(f) && VectorReady(m, d, len) && item == Work(JobOf((d.op, d.a, d.b, d.r), len), 0)
    ensures VectorDone(m, f(c, m, item).mem, d, len)
    ensures f(c, m, item).core == Worked(c, len)
  {
    VectorItemMeans(c, m, d, len, RunItem(c, m, item));
  }

  /** Main result: a vector descriptor handed in to an idle device has that effect, whether it is carried out at once
      or queued and ticked until the queue is empty; the device ends idle, done, and with its interrupt if enabled. */
  lemma VectorNotifyMeans(d: Device, m: Mem, w: Words, budgets: seq<nat>, n: Served, s: Served)
    requires d.queue == [] && d.pending && StandAt(m, d.descAddr, w) && VectorReady(m, w, d.descLen)
    requires n == Notify(d, m)
    requires s == (if d.softAsync then TicksDevice(n.device, n.mem, budgets) else n) && s.device.queue == []
    ensures n.ok && VectorDone(m, s.mem, w, d.descLen)
    ensures s.device == Settled(d, Worked(d.core, d.descLen))
  {
    var f := RunItemAsValue();
    var item := Work(JobOf((w.op, w.a, w.b, w.r), d.descLen), 0);
    VectorSettles(f, d, m, w, budgets, n, s, item);
    VectorItemDone(f, d.core, m, w, d.descLen, item);
  }

  // ---- Scalar descriptors ----

  ghost predicate ScalarReady(m: Mem, d: Words) {
    d.op / 0x1000 % 2 == 0 && Readable(m, d.a, 4) && Readable(m, d.b, 4) && Writable(m, d.r, 4)
  }

  lemma ScalarRuns(c: Core, m: Mem, d: Words, x: nat, y: nat, v: nat, r: Ran)
    requires WordIs(m, d.a, x) && WordIs(m, d.b, y) && Writable(m, d.r, 4)
    requires v == Result(d.op, x, y) && r == RunScalar(c, m, d.op, d.a, d.b, d.r)
    ensures WordIs(r.mem, d.r, v) && SameOutside(m, r.mem, d.r, 4)
    ensures r.core == c.(opcode := d.op, opA := x, opB := y, result := v, cycles := (c.cycles + 1) % 0x1_0000_0000,
                         done := (c.done + 1) % 0x1_0000_0000)
  {
    WordFits(m, d.a);
    WordFits(m, d.b);
    var w := ComputeIsResult(d.op, x, y);
    SameWord(x);
    SameWord(y);
    WordStored(m, d.r, w, WriteLE(m, d.r, 4, w).mem);
  }

  /** Main result: a scalar entry puts the result of the words its operands point to where its fourth word says, and
      touches nothing else of memory. */
  lemma ScalarEntryMeans(c: Core, m: Mem, list: nat, len: nat, i: nat, d: Words, x: nat, y: nat)
    requires StandAt(m, list + i * 16, d) && ScalarReady(m, d) && WordIs(m, d.a, x) && WordIs(m, d.b, y)
    ensures var r, v := RunEntry(c, m, list, len, i), Result(d.op, x, y);
      v < 0x1_0000_0000 && WordIs(r.mem, d.r, v) && SameOutside(m, r.mem, d.r, 4) &&
      r.core == c.(opcode := d.op, opA := x, opB := y, result := v, cycles := (c.cycles + 1) % 0x1_0000_0000,
                   done := (c.done + 1) % 0x1_0000_0000)
  {
    WordFits(m, d.a);
    WordFits(m, d.b);
    var v := ComputeIsResult(d.op, x, y);
    EntryIs(c, m, list, len, i, list + i * 16, d);
    ScalarRuns(c, m, d, x, y, v, RunScalar(c, m, d.op, d.a, d.b, d.r));
  }

  // ---- Lists of scalar descriptors ----

  /** The list stands at `list`, sixteen bytes to an entry, from entry `i` on. */
  ghost predicate ListFrom(m: Mem, list: nat, ds: seq<Words>, i: nat) {
    forall k: nat :: i <= k < |ds| ==> StandAt(m, list + k * 16, ds[k]) && ScalarReady(m, ds[k])
  }

  /** An earlier result touches no later entry, operand or result. */
  predicate Independent(list: nat, ds: seq<Words>, i: nat, k: nat)
    requires i < |ds| && k < |ds|
  {
    Apart(ds[i].r, 4, list + k * 16, 16) && Apart(ds[i].r, 4, ds[k].a, 4) && Apart(ds[i].r, 4, ds[k].b, 4) &&
    Apart(ds[i].r, 4, ds[k].r, 4)
  }

  ghost predicate AllIndependent(list: nat, ds: seq<Words>) {
    forall i: nat, k: nat :: i < k < |ds| ==> Independent(list, ds, i, k)
  }

  /** The result of one entry, from its operands in `m`. */
  ghost predicate ScalarDone(m: Mem, m': Mem, d: Words) {
    var x, y := ReadLE(m, d.a, 4), ReadLE(m, d.b, 4);
    x.Some? && y.Some? && WordIs(m', d.r, Result(d.op, x.value, y.value))
  }

  lemma EntryKept(m: Mem, m': Mem, list: nat, ds: seq<Words>, i: nat, k: nat)
    requires i < |ds| && k < |ds| && Independent(list, ds, i, k) && SameOutside(m, m', ds[i].r, 4)
    requires StandAt(m, list + k * 16, ds[k]) && ScalarReady(m, ds[k])
    ensures StandAt(m', list + k * 16, ds[k]) && ScalarReady(m', ds[k])
    ensures ReadLE(m', ds[k].a, 4) == ReadLE(m, ds[k].a, 4) && ReadLE(m', ds[k].b, 4) == ReadLE(m, ds[k].b, 4)
  {
    var at, r := list + k * 16, ds[i].r;
    WordKept(m, m', r, 4, at, ds[k].op);
    WordKept(m, m', r, 4, at + 4, ds[k].a);
    WordKept(m, m', r, 4, at + 8, ds[k].b);
    WordKept(m, m', r, 4, at + 12, ds[k].r);
    ReadLEFrame(m, m', ds[k].a, 4);
    ReadLEFrame(m, m', ds[k].b, 4);
    assert forall x :: (CanRead(m, x) <==> CanRead(m', x)) && (CanWrite(m, x) <==> CanWrite(m', x));
  }

  /** The entries from `i` on are done, and what they do not store is as before. */
  ghost predicate ListDone(m: Mem, m': Mem, ds: seq<Words>, i: nat) {
    SameRegions(m, m') && (forall k: nat :: i <= k < |ds| ==> ScalarDone(m, m', ds[k])) &&
    forall x :: x in m.bytes && (forall k: nat :: i <= k < |ds| ==> !(ds[k].r <= x < ds[k].r + 4)) ==>
      m'.bytes[x] == m.bytes[x]
  }

  lemma ListOneMore(m: Mem, m1: Mem, m2: Mem, list: nat, ds: seq<Words>, i: nat)
    requires i < |ds| && AllIndependent(list, ds) && ListFrom(m, list, ds, i)
    requires ScalarDone(m, m1, ds[i]) && SameOutside(m, m1, ds[i].r, 4) && ListDone(m1, m2, ds, i + 1)
    ensures ListDone(m, m2, ds, i)
  {
    var v := ReadLE(m1, ds[i].r, 4).value;
    forall k: nat | i <= k < |ds|
      ensures ScalarDone(m, m2, ds[k])
    {
      if k == i {
        FirstResultStays(m1, m2, list, ds, i, v);
      } else {
        assert Independent(list, ds, i, k) && ScalarDone(m1, m2, ds[k]);
        EntryKept(m, m1, list, ds, i, k);
      }
    }
    forall x | x in m.bytes && (forall k: nat :: i <= k < |ds| ==> !(ds[k].r <= x < ds[k].r + 4))
      ensures m2.bytes[x] == m.bytes[x]
    {
      assert !(ds[i].r <= x < ds[i].r + 4);
    }
  }

  lemma FirstResultStays(m1: Mem, m2: Mem, list: nat, ds: seq<Words>, i: nat, v: nat)
    requires i < |ds| && AllIndependent(list, ds) && WordIs(m1, ds[i].r, v) && ListDone(m1, m2, ds, i + 1)
    ensures WordIs(m2, ds[i].r, v)
  {
    forall x | ds[i].r <= x < ds[i].r + 4 && x in m1.bytes
      ensures x in m2.bytes && m2.bytes[x] == m1.bytes[x]
    {
      forall k: nat | i + 1 <= k < |ds|
        ensures !(ds[k].r <= x < ds[k].r + 4)
      {
        assert Independent(list, ds, i, k);
      }
    }
    ReadLEFrame(m1, m2, ds[i].r, 4);
  }

  lemma ListKept(m: Mem, m1: Mem, list: nat, ds: seq<Words>, i: nat)
    requires i < |ds| && AllIndependent(list, ds) && ListFrom(m, list, ds, i) && SameOutside(m, m1, ds[i].r, 4)
    ensures ListFrom(m1, list, ds, i + 1)
  {
    forall k: nat | i + 1 <= k < |ds|
      ensures StandAt(m1, list + k * 16, ds[k]) && ScalarReady(m1, ds[k])
    {
      assert Independent(list, ds, i, k);
      EntryKept(m, m1, list, ds, i, k);
    }
  }

  /** `n` entries done, a cycle each, no error, in registers that wrap. */
  predicate CountedBy(wrap: nat -> u32, c: Core, c': Core, n: nat) {
    c'.cycles == wrap(c.cycles + n) && c'.done == wrap(c.done + n) && c'.errs == c.errs
  }

  predicate WrapsAt(wrap: nat -> u32, x: nat, k: nat) { wrap(wrap(x) + k) == wrap(x + k) }

  ghost predicate Wraps(wrap: nat -> u32) {
    (forall x: u32 :: wrap(x) == x) && forall x: nat, k: nat :: WrapsAt(wrap, x, k)
  }

  lemma WordsWrap()
    ensures Wraps(Word32)
  {
    forall x: nat, k: nat
      ensures WrapsAt(Word32, x, k)
    {
      WordWraps(x, k);
    }
    forall x: u32
      ensures Word32(x) == x
    {
      SameWord(x);
    }
  }

  lemma WordWraps(x: nat, k: nat)
    ensures WrapsAt(Word32, x, k)
  {
    Bits.WrapTwice(x, k, 0x1_0000_0000);
  }

  lemma CountedOn(wrap: nat -> u32, c: Core, c1: Core, c2: Core, n: nat)
    requires Wraps(wrap) && n > 0 && CountedBy(wrap, c, c1, 1) && CountedBy(wrap, c1, c2, n - 1)
    ensures CountedBy(wrap, c, c2, n)
  {
    assert WrapsAt(wrap, c.cycles + 1, n - 1) && WrapsAt(wrap, c.done + 1, n - 1);
  }

  // The run of a list as a value.

  type ListFunction = (Core, Mem, nat) -> Ran

  ghost predicate IsRunList(f: ListFunction, list: nat, n: nat) {
    forall c, m, i: nat {:trigger RunEntries(c, m, list, n, i)} :: i <= n ==> f(c, m, i) == RunEntries(c, m, list, n, i)
  }

  lemma ListStep(f: ListFunction, c: Core, m: Mem, list: nat, n: nat, i: nat, r: Ran)
    requires IsRunList(f, list, n) && i < n && r == RunEntry(c, m, list, n, i)
    ensures f(c, m, i) == f(r.core, r.mem, i + 1)
  {
    assert f(c, m, i) == RunEntries(c, m, list, n, i);
    assert f(r.core, r.mem, i + 1) == RunEntries(r.core, r.mem, list, n, i + 1);
  }

  lemma ListEnd(f: ListFunction, c: Core, m: Mem, list: nat, n: nat)
    requires IsRunList(f, list, n)
    ensures f(c, m, n) == Ran(c, m)
  {
    assert f(c, m, n) == RunEntries(c, m, list, n, n);
  }

  lemma EntryRun(wrap: nat -> u32, c: Core, m: Mem, list: nat, ds: seq<Words>, i: nat) returns (r: Ran)
    requires wrap == Word32 && i < |ds| && ListFrom(m, list, ds, i)
    ensures r == RunEntry(c, m, list, |ds|, i) && ScalarDone(m, r.mem, ds[i]) && SameOutside(m, r.mem, ds[i].r, 4)
    ensures CountedBy(wrap, c, r.core, 1)
  {
    var d := ds[i];
    assert StandAt(m, list + i * 16, d) && ScalarReady(m, d);
    var x := WordReadable(m, d.a);
    var y := WordReadable(m, d.b);
    r := RunEntry(c, m, list, |ds|, i);
    ScalarEntryMeans(c, m, list, |ds|, i, d, x, y);
    CountsOne(wrap, c, r.core);
  }

  lemma CountsOne(wrap: nat -> u32, c: Core, c': Core)
    requires wrap == Word32 && c'.errs == c.errs
    requires c'.cycles == (c.cycles + 1) % 0x1_0000_0000 && c'.done == (c.done + 1) % 0x1_0000_0000
    ensures CountedBy(wrap, c, c', 1)
  {
    assert wrap(c.cycles + 1) == Word32(c.cycles + 1) && wrap(c.done + 1) == Word32(c.done + 1);
  }

  lemma EntryRunOn(wrap: nat -> u32, f: ListFunction, c: Core, m: Mem, list: nat, ds: seq<Words>, i: nat)
      returns (r: Ran)
    requires wrap == Word32 && IsRunList(f, list, |ds|) && i < |ds|
    requires AllIndependent(list, ds) && ListFrom(m, list, ds, i)
    ensures f(c, m, i) == f(r.core, r.mem, i + 1) && ListFrom(r.mem, list, ds, i + 1)
    ensures ScalarDone(m, r.mem, ds[i]) && SameOutside(m, r.mem, ds[i].r, 4) && CountedBy(wrap, c, r.core, 1)
  {
    r := EntryRun(wrap, c, m, list, ds, i);
    ListStep(f, c, m, list, |ds|, i, r);
    ListKept(m, r.mem, list, ds, i);
  }

  lemma {:induction false} ListRuns(f: ListFunction, c: Core, m: Mem, list: nat, ds: seq<Words>, i: nat, r: Ran)
    requires IsRunList(f, list, |ds|) && i <= |ds| && r == f(c, m, i)
    requires AllIndependent(list, ds) && ListFrom(m, list, ds, i)
    ensures ListDone(m, r.mem, ds, i)
    decreases |ds| - i
  {
    if i == |ds| {
      ListEnd(f, c, m, list, |ds|);
    } else {
      var r1 := EntryRunOn(Word32, f, c, m, list, ds, i);
      ListRuns(f, r1.core, r1.mem, list, ds, i + 1, r);
      ListOneMore(m, r1.mem, r.mem, list, ds, i);
    }
  }

  lemma {:induction false} ListCounts(wrap: nat -> u32, f: ListFunction, c: Core, m: Mem, list: nat, ds: seq<Words>,
                                      i: nat, n: nat, r: Ran)
    requires wrap == Word32 && Wraps(wrap) && IsRunList(f, list, |ds|) && i + n == |ds| && r == f(c, m, i)
    requires AllIndependent(list, ds) && ListFrom(m, list, ds, i)
    ensures CountedBy(wrap, c, r.core, n)
    decreases n
  {
    if n == 0 {
      ListEnd(f, c, m, list, |ds|);
    } else {
      var r1 := EntryRunOn(wrap, f, c, m, list, ds, i);
      ListCounts(wrap, f, r1.core, r1.mem, list, ds, i + 1, n - 1, r);
      CountedOn(wrap, c, r1.core, r.core, n);
    }
  }

  lemma RunListAsValue(list: nat, n: nat) returns (f: ListFunction)
    ensures IsRunList(f, list, n)
  {
    f := (c: Core, m: Mem, i: nat) => if i <= n then RunEntries(c, m, list, n, i) else Ran(c, m);
  }

  /** Each entry's result is in place, nothing else is touched, and all entries count as done. */
  ghost predicate ListRan(c: Core, m: Mem, ds: seq<Words>, c': Core, m': Mem) {
    ListDone(m, m', ds, 0) && c'.errs == c.errs &&
    c'.cycles == (c.cycles + |ds|) % 0x1_0000_0000 && c'.done == (c.done + |ds|) % 0x1_0000_0000
  }

  /** Main result: of a list of scalar entries whose earlier results leave the later entries alone, each puts the
      result of its operands as they stood at the start where its fourth word says, nothing else is touched, and all
      count as done. */
  lemma ScalarListMeans(c: Core, m: Mem, list: nat, ds: seq<Words>, r: Ran)
    requires AllIndependent(list, ds) && ListFrom(m, list, ds, 0) && r == RunEntries(c, m, list, |ds|, 0)
    ensures ListRan(c, m, ds, r.core, r.mem)
  {
    var f := RunListAsValue(list, |ds|);
    WordsWrap();
    assert f(c, m, 0) == r;
    ListRuns(f, c, m, list, ds, 0, r);
    ListCounts(Word32, f, c, m, list, ds, 0, |ds|, r);
  }

  lemma ScalarNotifyIs(d: Device, m: Mem, op: u32, n: Served, r: Ran)
    requires d.pending && d.descLen > 0 && d.queue == [] && WordIs(m, d.descAddr, op) && op / 0x1000 % 2 == 0
    requires n == Notify(d, m) && r == RunEntries(d.core, m, d.descAddr, d.descLen, 0)
    ensures n.ok && n.mem == r.mem && n.device.core == r.core && n.device == Settled(d, n.device.core)
  {
  }

  /** Main result: handing such a list to an idle device has that effect at once. */
  lemma ScalarNotifyMeans(d: Device, m: Mem, ds: seq<Words>, n: Served)
    requires d.pending && d.queue == [] && 0 < |ds| == d.descLen && n == Notify(d, m)
    requires AllIndependent(d.descAddr, ds) && ListFrom(m, d.descAddr, ds, 0)
    ensures n.ok && ListRan(d.core, m, ds, n.device.core, n.mem) && n.device == Settled(d, n.device.core)
  {
    var r := RunEntries(d.core, m, d.descAddr, |ds|, 0);
    FirstStands(m, d.descAddr, ds);
    ScalarNotifyIs(d, m, ds[0].op, n, r);
    ScalarListMeans(d.core, m, d.descAddr, ds, r);
  }

  lemma FirstStands(m: Mem, list: nat, ds: seq<Words>)
    requires 0 < |ds| && ListFrom(m, list, ds, 0)
    ensures WordIs(m, list, ds[0].op) && ds[0].op / 0x1000 % 2 == 0
  {
    assert StandAt(m, list + 0 * 16, ds[0]) && ScalarReady(m, ds[0]);
  }
}
