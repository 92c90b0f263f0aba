/** The set-associative cache in front of the bus, as a state machine on values.

    Every function takes the cache contents and the memory and returns both, because a bus error
    can strike half way: the state reached by then is part of the result.  Set count and
    associativity are arbitrary positive numbers; the source admits powers of two only and writes
    the divisions below as shifts and masks.
 */
module CacheSpec {
  import opened Memory

  const LINE_SIZE: nat := 16

  datatype CacheType = Instruction | Data
  datatype WritePolicy = WriteThrough | WriteBack
  datatype WriteAllocatePolicy = WriteAllocate | NoWriteAllocate

  datatype Config = Config(
    cacheType: CacheType, writePolicy: WritePolicy, writeAllocate: WriteAllocatePolicy,
    setCount: nat, ways: nat)
  {
    predicate Valid() { setCount > 0 && ways > 0 }

    /** Whether stores mark their line dirty, and so whether dirty lines are written back. */
    predicate TracksDirty() { cacheType.Data? && writePolicy.WriteBack? }
  }

  datatype CacheLine = CacheLine(valid: bool, dirty: bool, tag: nat, data: seq<byte>)

  datatype Stats = Stats(
    hits: nat, misses: nat, readHits: nat, readMisses: nat, writeHits: nat, writeMisses: nat,
    evictions: nat, writebacks: nat)

  datatype Contents = Contents(sets: seq<seq<CacheLine>>, nextVictim: seq<nat>, stats: Stats)

  const ZEROS: seq<byte> := [0, 0, 0, 0, 0, 0, 0, 0, 0, 0, 0, 0, 0, 0, 0, 0]
  const EMPTY_LINE := CacheLine(false, false, 0, ZEROS)
  const NO_STATS := Stats(0, 0, 0, 0, 0, 0, 0, 0)

  function Empty(g: Config): Contents {
    Contents(seq(g.setCount, _ => seq(g.ways, _ => EMPTY_LINE)), seq(g.setCount, _ => 0), NO_STATS)
  }

  ghost predicate Shaped(g: Config, c: Contents) {
    g.Valid() && |c.sets| == |c.nextVictim| == g.setCount &&
    (forall s :: 0 <= s < g.setCount ==> |c.sets[s]| == g.ways && c.nextVictim[s] < g.ways) &&
    (forall s, w :: 0 <= s < g.setCount && 0 <= w < g.ways ==> |c.sets[s][w].data| == LINE_SIZE)
  }

  // ---- Address arithmetic ----

  function SetIndex(g: Config, a: u32): (s: nat)
    requires g.Valid()
    ensures s < g.setCount
  {
    (a / LINE_SIZE) % g.setCount
  }

  function TagOf(g: Config, a: u32): nat
    requires g.Valid()
  {
    (a / LINE_SIZE) / g.setCount
  }

  function LineOffset(a: u32): (o: nat)
    ensures o < LINE_SIZE
  {
    a % LINE_SIZE
  }

  function LineBase(a: u32): u32 {
    a - a % LINE_SIZE
  }

  function LineBaseFromSetTag(g: Config, s: nat, tag: nat): nat {
    (tag * g.setCount + s) * LINE_SIZE
  }

  /** Address `a` belongs to the line that set `s` stores under `tag`. */
  predicate InLine(g: Config, s: nat, tag: nat, a: int)
    requires g.Valid()
  {
    0 <= a < 0x1_0000_0000 && SetIndex(g, a) == s && TagOf(g, a) == tag
  }

  // ---- Searching one set ----

  function FindFrom(lines: seq<CacheLine>, tag: nat, i: nat): (r: Option<nat>)
    requires i <= |lines|
    ensures r.Some? ==> i <= r.value < |lines| && lines[r.value].valid && lines[r.value].tag == tag
    ensures forall j :: i <= j < (if r.Some? then r.value else |lines|) ==>
      !(lines[j].valid && lines[j].tag == tag)
    decreases |lines| - i
  {
    if i == |lines| then None
    else if lines[i].valid && lines[i].tag == tag then Some(i)
    else FindFrom(lines, tag, i + 1)
  }

  function FindWay(lines: seq<CacheLine>, tag: nat): (r: Option<nat>)
    ensures r.Some? ==> r.value < |lines| && lines[r.value].valid && lines[r.value].tag == tag
    ensures forall j :: 0 <= j < (if r.Some? then r.value else |lines|) ==>
      !(lines[j].valid && lines[j].tag == tag)
  {
    FindFrom(lines, tag, 0)
  }

  function InvalidFrom(lines: seq<CacheLine>, i: nat): (r: Option<nat>)
    requires i <= |lines|
    ensures r.Some? ==> i <= r.value < |lines| && !lines[r.value].valid
    ensures forall j :: i <= j < (if r.Some? then r.value else |lines|) ==> lines[j].valid
    decreases |lines| - i
  {
    if i == |lines| then None
    else if !lines[i].valid then Some(i)
    else InvalidFrom(lines, i + 1)
  }

  /** An invalid way first; once the set is full, round robin. */
  function ChooseVictim(lines: seq<CacheLine>, next: nat): (r: (nat, nat))
    requires next < |lines|
    ensures r.0 < |lines| && r.1 < |lines|
  {
    match InvalidFrom(lines, 0)
    case Some(way) => (way, next)
    case None => (next, (next + 1) % |lines|)
  }

  // ---- Operations ----

  datatype Step<+T> = Step(cache: Contents, mem: Mem, out: Option<T>)

  function WithLine(c: Contents, s: nat, w: nat, line: CacheLine): Contents
    requires s < |c.sets| && w < |c.sets[s]|
  {
    c.(sets := c.sets[s := c.sets[s][w := line]])
  }

  function WriteBackLine(g: Config, c: Contents, m: Mem, s: nat, w: nat): (r: Step<()>)
    requires Shaped(g, c) && s < g.setCount && w < g.ways
    ensures Shaped(g, r.cache) && SameRegions(m, r.mem)
  {
    var line := c.sets[s][w];
    if !(line.valid && line.dirty && g.TracksDirty()) then Step(c, m, Some(()))
    else
      var out := WriteBlock(m, LineBaseFromSetTag(g, s, line.tag), line.data);
      if !out.ok then Step(c, out.mem, None)
      else
        var cleaned := WithLine(c, s, w, line.(dirty := false));
        Step(cleaned.(stats := c.stats.(writebacks := c.stats.writebacks + 1)), out.mem, Some(()))
  }

  /** Pick a victim, write it back if it is dirty, then read the new line byte by byte. */
  function FillLine(g: Config, c: Contents, m: Mem, a: u32): (r: Step<nat>)
    requires Shaped(g, c)
    ensures Shaped(g, r.cache) && SameRegions(m, r.mem)
    ensures r.out.Some? ==> r.out.value < g.ways
  {
    var s := SetIndex(g, a);
    var (w, next) := ChooseVictim(c.sets[s], c.nextVictim[s]);
    var c1 := c.(nextVictim := c.nextVictim[s := next]);
    AfterEvict(g, Evict(g, c1, m, s, w), a, s, w)
  }

  function AfterEvict(g: Config, evicted: Step<()>, a: u32, s: nat, w: nat): (r: Step<nat>)
    requires Shaped(g, evicted.cache) && s < g.setCount && w < g.ways
    ensures Shaped(g, r.cache) && r.mem == evicted.mem
    ensures r.out.Some? ==> r.out.value == w
  {
    if evicted.out.None? then Step(evicted.cache, evicted.mem, None)
    else match ReadBlock(evicted.mem, LineBase(a), LINE_SIZE)
      case None => Step(evicted.cache, evicted.mem, None)
      case Some(data) =>
        Step(WithLine(evicted.cache, s, w, CacheLine(true, false, TagOf(g, a), data)), evicted.mem, Some(w))
  }

  function Evict(g: Config, c: Contents, m: Mem, s: nat, w: nat): (r: Step<()>)
    requires Shaped(g, c) && s < g.setCount && w < g.ways
    ensures Shaped(g, r.cache) && SameRegions(m, r.mem)
  {
    if c.sets[s][w].valid then
      WriteBackLine(g, c.(stats := c.stats.(evictions := c.stats.evictions + 1)), m, s, w)
    else Step(c, m, Some(()))
  }

  function Patch(data: seq<byte>, offset: nat, bs: seq<byte>): (r: seq<byte>)
    requires offset + |bs| <= |data|
    ensures |r| == |data|
    ensures forall i :: 0 <= i < |data| ==>
      r[i] == if offset <= i < offset + |bs| then bs[i - offset] else data[i]
  {
    data[..offset] + bs + data[offset + |bs|..]
  }

  /** Overwrite part of a cached line, marking it dirty when this cache writes back. */
  function UpdateLine(g: Config, c: Contents, s: nat, w: nat, offset: nat, bs: seq<byte>): (r: Contents)
    requires Shaped(g, c) && s < g.setCount && w < g.ways && offset + |bs| <= LINE_SIZE
    ensures Shaped(g, r)
  {
    var line := c.sets[s][w];
    WithLine(c, s, w, line.(data := Patch(line.data, offset, bs), dirty := line.dirty || g.TracksDirty()))
  }

  function ReadHit(st: Stats): Stats { st.(hits := st.hits + 1, readHits := st.readHits + 1) }
  function ReadMiss(st: Stats): Stats { st.(misses := st.misses + 1, readMisses := st.readMisses + 1) }
  function WriteHit(st: Stats): Stats { st.(hits := st.hits + 1, writeHits := st.writeHits + 1) }
  function WriteMiss(st: Stats): Stats { st.(misses := st.misses + 1, writeMisses := st.writeMisses + 1) }

  function ToBus(c: Contents, m: Mem, a: u32, bs: seq<byte>): (r: Step<()>)
    ensures r.cache == c && SameRegions(m, r.mem)
  {
    var out := WriteBlock(m, a, bs);
    Step(c, out.mem, if out.ok then Some(()) else None)
  }

  function AfterUpdate(g: Config, c: Contents, m: Mem, a: u32, bs: seq<byte>): (r: Step<()>)
    ensures r.cache == c && SameRegions(m, r.mem)
  {
    if g.writePolicy.WriteThrough? then ToBus(c, m, a, bs) else Step(c, m, Some(()))
  }

  function Store(g: Config, c: Contents, m: Mem, a: u32, bs: seq<byte>): (r: Step<()>)
    requires Shaped(g, c)
    ensures Shaped(g, r.cache) && SameRegions(m, r.mem)
  {
    var s, offset := SetIndex(g, a), LineOffset(a);
    var missed := c.(stats := WriteMiss(c.stats));
    if offset + |bs| > LINE_SIZE then ToBus(missed, m, a, bs)
    else match FindWay(c.sets[s], TagOf(g, a))
      case Some(w) =>
        AfterUpdate(g, UpdateLine(g, c.(stats := WriteHit(c.stats)), s, w, offset, bs), m, a, bs)
      case None =>
        if g.writeAllocate.NoWriteAllocate? then ToBus(missed, m, a, bs)
        else
          var filled := FillLine(g, missed, m, a);
          match filled.out
          case None => Step(filled.cache, filled.mem, None)
          case Some(w) =>
            AfterUpdate(g, UpdateLine(g, filled.cache, s, w, offset, bs), filled.mem, a, bs)
  }

  function Load(g: Config, c: Contents, m: Mem, a: u32, n: nat): (r: Step<seq<byte>>)
    requires Shaped(g, c)
    ensures Shaped(g, r.cache) && SameRegions(m, r.mem)
    ensures r.out.Some? ==> |r.out.value| == n
  {
    var s, offset := SetIndex(g, a), LineOffset(a);
    var missed := c.(stats := ReadMiss(c.stats));
    if offset + n > LINE_SIZE then Step(missed, m, ReadBlock(m, a, n))
    else match FindWay(c.sets[s], TagOf(g, a))
      case Some(w) =>
        Step(c.(stats := ReadHit(c.stats)), m, Some(c.sets[s][w].data[offset..offset + n]))
      case None =>
        var filled := FillLine(g, missed, m, a);
        match filled.out
        case None => Step(filled.cache, filled.mem, None)
        case Some(w) =>
          Step(filled.cache, filled.mem, Some(filled.cache.sets[s][w].data[offset..offset + n]))
  }

  function InvalidateWithBus(g: Config, c: Contents, m: Mem, a: u32): (r: Step<()>)
    requires Shaped(g, c)
    ensures Shaped(g, r.cache) && SameRegions(m, r.mem)
  {
    var s := SetIndex(g, a);
    match FindWay(c.sets[s], TagOf(g, a))
    case None => Step(c, m, Some(()))
    case Some(w) => Drop(g, c, m, s, w)
  }

  /** Write one line back and forget it; on a bus error it stays. */
  function Drop(g: Config, c: Contents, m: Mem, s: nat, w: nat): (r: Step<()>)
    requires Shaped(g, c) && s < g.setCount && w < g.ways
    ensures Shaped(g, r.cache) && SameRegions(m, r.mem)
  {
    var wb := WriteBackLine(g, c, m, s, w);
    if wb.out.None? then wb else Step(WithLine(wb.cache, s, w, EMPTY_LINE), wb.mem, Some(()))
  }

  /** Lines go in order of set, then way; the first bus error stops the flush. */
  function FlushFrom(g: Config, c: Contents, m: Mem, s: nat, w: nat): (r: Step<()>)
    requires Shaped(g, c) && s <= g.setCount && w <= g.ways
    ensures Shaped(g, r.cache) && SameRegions(m, r.mem)
    decreases g.setCount - s, g.ways - w
  {
    if s == g.setCount then Step(c, m, Some(()))
    else if w == g.ways then FlushFrom(g, c, m, s + 1, 0)
    else
      var dropped := Drop(g, c, m, s, w);
      if dropped.out.None? then dropped else FlushFrom(g, dropped.cache, dropped.mem, s, w + 1)
  }

  function FlushAllWithBus(g: Config, c: Contents, m: Mem): (r: Step<()>)
    requires Shaped(g, c)
    ensures Shaped(g, r.cache) && SameRegions(m, r.mem)
  {
    FlushFrom(g, c, m, 0, 0)
  }

  /** `FlushFrom` as a value: the flush loops move along the steps below without its definition. */
  type FlushFunction = (Contents, Mem, nat, nat) -> Step<()>

  ghost predicate IsFlush(g: Config, f: FlushFunction) {
    forall c, m, s: nat, w: nat {:trigger FlushFrom(g, c, m, s, w)} ::
      Shaped(g, c) && s <= g.setCount && w <= g.ways ==> f(c, m, s, w) == FlushFrom(g, c, m, s, w)
  }

  lemma FlushAsValue(g: Config) returns (f: FlushFunction)
    ensures IsFlush(g, f)
  {
    f := (c, m, s: nat, w: nat) =>
      if Shaped(g, c) && s <= g.setCount && w <= g.ways then FlushFrom(g, c, m, s, w) else Step(c, m, None);
  }

  lemma FlushStep(g: Config, c: Contents, m: Mem, s: nat, w: nat)
    requires Shaped(g, c) && s < g.setCount && w < g.ways
    ensures var d := Drop(g, c, m, s, w);
      FlushFrom(g, c, m, s, w) == if d.out.None? then d else FlushFrom(g, d.cache, d.mem, s, w + 1)
  {
  }

  lemma FlushNextSet(g: Config, c: Contents, m: Mem, s: nat)
    requires Shaped(g, c) && s < g.setCount
    ensures FlushFrom(g, c, m, s, g.ways) == FlushFrom(g, c, m, s + 1, 0)
  {
  }

  lemma FlushDone(g: Config, c: Contents, m: Mem)
    requires Shaped(g, c)
    ensures FlushFrom(g, c, m, g.setCount, 0) == Step(c, m, Some(()))
  {
  }

  // ---- Runs ----

  datatype Op = Read(a: u32, n: nat) | Write(a: u32, bs: seq<byte>) | Invalidate(a: u32) | Flush

  datatype Outcome = Bytes(bs: seq<byte>) | Done | Failed

  datatype Reached = Reached(cache: Contents, mem: Mem, outs: seq<Outcome>)

  function Perform(g: Config, c: Contents, m: Mem, op: Op): (r: (Contents, Mem, Outcome))
    requires Shaped(g, c)
    ensures Shaped(g, r.0) && SameRegions(m, r.1)
  {
    match op
    case Read(a, n) =>
      var r := Load(g, c, m, a, n);
      (r.cache, r.mem, if r.out.Some? then Bytes(r.out.value) else Failed)
    case Write(a, bs) => Plain(Store(g, c, m, a, bs))
    case Invalidate(a) => Plain(InvalidateWithBus(g, c, m, a))
    case Flush => Plain(FlushAllWithBus(g, c, m))
  }

  function Plain(r: Step<()>): (Contents, Mem, Outcome) {
    (r.cache, r.mem, if r.out.Some? then Done else Failed)
  }

  function Run(g: Config, c: Contents, m: Mem, ops: seq<Op>): (r: Reached)
    requires Shaped(g, c)
    ensures Shaped(g, r.cache) && SameRegions(m, r.mem) && |r.outs| == |ops|
    decreases |ops|
  {
    if ops == [] then Reached(c, m, [])
    else
      var (c', m', out) := Perform(g, c, m, ops[0]);
      var rest := Run(g, c', m', ops[1..]);
      Reached(rest.cache, rest.mem, [out] + rest.outs)
  }

  /** Accesses that stay inside one line; every naturally aligned access does. */
  predicate InLineOp(op: Op) {
    match op
    case Read(a, n) => LineOffset(a) + n <= LINE_SIZE
    case Write(a, bs) => LineOffset(a) + |bs| <= LINE_SIZE
    case _ => true
  }
}
