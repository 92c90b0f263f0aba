/** The promises of the cache over whole runs: transparency, equivalence with the bare bus,
    write-back economy and the lifetime of a filled line. */
module CacheRuns {
  import opened Memory
  import opened CacheSpec
  import opened CacheTheorems

  // ---- Transparency ----

  /** The outcomes are those of a flat memory that starts as `v`: every completed read delivers its
      bytes, every completed write replaces them, and nothing else ever changes them. */
  ghost predicate Explains(v: Mem, ops: seq<Op>, outs: seq<Outcome>)
    requires |ops| == |outs|
    decreases |ops|
  {
    ops == [] ||
    match (ops[0], outs[0])
    case (Read(a, n), Bytes(bs)) => ReadBlock(v, a, n) == Some(bs) && Explains(v, ops[1..], outs[1..])
    case (Read(_, _), Done) => false
    case (Write(a, bs), Done) => Explains(Overlay(v, a, bs), ops[1..], outs[1..])
    case (_, Bytes(_)) => false
    case (_, _) => Explains(v, ops[1..], outs[1..])
  }

  predicate AllInLine(ops: seq<Op>) {
    forall i :: 0 <= i < |ops| ==> InLineOp(ops[i])
  }

  /** Every byte of the line around `a` can be read, so the line can be cached. */
  ghost predicate WholeLine(m: Mem, a: u32) {
    forall y: u32 :: y / LINE_SIZE == a / LINE_SIZE ==> CanRead(m, y)
  }

  /** A store that cannot leave a part of itself behind where a load could see it: a write-through cache
      asks that the bus takes it all; one that goes around the cache asks that the bus does not stop
      after having taken something.  Lines that cannot be cached cannot be seen. */
  ghost predicate Harmless(g: Config, m: Mem, a: u32, bs: seq<byte>) {
    WholeLine(m, a) ==>
      if g.writePolicy.WriteThrough? then forall y :: a <= y < a + |bs| ==> CanWrite(m, y)
      else g.writeAllocate.NoWriteAllocate? ==> NoBreak(m, a, |bs|)
  }

  /** Nowhere in the range does an unwritable byte follow a writable one. */
  ghost predicate NoBreak(m: Mem, a: int, n: nat) {
    forall y :: a <= y < a + n - 1 && CanWrite(m, y) ==> CanWrite(m, y + 1)
  }

  ghost predicate AllHarmless(g: Config, m: Mem, ops: seq<Op>) {
    forall i :: 0 <= i < |ops| && ops[i].Write? ==> Harmless(g, m, ops[i].a, ops[i].bs)
  }

  /** The two memories show the same through lines that can be cached. */
  ghost predicate SameWhole(v: Mem, v': Mem) {
    SameRegions(v, v') && forall x: u32 :: x in v.bytes && WholeLine(v, x) ==> v.bytes[x] == v'.bytes[x]
  }

  /** Every line of memory is wholly present and writable, or wholly absent. */
  ghost predicate WholeLines(m: Mem) {
    forall x: u32, y: u32 :: CanRead(m, x) && x / LINE_SIZE == y / LINE_SIZE ==> CanWrite(m, y)
  }

  lemma SameLine(m: Mem, x: u32, y: u32)
    requires WholeLines(m) && x / LINE_SIZE == y / LINE_SIZE
    ensures CanRead(m, x) <==> CanRead(m, y)
    ensures CanRead(m, x) ==> CanWrite(m, y)
  {
    assert CanRead(m, x) ==> CanWrite(m, y);
    assert CanRead(m, y) ==> CanWrite(m, x);
  }

  lemma SameRegionsHarmless(g: Config, m: Mem, m': Mem, ops: seq<Op>)
    requires SameRegions(m, m') && AllHarmless(g, m, ops)
    ensures (InRange(m) ==> InRange(m')) && AllHarmless(g, m', ops)
  {
    assert forall x :: (CanRead(m', x) <==> CanRead(m, x)) && (CanWrite(m', x) <==> CanWrite(m, x));
    forall i | 0 <= i < |ops| && ops[i].Write?
      ensures Harmless(g, m', ops[i].a, ops[i].bs)
    {
      assert Harmless(g, m, ops[i].a, ops[i].bs);
    }
  }

  lemma SameRegionsWholeLine(m: Mem, m': Mem, a: u32)
    requires SameRegions(m, m')
    ensures WholeLine(m, a) <==> WholeLine(m', a)
  {
    assert forall x :: CanRead(m', x) <==> CanRead(m, x);
  }

  // ---- One operation ----

  /** Only a line that can be read whole is ever filled. */
  lemma FillNeedsWhole(g: Config, c: Contents, m: Mem, a: u32)
    requires Shaped(g, c) && FillLine(g, c, m, a).out.Some?
    ensures WholeLine(m, a)
  {
    var s := SetIndex(g, a);
    var (w, next) := ChooseVictim(c.sets[s], c.nextVictim[s]);
    var e := Evict(g, c.(nextVictim := c.nextVictim[s := next]), m, s, w);
    ReadBlockSpec(e.mem, LineBase(a), LINE_SIZE);
    assert forall x :: CanRead(e.mem, x) <==> CanRead(m, x);
    forall y: u32 | y / LINE_SIZE == a / LINE_SIZE
      ensures CanRead(m, y)
    {
      assert LineBase(a) <= y < LineBase(a) + LINE_SIZE;
    }
  }

  lemma CachedIsWhole(g: Config, c: Contents, m: Mem, a: u32)
    requires Inv(g, c, m) && FindWay(c.sets[SetIndex(g, a)], TagOf(g, a)).Some?
    ensures WholeLine(m, a)
  {
    var s, w := SetIndex(g, a), FindWay(c.sets[SetIndex(g, a)], TagOf(g, a)).value;
    assert LineOk(g, m, s, c.sets[s][w]);
    forall y: u32 | y / LINE_SIZE == a / LINE_SIZE
      ensures CanRead(m, y)
    {
      assert InLine(g, s, TagOf(g, a), y);
    }
  }

  lemma LoadNeedsWhole(g: Config, c: Contents, m: Mem, a: u32, n: nat)
    requires Inv(g, c, m) && LineOffset(a) + n <= LINE_SIZE && Load(g, c, m, a, n).out.Some?
    ensures WholeLine(m, a)
  {
    if FindWay(c.sets[SetIndex(g, a)], TagOf(g, a)).Some? {
      CachedIsWhole(g, c, m, a);
    } else {
      FillNeedsWhole(g, c.(stats := ReadMiss(c.stats)), m, a);
    }
  }

  /** What a load delivers is also what a memory delivers that shows the same through whole lines. */
  lemma LoadExplained(g: Config, c: Contents, m: Mem, v: Mem, a: u32, n: nat)
    requires Inv(g, c, m) && InRange(m) && LineOffset(a) + n <= LINE_SIZE && SameWhole(View(g, c, m), v)
    ensures var r := Load(g, c, m, a, n);
      Inv(g, r.cache, r.mem) && SameWhole(View(g, r.cache, r.mem), v) &&
      (r.out.Some? ==> ReadBlock(v, a, n) == r.out)
  {
    LoadIsTransparent(g, c, m, a, n);
    var u := View(g, c, m);
    if Load(g, c, m, a, n).out.Some? {
      LoadNeedsWhole(g, c, m, a, n);
      SameRegionsWholeLine(m, u, a);
      SameThroughLine(u, v, a, n);
    }
  }

  lemma SameThroughLine(v: Mem, v': Mem, a: u32, n: nat)
    requires SameWhole(v, v') && LineOffset(a) + n <= LINE_SIZE && WholeLine(v, a)
    ensures ReadBlock(v', a, n) == ReadBlock(v, a, n)
  {
    forall x | a <= x < a + n && x in v.bytes
      ensures x in v'.bytes && v.bytes[x] == v'.bytes[x]
    {
      assert x / LINE_SIZE == a / LINE_SIZE;
      assert WholeLine(v, x);
    }
    ReadBlockFrame(v, v', a, n);
  }

  /** A store into a line that can be cached shows whole or not at all. */
  lemma StoreInWholeLine(g: Config, c: Contents, m: Mem, a: u32, bs: seq<byte>)
    requires Inv(g, c, m) && InRange(m) && LineOffset(a) + |bs| <= LINE_SIZE && Coherent(g)
    requires WholeLine(m, a) && Harmless(g, m, a, bs)
    ensures var r := Store(g, c, m, a, bs);
      Inv(g, r.cache, r.mem) &&
      View(g, r.cache, r.mem) == if r.out.Some? then Overlay(View(g, c, m), a, bs) else View(g, c, m)
  {
    StoreIsTransparent(g, c, m, a, bs);
    if Store(g, c, m, a, bs).out.None? && g.writeAllocate.NoWriteAllocate? {
      RefusedWhole(g, c, m, a, bs);
      OverlayNothing(View(g, c, m), a, bs);
    }
  }

  lemma RefusedWhole(g: Config, c: Contents, m: Mem, a: u32, bs: seq<byte>)
    requires Inv(g, c, m) && LineOffset(a) + |bs| <= LINE_SIZE && Coherent(g)
    requires WholeLine(m, a) && Harmless(g, m, a, bs)
    requires g.writeAllocate.NoWriteAllocate? && Store(g, c, m, a, bs).out.None?
    ensures WriteBlock(m, a, bs).count == 0
  {
    WriteBlockSpec(m, a, bs);
    var w := FindWay(c.sets[SetIndex(g, a)], TagOf(g, a));
    if w.Some? { StoreHits(g, c, m, a, w.value, bs); }
    var k := WriteBlock(m, a, bs).count;
    assert k > 0 ==> CanWrite(m, a + k - 1);
  }

  /** A store elsewhere never shows. */
  lemma StoreOutsideWholeLines(g: Config, c: Contents, m: Mem, a: u32, bs: seq<byte>)
    requires Inv(g, c, m) && InRange(m) && LineOffset(a) + |bs| <= LINE_SIZE && !WholeLine(m, a)
    ensures var r := Store(g, c, m, a, bs);
      Inv(g, r.cache, r.mem) && SameWhole(View(g, c, m), View(g, r.cache, r.mem))
  {
    if FindWay(c.sets[SetIndex(g, a)], TagOf(g, a)).Some? { CachedIsWhole(g, c, m, a); }
    var missed := c.(stats := WriteMiss(c.stats));
    StatsKeep(g, c, m, missed.stats);
    var v := View(g, c, m);
    if g.writeAllocate.NoWriteAllocate? {
      AroundKeeps(g, missed, m, a, bs);
      SameRegionsWholeLine(m, v, a);
      OverlayUnseen(v, a, bs[..WriteBlock(m, a, bs).count]);
    } else {
      var f := FillLine(g, missed, m, a);
      if f.out.Some? { FillNeedsWhole(g, missed, m, a); }
      FillKeeps(g, missed, m, a);
      SameViewSame(g, missed, m, f.cache, f.mem);
    }
  }

  lemma LineMates(v: Mem, a: u32, n: nat)
    requires LineOffset(a) + n <= LINE_SIZE
    ensures forall x: u32 :: a <= x < a + n ==> (WholeLine(v, x) <==> WholeLine(v, a))
  {
    forall x: u32 | a <= x < a + n
      ensures WholeLine(v, x) <==> WholeLine(v, a)
    {
      assert x / LINE_SIZE == a / LINE_SIZE;
    }
  }

  lemma OverlayUnseen(v: Mem, a: u32, bs: seq<byte>)
    requires LineOffset(a) + |bs| <= LINE_SIZE && !WholeLine(v, a)
    ensures SameWhole(v, Overlay(v, a, bs))
  {
    LineMates(v, a, |bs|);
  }

  lemma OverlayBoth(v: Mem, v': Mem, a: u32, bs: seq<byte>)
    requires SameWhole(v, v')
    ensures SameWhole(Overlay(v, a, bs), Overlay(v', a, bs))
  {
    var o, o' := Overlay(v, a, bs), Overlay(v', a, bs);
    forall x: u32 | x in o.bytes && WholeLine(o, x)
      ensures o.bytes[x] == o'.bytes[x]
    {
      SameRegionsWholeLine(v, o, x);
    }
  }

  lemma SameWholeTrans(u: Mem, v: Mem, w: Mem)
    requires SameWhole(u, v) && SameWhole(v, w)
    ensures SameWhole(u, w) && SameWhole(v, u)
  {
    forall x: u32 | x in v.bytes && WholeLine(v, x)
      ensures u.bytes[x] == v.bytes[x] == w.bytes[x]
    {
      SameRegionsWholeLine(v, u, x);
    }
    forall x: u32 | x in u.bytes && WholeLine(u, x)
      ensures u.bytes[x] == w.bytes[x]
    {
      SameRegionsWholeLine(u, v, x);
    }
  }

  lemma StoreExplained(g: Config, c: Contents, m: Mem, v: Mem, a: u32, bs: seq<byte>)
    requires Inv(g, c, m) && InRange(m) && LineOffset(a) + |bs| <= LINE_SIZE && Coherent(g)
    requires Harmless(g, m, a, bs) && SameWhole(View(g, c, m), v)
    ensures var r := Store(g, c, m, a, bs);
      Inv(g, r.cache, r.mem) &&
      SameWhole(View(g, r.cache, r.mem), if r.out.Some? then Overlay(v, a, bs) else v)
  {
    var u, r := View(g, c, m), Store(g, c, m, a, bs);
    if WholeLine(m, a) {
      StoreInWholeLine(g, c, m, a, bs);
      OverlayBoth(u, v, a, bs);
    } else {
      StoreOutsideWholeLines(g, c, m, a, bs);
      SameWholeTrans(u, View(g, r.cache, r.mem), View(g, r.cache, r.mem));
      SameWholeTrans(View(g, r.cache, r.mem), u, v);
      SameRegionsWholeLine(m, v, a);
      OverlayUnseen(v, a, bs);
      SameWholeTrans(View(g, r.cache, r.mem), v, Overlay(v, a, bs));
    }
  }

  /** One operation, seen through the cache. */
  lemma PerformExplained(g: Config, c: Contents, m: Mem, v: Mem, op: Op)
    requires Inv(g, c, m) && InRange(m) && InLineOp(op) && Coherent(g) && SameWhole(View(g, c, m), v)
    requires op.Write? ==> Harmless(g, m, op.a, op.bs)
    ensures var (c', m', out) := Perform(g, c, m, op);
      Inv(g, c', m') && SameWhole(View(g, c', m'), if op.Write? && out == Done then Overlay(v, op.a, op.bs) else v) &&
      (op.Read? <== out.Bytes?) && (op.Read? ==> out != Done) &&
      (op.Read? && out.Bytes? ==> ReadBlock(v, op.a, op.n) == Some(out.bs))
  {
    match op
    case Read(a, n) => LoadExplained(g, c, m, v, a, n);
    case Write(a, bs) => StoreExplained(g, c, m, v, a, bs);
    case Invalidate(a) => InvalidateIsTransparent(g, c, m, a);
    case Flush => FlushIsTransparent(g, c, m);
  }

  lemma {:induction false} TransparentFrom(g: Config, c: Contents, m: Mem, v: Mem, ops: seq<Op>)
    requires Inv(g, c, m) && InRange(m) && AllInLine(ops) && Coherent(g) && AllHarmless(g, m, ops)
    requires SameWhole(View(g, c, m), v)
    ensures Explains(v, ops, Run(g, c, m, ops).outs)
    decreases |ops|
  {
    if ops != [] {
      var (c', m', out) := Perform(g, c, m, ops[0]);
      PerformExplained(g, c, m, v, ops[0]);
      SameRegionsHarmless(g, m, m', ops);
      var v' := if ops[0].Write? && out == Done then Overlay(v, ops[0].a, ops[0].bs) else v;
      TransparentFrom(g, c', m', v', ops[1..]);
      FirstOutcome(g, c, m, v, v', ops);
    }
  }

  /** The first outcome is explained, and the rest follows from the memory it leaves. */
  lemma FirstOutcome(g: Config, c: Contents, m: Mem, v: Mem, v': Mem, ops: seq<Op>)
    requires Shaped(g, c) && ops != []
    requires var (c', m', out) := Perform(g, c, m, ops[0]);
      v' == (if ops[0].Write? && out == Done then Overlay(v, ops[0].a, ops[0].bs) else v) &&
      (ops[0].Read? <== out.Bytes?) && (ops[0].Read? ==> out != Done) &&
      (ops[0].Read? && out.Bytes? ==> ReadBlock(v, ops[0].a, ops[0].n) == Some(out.bs)) &&
      Explains(v', ops[1..], Run(g, c', m', ops[1..]).outs)
    ensures Explains(v, ops, Run(g, c, m, ops).outs)
  {
    var (c', m', out) := Perform(g, c, m, ops[0]);
    assert Run(g, c, m, ops).outs[1..] == Run(g, c', m', ops[1..]).outs;
  }

  // ---- Whole lines only ----

  /** One operation where memory lines are whole. */
  lemma PerformIsTransparent(g: Config, c: Contents, m: Mem, op: Op)
    requires Inv(g, c, m) && InRange(m) && InLineOp(op) && Coherent(g) && WholeLines(m)
    ensures var (c', m', out) := Perform(g, c, m, op);
      Inv(g, c', m') && InRange(m') &&
      View(g, c', m') == if op.Write? && out == Done then Overlay(View(g, c, m), op.a, op.bs) else View(g, c, m)
    ensures var out := Perform(g, c, m, op).2;
      (op.Read? <== out.Bytes?) && (op.Read? ==> out != Done) &&
      (op.Read? && out.Bytes? ==> ReadBlock(View(g, c, m), op.a, op.n) == Some(out.bs))
  {
    SameRegionsHarmless(g, m, Perform(g, c, m, op).1, []);
    match op
    case Read(a, n) => LoadIsTransparent(g, c, m, a, n);
    case Write(a, bs) => StoreIsAtomic(g, c, m, a, bs);
    case Invalidate(a) => InvalidateIsTransparent(g, c, m, a);
    case Flush => FlushIsTransparent(g, c, m);
  }

  lemma StoreIsAtomic(g: Config, c: Contents, m: Mem, a: u32, bs: seq<byte>)
    requires Inv(g, c, m) && InRange(m) && LineOffset(a) + |bs| <= LINE_SIZE && Coherent(g) && WholeLines(m)
    ensures var r := Store(g, c, m, a, bs);
      Inv(g, r.cache, r.mem) &&
      View(g, r.cache, r.mem) == if r.out.Some? then Overlay(View(g, c, m), a, bs) else View(g, c, m)
  {
    LineAllOrNothing(m, a, bs);
    StoreIsTransparent(g, c, m, a, bs);
    if Store(g, c, m, a, bs).out.None? && g.writeAllocate.NoWriteAllocate? {
      OverlayNothing(View(g, c, m), a, bs);
      StoreFailsWhole(g, c, m, a, bs);
    }
  }

  /** Without allocation a failed store is a refused bus store. */
  lemma StoreFailsWhole(g: Config, c: Contents, m: Mem, a: u32, bs: seq<byte>)
    requires Inv(g, c, m) && LineOffset(a) + |bs| <= LINE_SIZE && Coherent(g) && WholeLines(m)
    requires g.writeAllocate.NoWriteAllocate? && Store(g, c, m, a, bs).out.None?
    ensures WriteBlock(m, a, bs).count == 0
  {
    LineAllOrNothing(m, a, bs);
  }

  lemma OverlayNothing(v: Mem, a: int, bs: seq<byte>)
    ensures Overlay(v, a, bs[..0]) == v
  {
    assert Overlay(v, a, bs[..0]).bytes == v.bytes;
  }

  /** Where lines are whole, a store inside one line is taken whole or refused whole. */
  lemma LineAllOrNothing(m: Mem, a: u32, bs: seq<byte>)
    requires WholeLines(m) && LineOffset(a) + |bs| <= LINE_SIZE
    ensures WriteBlock(m, a, bs).ok || WriteBlock(m, a, bs).count == 0
    ensures bs != [] ==> (WriteBlock(m, a, bs).ok <==> CanRead(m, a))
    ensures forall x :: a <= x < a + |bs| && CanRead(m, x) ==> CanWrite(m, x)
  {
    forall x | a <= x < a + |bs|
      ensures CanRead(m, x) ==> CanWrite(m, x)
      ensures CanRead(m, a) ==> CanWrite(m, x)
    {
      assert x / LINE_SIZE == a / LINE_SIZE;
      SameLine(m, a, x);
    }
    WriteBlockSpec(m, a, bs);
    if CanRead(m, a) {
      assert WriteBlock(m, a, bs).ok;
    } else {
      assert !CanWrite(m, a);
    }
  }

  lemma EmptyInv(g: Config, m: Mem)
    requires g.Valid() && InRange(m)
    ensures Inv(g, Empty(g), m) && View(g, Empty(g), m) == m
  {
    var c := Empty(g);
    forall x | x in m.bytes
      ensures View(g, c, m).bytes[x] == m.bytes[x]
    {
      assert c.sets[SetIndex(g, x)] == seq(g.ways, _ => EMPTY_LINE);
    }
    assert View(g, c, m).bytes == m.bytes;
  }

  /** Main result: from an empty cache, no run of loads, stores, invalidations and flushes can be told
      apart from the same run on flat memory, whatever hits, misses, evictions, write-backs and bus
      errors happen underneath, as long as its stores are harmless. */
  lemma CacheIsTransparent(g: Config, m: Mem, ops: seq<Op>)
    requires g.Valid() && InRange(m) && AllInLine(ops) && Coherent(g) && AllHarmless(g, m, ops)
    ensures Explains(m, ops, Run(g, Empty(g), m, ops).outs)
  {
    EmptyInv(g, m);
    TransparentFrom(g, Empty(g), m, m, ops);
  }

  /** In particular when the bus accepts every byte the run stores. */
  lemma AcceptedStoresAreTransparent(g: Config, m: Mem, ops: seq<Op>)
    requires g.Valid() && InRange(m) && AllInLine(ops) && Coherent(g)
    requires forall i, y :: 0 <= i < |ops| && ops[i].Write? && ops[i].a <= y < ops[i].a + |ops[i].bs| ==> CanWrite(m, y)
    ensures Explains(m, ops, Run(g, Empty(g), m, ops).outs)
  {
    CacheIsTransparent(g, m, ops);
  }

  // ---- Indistinguishable from the bus, errors included ----

  /** The same operations on the bus alone. */
  function BusRun(m: Mem, ops: seq<Op>): (outs: seq<Outcome>)
    ensures |outs| == |ops|
    decreases |ops|
  {
    if ops == [] then []
    else match ops[0]
      case Read(a, n) =>
        var r := ReadBlock(m, a, n);
        [if r.Some? then Bytes(r.value) else Failed] + BusRun(m, ops[1..])
      case Write(a, bs) =>
        var r := WriteBlock(m, a, bs);
        [if r.ok then Done else Failed] + BusRun(r.mem, ops[1..])
      case _ => [Done] + BusRun(m, ops[1..])
  }

  predicate NonEmpty(op: Op) {
    match op
    case Read(_, n) => n > 0
    case Write(_, bs) => bs != []
    case _ => true
  }

  lemma WriteBackSucceeds(g: Config, c: Contents, m: Mem, s: nat, w: nat)
    requires Inv(g, c, m) && WholeLines(m) && s < g.setCount && w < g.ways
    ensures WriteBackLine(g, c, m, s, w).out.Some?
  {
    var line := c.sets[s][w];
    if line.valid && line.dirty && g.TracksDirty() {
      var base := LineBaseFromSetTag(g, s, line.tag);
      assert LineOk(g, m, s, line);
      LineBaseCovers(g, s, line.tag, base);
      WholeLineTakes(m, base, line.data);
    }
  }

  lemma WholeLineTakes(m: Mem, base: u32, data: seq<byte>)
    requires WholeLines(m) && CanRead(m, base) && base % LINE_SIZE == 0 && |data| == LINE_SIZE
    ensures WriteBlock(m, base, data).ok
  {
    forall x | base <= x < base + LINE_SIZE
      ensures CanWrite(m, x)
    {
      assert base / LINE_SIZE == x / LINE_SIZE;
    }
    WriteBlockSpec(m, base, data);
  }

  lemma FillSucceeds(g: Config, c: Contents, m: Mem, a: u32)
    requires Inv(g, c, m) && WholeLines(m)
    ensures FillLine(g, c, m, a).out.Some? <==> CanRead(m, a)
  {
    var s := SetIndex(g, a);
    var (w, next) := ChooseVictim(c.sets[s], c.nextVictim[s]);
    var c1 := c.(nextVictim := c.nextVictim[s := next]);
    var c2 := c1.(stats := c1.stats.(evictions := c1.stats.evictions + 1));
    assert Inv(g, c1, m) && Inv(g, c2, m);
    WriteBackSucceeds(g, c2, m, s, w);
    var e := Evict(g, c1, m, s, w);
    forall x | LineBase(a) <= x < LineBase(a) + LINE_SIZE
      ensures CanRead(e.mem, x) <==> CanRead(m, a)
    {
      assert x / LINE_SIZE == a / LINE_SIZE;
      SameLine(m, a, x);
    }
    ReadBlockSpec(e.mem, LineBase(a), LINE_SIZE);
  }

  lemma {:induction false} FlushSucceeds(g: Config, c: Contents, m: Mem, s: nat, w: nat)
    requires Inv(g, c, m) && WholeLines(m) && s <= g.setCount && w <= g.ways
    ensures FlushFrom(g, c, m, s, w).out.Some?
    decreases g.setCount - s, g.ways - w
  {
    if s == g.setCount {
    } else if w == g.ways {
      FlushSucceeds(g, c, m, s + 1, 0);
    } else {
      DropKeeps(g, c, m, s, w);
      WriteBackSucceeds(g, c, m, s, w);
      var d := Drop(g, c, m, s, w);
      assert WholeLines(d.mem) by { SameRegionsWhole(m, d.mem); }
      FlushSucceeds(g, d.cache, d.mem, s, w + 1);
    }
  }

  lemma SameRegionsWhole(m: Mem, m': Mem)
    requires SameRegions(m, m') && WholeLines(m)
    ensures WholeLines(m')
  {
    assert forall x :: (CanRead(m', x) <==> CanRead(m, x)) && (CanWrite(m', x) <==> CanWrite(m, x));
  }

  /** Where lines are whole, an access succeeds exactly when its address is mapped. */
  lemma LoadSucceeds(g: Config, c: Contents, m: Mem, a: u32, n: nat)
    requires Inv(g, c, m) && WholeLines(m) && LineOffset(a) + n <= LINE_SIZE
    ensures Load(g, c, m, a, n).out.Some? <==> CanRead(m, a)
  {
    var s := SetIndex(g, a);
    match FindWay(c.sets[s], TagOf(g, a))
    case Some(w) => assert LineOk(g, m, s, c.sets[s][w]);
    case None => FillSucceeds(g, c.(stats := ReadMiss(c.stats)), m, a);
  }

  lemma StoreSucceeds(g: Config, c: Contents, m: Mem, a: u32, bs: seq<byte>)
    requires Inv(g, c, m) && InRange(m) && WholeLines(m) && Coherent(g)
    requires LineOffset(a) + |bs| <= LINE_SIZE && bs != []
    ensures Store(g, c, m, a, bs).out.Some? <==> CanRead(m, a)
  {
    LineAllOrNothing(m, a, bs);
    match FindWay(c.sets[SetIndex(g, a)], TagOf(g, a))
    case Some(w) => StoreHits(g, c, m, a, w, bs);
    case None =>
      if g.writeAllocate.WriteAllocate? {
        var missed := c.(stats := WriteMiss(c.stats));
        assert Inv(g, missed, m);
        FillSucceeds(g, missed, m, a);
        StoreAllocates(g, missed, m, a, bs);
      }
  }

  lemma BusReadWhole(v: Mem, a: u32, n: nat)
    requires WholeLines(v) && LineOffset(a) + n <= LINE_SIZE && n > 0
    ensures ReadBlock(v, a, n).Some? <==> CanRead(v, a)
  {
    forall x | a <= x < a + n
      ensures CanRead(v, x) <==> CanRead(v, a)
    {
      assert x / LINE_SIZE == a / LINE_SIZE;
      SameLine(v, a, x);
    }
    ReadBlockSpec(v, a, n);
  }

  lemma {:induction false} MatchesBusFrom(g: Config, c: Contents, m: Mem, ops: seq<Op>)
    requires Inv(g, c, m) && InRange(m) && WholeLines(m) && Coherent(g) && AllInLine(ops)
    requires forall i :: 0 <= i < |ops| ==> NonEmpty(ops[i])
    ensures Run(g, c, m, ops).outs == BusRun(View(g, c, m), ops)
    decreases |ops|
  {
    if ops != [] {
      var v := View(g, c, m);
      var (c', m', out) := Perform(g, c, m, ops[0]);
      assert InLineOp(ops[0]) && NonEmpty(ops[0]);
      PerformIsTransparent(g, c, m, ops[0]);
      SameRegionsWhole(m, m');
      SameRegionsWhole(m, v);
      MatchesBusFrom(g, c', m', ops[1..]);
      match ops[0]
      case Read(a, n) =>
        LoadSucceeds(g, c, m, a, n);
        BusReadWhole(v, a, n);
      case Write(a, bs) =>
        StoreSucceeds(g, c, m, a, bs);
        LineAllOrNothing(v, a, bs);
        CompleteStoreIsOverlay(v, a, bs);
        OverlayNothing(v, a, bs);
      case Invalidate(a) => InvalidateSucceeds(g, c, m, a);
      case Flush => FlushSucceeds(g, c, m, 0, 0);
    }
  }

  lemma InvalidateSucceeds(g: Config, c: Contents, m: Mem, a: u32)
    requires Inv(g, c, m) && WholeLines(m)
    ensures InvalidateWithBus(g, c, m, a).out.Some?
  {
    match FindWay(c.sets[SetIndex(g, a)], TagOf(g, a))
    case None =>
    case Some(w) => WriteBackSucceeds(g, c, m, SetIndex(g, a), w);
  }

  /** With whole lines of memory, every outcome of every run, refusals included, is the outcome on
      the bare bus, for every coherent configuration. */
  lemma CacheMatchesBus(g: Config, m: Mem, ops: seq<Op>)
    requires g.Valid() && InRange(m) && WholeLines(m) && Coherent(g) && AllInLine(ops)
    requires forall i :: 0 <= i < |ops| ==> NonEmpty(ops[i])
    ensures Run(g, Empty(g), m, ops).outs == BusRun(m, ops)
  {
    EmptyInv(g, m);
    MatchesBusFrom(g, Empty(g), m, ops);
  }

  // ---- Where transparency ends ----

  /** A cache that holds one clean line, and nothing else. */
  ghost predicate HoldsOnly(g: Config, c: Contents, a: u32, data: seq<byte>)
    requires g.Valid()
  {
    Shaped(g, c) && |data| == LINE_SIZE &&
    c.sets == WithLine(Empty(g), SetIndex(g, a), 0, CacheLine(true, false, TagOf(g, a), data)).sets
  }

  lemma HoldsOnlyFinds(g: Config, c: Contents, a: u32, data: seq<byte>)
    requires g.Valid() && HoldsOnly(g, c, a, data)
    ensures FindWay(c.sets[SetIndex(g, a)], TagOf(g, a)) == Some(0)
    ensures c.sets[SetIndex(g, a)][0] == CacheLine(true, false, TagOf(g, a), data)
  {
  }

  /** The bytes a line would be filled with. */
  lemma LineData(m: Mem, a: u32) returns (data: seq<byte>)
    requires WholeLine(m, a)
    ensures |data| == LINE_SIZE && ReadBlock(m, LineBase(a), LINE_SIZE) == Some(data)
    ensures a in m.bytes && data[LineOffset(a)] == m.bytes[a]
  {
    assert CanRead(m, a);
    forall x | LineBase(a) <= x < LineBase(a) + LINE_SIZE
      ensures CanRead(m, x)
    {
      assert x / LINE_SIZE == a / LINE_SIZE;
    }
    ReadBlockSpec(m, LineBase(a), LINE_SIZE);
    data := ReadBlock(m, LineBase(a), LINE_SIZE).value;
    assert a == LineBase(a) + LineOffset(a) && CanRead(m, a);
  }

  lemma FreshFill(g: Config, c: Contents, m: Mem, a: u32, data: seq<byte>)
    requires Shaped(g, c) && c.sets == Empty(g).sets && ReadBlock(m, LineBase(a), LINE_SIZE) == Some(data)
    ensures FindWay(c.sets[SetIndex(g, a)], TagOf(g, a)).None?
    ensures var r := FillLine(g, c, m, a);
      r.out == Some(0) && r.mem == m && HoldsOnly(g, r.cache, a, data)
  {
    var s := SetIndex(g, a);
    assert forall j :: 0 <= j < g.ways ==> c.sets[s][j] == EMPTY_LINE;
    assert InvalidFrom(c.sets[s], 0) == Some(0);
  }

  /** The first load of an empty cache puts its line in place. */
  lemma FreshLoad(g: Config, c: Contents, m: Mem, a: u32, data: seq<byte>) returns (c': Contents)
    requires Shaped(g, c) && c.sets == Empty(g).sets && ReadBlock(m, LineBase(a), LINE_SIZE) == Some(data)
    ensures HoldsOnly(g, c', a, data) && Perform(g, c, m, Read(a, 1)) == (c', m, Bytes([data[LineOffset(a)]]))
  {
    var missed := c.(stats := ReadMiss(c.stats));
    FreshFill(g, missed, m, a, data);
    c' := FillLine(g, missed, m, a).cache;
    HoldsOnlyFinds(g, c', a, data);
    assert data[LineOffset(a)..LineOffset(a) + 1] == [data[LineOffset(a)]];
  }

  lemma HeldLoad(g: Config, c: Contents, m: Mem, a: u32, data: seq<byte>)
    requires g.Valid() && HoldsOnly(g, c, a, data)
    ensures Perform(g, c, m, Read(a, 1)).2 == Bytes([data[LineOffset(a)]])
  {
    HoldsOnlyFinds(g, c, a, data);
    assert data[LineOffset(a)..LineOffset(a) + 1] == [data[LineOffset(a)]];
  }

  /** A store into the line held, by a cache that does not track dirty lines: the line changes first. */
  lemma HeldStore(g: Config, c: Contents, m: Mem, a: u32, data: seq<byte>, v: byte) returns (c': Contents)
    requires g.Valid() && HoldsOnly(g, c, a, data) && !g.TracksDirty()
    ensures HoldsOnly(g, c', a, Patch(data, LineOffset(a), [v]))
    ensures !g.writePolicy.WriteThrough? ==> Perform(g, c, m, Write(a, [v])) == (c', m, Done)
    ensures g.writePolicy.WriteThrough? && !CanWrite(m, a) ==> Perform(g, c, m, Write(a, [v])) == (c', m, Failed)
  {
    HoldsOnlyFinds(g, c, a, data);
    var s := SetIndex(g, a);
    c' := UpdateLine(g, c.(stats := WriteHit(c.stats)), s, 0, LineOffset(a), [v]);
    var line := CacheLine(true, false, TagOf(g, a), Patch(data, LineOffset(a), [v]));
    assert c'.sets[s] == Empty(g).sets[s][0 := line];
    assert c'.sets == Empty(g).sets[s := Empty(g).sets[s][0 := line]];
  }

  lemma HeldDrop(g: Config, c: Contents, m: Mem, a: u32, data: seq<byte>) returns (c': Contents)
    requires g.Valid() && HoldsOnly(g, c, a, data)
    ensures Shaped(g, c') && c'.sets == Empty(g).sets && Perform(g, c, m, Invalidate(a)) == (c', m, Done)
  {
    HoldsOnlyFinds(g, c, a, data);
    var s := SetIndex(g, a);
    c' := WithLine(c, s, 0, EMPTY_LINE);
    assert c'.sets[s] == Empty(g).sets[s];
    assert c'.sets == Empty(g).sets;
  }

  /** An instruction cache configured to write back never marks its lines dirty, so a store it
      acknowledged is gone once the line leaves the cache: load any byte of any line that can be
      cached, store there, invalidate, and the next load shows the old byte again. */
  lemma InstructionWriteBackLosesStores(g: Config, m: Mem, a: u32, v: byte)
      returns (c1: Contents, c2: Contents, c3: Contents)
    requires g.Valid() && g.cacheType.Instruction? && g.writePolicy.WriteBack? && WholeLine(m, a)
    ensures Shaped(g, c1) && Shaped(g, c2) && Shaped(g, c3) && a in m.bytes
    ensures Perform(g, Empty(g), m, Read(a, 1)) == (c1, m, Bytes([m.bytes[a]]))
    ensures Perform(g, c1, m, Write(a, [v])) == (c2, m, Done)
    ensures Perform(g, c2, m, Invalidate(a)) == (c3, m, Done)
    ensures Perform(g, c3, m, Read(a, 1)).2 == Bytes([m.bytes[a]])
  {
    var data := LineData(m, a);
    c1 := FreshLoad(g, Empty(g), m, a, data);
    c2, c3 := StoreThenDrop(g, c1, m, a, data, v);
    var _ := FreshLoad(g, c3, m, a, data);
  }

  lemma StoreThenDrop(g: Config, c1: Contents, m: Mem, a: u32, data: seq<byte>, v: byte)
      returns (c2: Contents, c3: Contents)
    requires g.Valid() && g.cacheType.Instruction? && g.writePolicy.WriteBack? && HoldsOnly(g, c1, a, data)
    ensures Shaped(g, c2) && Perform(g, c1, m, Write(a, [v])) == (c2, m, Done)
    ensures Shaped(g, c3) && c3.sets == Empty(g).sets && Perform(g, c2, m, Invalidate(a)) == (c3, m, Done)
  {
    c2 := HeldStore(g, c1, m, a, data, v);
    c3 := HeldDrop(g, c2, m, a, Patch(data, LineOffset(a), [v]));
  }

  /** A write-through cache updates its line before it asks the bus: a store the bus refuses is
      reported as failed and still shows in later loads, at any unwritable byte of any line that can
      be cached. */
  lemma WriteThroughShowsRefusedStore(g: Config, m: Mem, a: u32, v: byte) returns (c1: Contents, c2: Contents)
    requires g.Valid() && g.writePolicy.WriteThrough? && WholeLine(m, a) && !CanWrite(m, a)
    ensures Shaped(g, c1) && Shaped(g, c2) && a in m.bytes
    ensures Perform(g, Empty(g), m, Read(a, 1)) == (c1, m, Bytes([m.bytes[a]]))
    ensures Perform(g, c1, m, Write(a, [v])) == (c2, m, Failed)
    ensures Perform(g, c2, m, Read(a, 1)).2 == Bytes([v])
  {
    var data := LineData(m, a);
    c1 := FreshLoad(g, Empty(g), m, a, data);
    c2 := HeldStore(g, c1, m, a, data, v);
    HeldLoad(g, c2, m, a, Patch(data, LineOffset(a), [v]));
  }

  /** A data cache that writes back and does not allocate on stores sends a missing store to the bus; if
      the bus stops half way, a store reported as failed shows in part. */
  lemma AroundShowsPartOfStore(g: Config, m: Mem, a: u32, v: byte, w: byte) returns (c1: Contents, m1: Mem)
    requires g.Valid() && g.writeAllocate.NoWriteAllocate? && WholeLine(m, a) && LineOffset(a) + 2 <= LINE_SIZE
    requires CanWrite(m, a) && !CanWrite(m, a + 1)
    ensures Shaped(g, c1)
    ensures Perform(g, Empty(g), m, Write(a, [v, w])) == (c1, m1, Failed)
    ensures Perform(g, c1, m1, Read(a, 1)).2 == Bytes([v])
  {
    c1 := Empty(g).(stats := WriteMiss(NO_STATS));
    var data0 := LineData(m, a);
    FreshFill(g, c1, m, a, data0);
    m1 := Put(m, a, v);
    OneByteTaken(m, a, v, w);
    SameRegionsWholeLine(m, m1, a);
    var data := LineData(m1, a);
    var _ := FreshLoad(g, c1, m1, a, data);
  }

  lemma OneByteTaken(m: Mem, a: int, v: byte, w: byte)
    requires CanWrite(m, a) && !CanWrite(m, a + 1)
    ensures WriteBlock(m, a, [v, w]) == Stored(Put(m, a, v), false, 1)
  {
    var bs := [v, w];
    assert bs[1..] == [w];
    assert !CanWrite(Put(m, a, v), a + 1);
    assert WriteBlock(Put(m, a, v), a + 1, [w]) == Stored(Put(m, a, v), false, 0);
  }

  // ---- Exactly when a configuration is transparent ----

  /** The memories on which no run can be told from flat memory, configuration by configuration. */
  ghost predicate Transparent(g: Config, m: Mem) {
    if g.writePolicy.WriteThrough? then forall x: u32 :: WholeLine(m, x) ==> CanWrite(m, x)
    else if g.cacheType.Instruction? then forall x: u32 :: !WholeLine(m, x)
    else g.writeAllocate.NoWriteAllocate? ==>
      forall x: u32 :: WholeLine(m, x) && LineOffset(x) + 2 <= LINE_SIZE && CanWrite(m, x) ==> CanWrite(m, x + 1)
  }

  lemma TransparentIsHarmless(g: Config, m: Mem, ops: seq<Op>)
    requires Transparent(g, m) && Coherent(g) && AllInLine(ops)
    ensures AllHarmless(g, m, ops)
  {
    forall i | 0 <= i < |ops| && ops[i].Write?
      ensures Harmless(g, m, ops[i].a, ops[i].bs)
    {
      assert InLineOp(ops[i]);
      LineMates(m, ops[i].a, |ops[i].bs|);
      BreaksNowhere(g, m, ops[i].a, |ops[i].bs|);
    }
  }

  lemma BreaksNowhere(g: Config, m: Mem, a: u32, n: nat)
    requires Transparent(g, m) && Coherent(g) && LineOffset(a) + n <= LINE_SIZE
    ensures WholeLine(m, a) && g.writePolicy.WriteBack? && g.writeAllocate.NoWriteAllocate? ==> NoBreak(m, a, n)
  {
    LineMates(m, a, n);
    forall y | a <= y < a + n - 1
      ensures 0 <= y < 0x1_0000_0000 && LineOffset(y) + 2 <= LINE_SIZE
    {
    }
  }

  /** Where no line can be cached, no load ever delivers anything. */
  lemma {:induction false} NothingDelivered(g: Config, c: Contents, m: Mem, v: Mem, ops: seq<Op>)
    requires Shaped(g, c) && c.sets == Empty(g).sets && AllInLine(ops) && forall x: u32 :: !WholeLine(m, x)
    ensures Explains(v, ops, Run(g, c, m, ops).outs)
    decreases |ops|
  {
    if ops != [] {
      var (c', m', out) := Perform(g, c, m, ops[0]);
      StaysEmpty(g, c, m, ops[0]);
      forall x: u32
        ensures !WholeLine(m', x)
      {
        SameRegionsWholeLine(m, m', x);
      }
      var v' := if ops[0].Write? && out == Done then Overlay(v, ops[0].a, ops[0].bs) else v;
      NothingDelivered(g, c', m', v', ops[1..]);
      FirstOutcome(g, c, m, v, v', ops);
    }
  }

  lemma StaysEmpty(g: Config, c: Contents, m: Mem, op: Op)
    requires Shaped(g, c) && c.sets == Empty(g).sets && InLineOp(op) && forall x: u32 :: !WholeLine(m, x)
    ensures var (c', m', out) := Perform(g, c, m, op);
      c'.sets == Empty(g).sets && !out.Bytes? && (op.Read? ==> out != Done)
  {
    match op
    case Read(a, _) =>
      NeverFilled(g, c.(stats := ReadMiss(c.stats)), m, a);
    case Write(a, _) =>
      NeverFilled(g, c.(stats := WriteMiss(c.stats)), m, a);
    case Invalidate(a) =>
      NeverFilled(g, c, m, a);
    case Flush =>
      FlushOfNothing(g, c, m, 0, 0);
  }

  lemma NeverFilled(g: Config, c: Contents, m: Mem, a: u32)
    requires Shaped(g, c) && c.sets == Empty(g).sets && !WholeLine(m, a)
    ensures FindWay(c.sets[SetIndex(g, a)], TagOf(g, a)).None?
    ensures var f := FillLine(g, c, m, a); f.out.None? && f.cache.sets == c.sets
  {
    var s := SetIndex(g, a);
    assert forall j :: 0 <= j < g.ways ==> c.sets[s][j] == EMPTY_LINE;
    assert InvalidFrom(c.sets[s], 0) == Some(0);
    if FillLine(g, c, m, a).out.Some? { FillNeedsWhole(g, c, m, a); }
  }

  lemma {:induction false} FlushOfNothing(g: Config, c: Contents, m: Mem, s: nat, w: nat)
    requires Shaped(g, c) && c.sets == Empty(g).sets && s <= g.setCount && w <= g.ways
    ensures FlushFrom(g, c, m, s, w).cache.sets == c.sets
    decreases g.setCount - s, g.ways - w
  {
    if s == g.setCount {
    } else if w == g.ways {
      FlushOfNothing(g, c, m, s + 1, 0);
    } else {
      var d := Drop(g, c, m, s, w);
      FlushStep(g, c, m, s, w);
      assert d.cache.sets[s] == c.sets[s];
      assert d.cache.sets == c.sets;
      FlushOfNothing(g, d.cache, d.mem, s, w + 1);
    }
  }

  /** A run that flat memory does not explain. */
  lemma BreakingRun(g: Config, m: Mem) returns (ops: seq<Op>)
    requires g.Valid() && !Transparent(g, m)
    ensures AllInLine(ops) && !Explains(m, ops, Run(g, Empty(g), m, ops).outs)
  {
    if g.writePolicy.WriteThrough? {
      var x: u32 :| WholeLine(m, x) && !CanWrite(m, x);
      ops := RefusedRun(g, m, x);
    } else if g.cacheType.Instruction? {
      var x: u32 :| WholeLine(m, x);
      ops := LostRun(g, m, x);
    } else {
      var x: u32 :| WholeLine(m, x) && LineOffset(x) + 2 <= LINE_SIZE && CanWrite(m, x) && !CanWrite(m, x + 1);
      ops := PartRun(g, m, x);
    }
  }

  function Other(b: byte): byte { if b == 0 then 1 else 0 }

  lemma RefusedRun(g: Config, m: Mem, x: u32) returns (ops: seq<Op>)
    requires g.Valid() && g.writePolicy.WriteThrough? && WholeLine(m, x) && !CanWrite(m, x)
    ensures AllInLine(ops) && !Explains(m, ops, Run(g, Empty(g), m, ops).outs)
  {
    var data := LineData(m, x);
    var c1 := FreshLoad(g, Empty(g), m, x, data);
    ops := RefusedTail(g, c1, m, x, data, Other(m.bytes[x]));
    ops := Prepend(g, Empty(g), m, c1, m, m, Bytes([data[LineOffset(x)]]), Read(x, 1), ops);
  }

  lemma RefusedTail(g: Config, c1: Contents, m: Mem, x: u32, data: seq<byte>, v: byte) returns (ops: seq<Op>)
    requires g.Valid() && g.writePolicy.WriteThrough? && HoldsOnly(g, c1, x, data)
    requires CanRead(m, x) && !CanWrite(m, x) && v != m.bytes[x]
    ensures AllInLine(ops) && !Explains(m, ops, Run(g, c1, m, ops).outs)
  {
    var c2 := HeldStore(g, c1, m, x, data, v);
    HeldLoad(g, c2, m, x, Patch(data, LineOffset(x), [v]));
    ReadOne(m, x);
    ops := LastLoad(g, c2, m, m, x, v);
    ops := Prepend(g, c1, m, c2, m, m, Failed, Write(x, [v]), ops);
  }

  lemma LostRun(g: Config, m: Mem, x: u32) returns (ops: seq<Op>)
    requires g.Valid() && g.cacheType.Instruction? && g.writePolicy.WriteBack? && WholeLine(m, x)
    ensures AllInLine(ops) && !Explains(m, ops, Run(g, Empty(g), m, ops).outs)
  {
    var data := LineData(m, x);
    var c1 := FreshLoad(g, Empty(g), m, x, data);
    ops := LostTail(g, c1, m, x, data, Other(m.bytes[x]));
    ops := Prepend(g, Empty(g), m, c1, m, m, Bytes([data[LineOffset(x)]]), Read(x, 1), ops);
  }

  lemma LostTail(g: Config, c1: Contents, m: Mem, x: u32, data: seq<byte>, v: byte) returns (ops: seq<Op>)
    requires g.Valid() && g.cacheType.Instruction? && g.writePolicy.WriteBack? && HoldsOnly(g, c1, x, data)
    requires ReadBlock(m, LineBase(x), LINE_SIZE) == Some(data) && CanRead(m, x) && v != data[LineOffset(x)]
    ensures AllInLine(ops) && !Explains(m, ops, Run(g, c1, m, ops).outs)
  {
    var c2 := HeldStore(g, c1, m, x, data, v);
    var o := Overlay(m, x, [v]);
    ReadOne(o, x);
    ops := DroppedTail(g, c2, m, o, x, data, Patch(data, LineOffset(x), [v]));
    ops := Prepend(g, c1, m, c2, m, m, Done, Write(x, [v]), ops);
  }

  lemma DroppedTail(g: Config, c2: Contents, m: Mem, o: Mem, x: u32, data: seq<byte>, held: seq<byte>)
      returns (ops: seq<Op>)
    requires g.Valid() && HoldsOnly(g, c2, x, held) && ReadBlock(m, LineBase(x), LINE_SIZE) == Some(data)
    requires ReadBlock(o, x, 1) != Some([data[LineOffset(x)]])
    ensures AllInLine(ops) && !Explains(o, ops, Run(g, c2, m, ops).outs)
  {
    var c3 := HeldDrop(g, c2, m, x, held);
    var _ := FreshLoad(g, c3, m, x, data);
    ops := LastLoad(g, c3, m, o, x, data[LineOffset(x)]);
    ops := Prepend(g, c2, m, c3, m, o, Done, Invalidate(x), ops);
  }

  lemma PartRun(g: Config, m: Mem, x: u32) returns (ops: seq<Op>)
    requires g.Valid() && g.writeAllocate.NoWriteAllocate? && WholeLine(m, x) && LineOffset(x) + 2 <= LINE_SIZE
    requires CanWrite(m, x) && !CanWrite(m, x + 1)
    ensures AllInLine(ops) && !Explains(m, ops, Run(g, Empty(g), m, ops).outs)
  {
    var v := Other(m.bytes[x]);
    var c1, m1 := AroundShowsPartOfStore(g, m, x, v, v);
    ReadOne(m, x);
    ops := LastLoad(g, c1, m1, m, x, v);
    ops := Prepend(g, Empty(g), m, c1, m1, m, Failed, Write(x, [v, v]), ops);
  }

  /** The memory that has to explain what follows an outcome. */
  ghost function Explained(v: Mem, op: Op, out: Outcome): Mem {
    if op.Write? && out == Done then Overlay(v, op.a, op.bs) else v
  }

  /** An operation before a run that is not explained. */
  lemma Prepend(g: Config, c: Contents, m: Mem, c': Contents, m': Mem, v: Mem, out: Outcome, op: Op, rest: seq<Op>)
      returns (ops: seq<Op>)
    requires Shaped(g, c) && Shaped(g, c') && Perform(g, c, m, op) == (c', m', out) && InLineOp(op) && AllInLine(rest)
    requires !Explains(Explained(v, op, out), rest, Run(g, c', m', rest).outs)
    ensures AllInLine(ops) && !Explains(v, ops, Run(g, c, m, ops).outs)
  {
    ops := [op] + rest;
    assert ops[1..] == rest;
    OneOutcome(g, c, m, ops);
    StillUnexplained(v, ops, out, Run(g, c, m, ops).outs);
  }

  lemma StillUnexplained(v: Mem, ops: seq<Op>, out: Outcome, outs: seq<Outcome>)
    requires |ops| == |outs| && ops != [] && outs[0] == out && !Explains(Explained(v, ops[0], out), ops[1..], outs[1..])
    ensures !Explains(v, ops, outs)
  {
  }

  /** A load that delivers another byte than memory holds. */
  lemma LastLoad(g: Config, c: Contents, m: Mem, v: Mem, x: u32, b: byte) returns (ops: seq<Op>)
    requires Shaped(g, c) && Perform(g, c, m, Read(x, 1)).2 == Bytes([b]) && ReadBlock(v, x, 1) != Some([b])
    ensures AllInLine(ops) && !Explains(v, ops, Run(g, c, m, ops).outs)
  {
    ops := [Read(x, 1)];
    OneOutcome(g, c, m, ops);
  }

  lemma OneOutcome(g: Config, c: Contents, m: Mem, ops: seq<Op>)
    requires Shaped(g, c) && ops != []
    ensures var (c', m', out) := Perform(g, c, m, ops[0]); var outs := Run(g, c, m, ops).outs;
      outs[0] == out && outs[1..] == Run(g, c', m', ops[1..]).outs
  {
  }

  lemma ReadOne(m: Mem, a: u32)
    requires CanRead(m, a)
    ensures ReadBlock(m, a, 1) == Some([m.bytes[a]])
  {
    ReadBlockSpec(m, a, 1);
    assert ReadBlock(m, a, 1).value == [m.bytes[a]];
  }

  /** Main result: no run of accesses inside lines can tell the cache from flat memory if and only if
      its configuration suits the memory map.  A data cache that writes back and allocates suits every
      map; one that does not allocate, every map without a line where an unwritable byte follows a
      writable one; a write-through cache, every map whose cacheable lines are writable throughout; an
      instruction cache that writes back, only maps without any cacheable line. */
  lemma TransparentExactlyWhen(g: Config, m: Mem)
    requires g.Valid() && InRange(m)
    ensures (forall ops :: AllInLine(ops) ==> Explains(m, ops, Run(g, Empty(g), m, ops).outs)) <==> Transparent(g, m)
  {
    if Transparent(g, m) {
      forall ops | AllInLine(ops)
        ensures Explains(m, ops, Run(g, Empty(g), m, ops).outs)
      {
        if Coherent(g) {
          TransparentIsHarmless(g, m, ops);
          CacheIsTransparent(g, m, ops);
        } else {
          NothingDelivered(g, Empty(g), m, m, ops);
        }
      }
    } else {
      var ops := BreakingRun(g, m);
    }
  }

  // ---- Exactly when a configuration matches the bus ----

  /** Accesses inside lines that ask for something. */
  predicate Proper(ops: seq<Op>) {
    AllInLine(ops) && forall i :: 0 <= i < |ops| ==> NonEmpty(ops[i])
  }

  /** An operation the bus answers without changing. */
  predicate BusKeeps(m: Mem, op: Op) {
    match op
    case Read(_, _) => true
    case Write(a, bs) => bs != [] && !CanWrite(m, a)
    case _ => false
  }

  lemma DiffersLater(g: Config, c: Contents, m: Mem, c': Contents, op: Op, rest: seq<Op>) returns (ops: seq<Op>)
    requires Shaped(g, c) && Shaped(g, c') && Perform(g, c, m, op).0 == c' && Perform(g, c, m, op).1 == m
    requires InLineOp(op) && NonEmpty(op) && BusKeeps(m, op) && Proper(rest)
    requires Run(g, c', m, rest).outs != BusRun(m, rest)
    ensures Proper(ops) && Run(g, c, m, ops).outs != BusRun(m, ops)
  {
    ops := [op] + rest;
    assert ops[1..] == rest;
    OneOutcome(g, c, m, ops);
    assert BusRun(m, ops)[1..] == BusRun(m, rest);
  }

  lemma DiffersAtOnce(g: Config, c: Contents, m: Mem, op: Op) returns (ops: seq<Op>)
    requires Shaped(g, c) && InLineOp(op) && NonEmpty(op) && Perform(g, c, m, op).2 != BusRun(m, [op])[0]
    ensures Proper(ops) && Run(g, c, m, ops).outs != BusRun(m, ops)
  {
    ops := [op];
    OneOutcome(g, c, m, ops);
  }

  /** The cache cannot load a byte whose line is not all there; the bus can. */
  lemma PartialLineDiffers(g: Config, m: Mem, x: u32) returns (ops: seq<Op>)
    requires g.Valid() && CanRead(m, x) && !WholeLine(m, x)
    ensures Proper(ops) && Run(g, Empty(g), m, ops).outs != BusRun(m, ops)
  {
    NeverFilled(g, Empty(g).(stats := ReadMiss(NO_STATS)), m, x);
    ReadOne(m, x);
    ops := DiffersAtOnce(g, Empty(g), m, Read(x, 1));
  }

  /** A write-back cache takes a store to a line it holds; the bus refuses it. */
  lemma RefusedStoreDiffers(g: Config, c: Contents, m: Mem, x: u32, data: seq<byte>) returns (ops: seq<Op>)
    requires g.Valid() && HoldsOnly(g, c, x, data) && g.writePolicy.WriteBack? && !CanWrite(m, x)
    ensures Proper(ops) && Run(g, c, m, ops).outs != BusRun(m, ops)
  {
    HoldsOnlyFinds(g, c, x, data);
    ops := DiffersAtOnce(g, c, m, Write(x, [0]));
  }

  /** A write-through cache shows a store the bus has refused. */
  lemma ShownStoreDiffers(g: Config, c: Contents, m: Mem, x: u32, data: seq<byte>) returns (ops: seq<Op>)
    requires g.Valid() && HoldsOnly(g, c, x, data) && g.writePolicy.WriteThrough? && CanRead(m, x) && !CanWrite(m, x)
    ensures Proper(ops) && Run(g, c, m, ops).outs != BusRun(m, ops)
  {
    var v := Other(m.bytes[x]);
    var c' := HeldStore(g, c, m, x, data, v);
    HeldLoad(g, c', m, x, Patch(data, LineOffset(x), [v]));
    ReadOne(m, x);
    ops := DiffersAtOnce(g, c', m, Read(x, 1));
    ops := DiffersLater(g, c, m, c', Write(x, [v]), ops);
  }

  /** A run the bare bus would answer otherwise. */
  lemma DifferingRun(g: Config, m: Mem) returns (ops: seq<Op>)
    requires g.Valid() && !WholeLines(m)
    ensures Proper(ops) && Run(g, Empty(g), m, ops).outs != BusRun(m, ops)
  {
    var x: u32, y: u32 :| CanRead(m, x) && x / LINE_SIZE == y / LINE_SIZE && !CanWrite(m, y);
    if !WholeLine(m, x) {
      ops := PartialLineDiffers(g, m, x);
    } else {
      LineMates(m, x, 1);
      assert WholeLine(m, y);
      var data := LineData(m, y);
      var c := FreshLoad(g, Empty(g), m, y, data);
      if g.writePolicy.WriteBack? {
        ops := RefusedStoreDiffers(g, c, m, y, data);
      } else {
        ops := ShownStoreDiffers(g, c, m, y, data);
      }
      ops := DiffersLater(g, Empty(g), m, c, Read(y, 1), ops);
    }
  }

  /** Main result: a data or write-through cache gives every run the very outcomes of the bare bus if and
      only if every line of memory is wholly there and writable, or wholly absent. */
  lemma MatchesBusExactlyWhen(g: Config, m: Mem)
    requires g.Valid() && InRange(m) && Coherent(g)
    ensures (forall ops :: Proper(ops) ==> Run(g, Empty(g), m, ops).outs == BusRun(m, ops)) <==> WholeLines(m)
  {
    if WholeLines(m) {
      forall ops | Proper(ops)
        ensures Run(g, Empty(g), m, ops).outs == BusRun(m, ops)
      {
        CacheMatchesBus(g, m, ops);
      }
    } else {
      var ops := DifferingRun(g, m);
    }
  }
}
