/** The cache itself: an object whose sets, replacement pointers and statistics change in place. */
module CacheDevice {
  import opened Memory
  import opened SystemBus
  import opened CacheSpec
  import opened CacheTheorems
  import B = Bits

  class Cache {
    const g: Config
    const setBits: nat
    const tagLimit: nat
    var sets: seq<seq<CacheLine>>
    var nextVictim: seq<nat>
    var stats: Stats

    ghost function State(): Contents
      reads this
    {
      Contents(sets, nextVictim, stats)
    }

    ghost predicate Valid()
      reads this
    {
      Shaped(g, State()) && setBits <= 27 && g.setCount == B.Pow2(setBits) && tagLimit == B.Pow2(28 - setBits) &&
      forall s, w :: 0 <= s < g.setCount && 0 <= w < g.ways && sets[s][w].valid ==> sets[s][w].tag < tagLimit
    }

    /** Set count and associativity are powers of two; the tag must be left at least one bit. */
    constructor (cacheType: CacheType, writePolicy: WritePolicy, writeAllocate: WriteAllocatePolicy,
                 setBits: nat, wayBits: nat)
      requires setBits <= 27
      ensures Valid() && State() == Empty(g)
      ensures g == Config(cacheType, writePolicy, writeAllocate, B.Pow2(setBits), B.Pow2(wayBits))
    {
      this.setBits := setBits;
      tagLimit := B.Pow2(28 - setBits);
      var geometry := Config(cacheType, writePolicy, writeAllocate, B.Pow2(setBits), B.Pow2(wayBits));
      g := geometry;
      sets := Empty(geometry).sets;
      nextVictim := Empty(geometry).nextVictim;
      stats := NO_STATS;
    }

    // ---- Address arithmetic, in shifts and masks ----

    method SetIndexOf(a: u32) returns (s: nat)
      requires Valid()
      ensures s == SetIndex(g, a)
    {
      B.AndMask(B.Shr(a, 4), setBits);
      assert B.Shr(a, 4) == a / LINE_SIZE;
      s := B.And(B.Shr(a, 4), g.setCount - 1);
    }

    method Tag(a: u32) returns (t: nat)
      requires Valid()
      ensures t == TagOf(g, a) && t < tagLimit
    {
      t := B.Shr(a, 4 + setBits);
      TagInBits(g, setBits, a);
    }

    method BaseFromSetTag(s: nat, tag: nat) returns (base: nat)
      requires Valid() && s < g.setCount && tag < tagLimit
      ensures base == LineBaseFromSetTag(g, s, tag)
    {
      base := B.Or(B.Shl32(tag, 4 + setBits), B.Shl32(s, 4));
      BaseInBits(g, setBits, s, tag);
    }

    // ---- One set ----

    method FindWayIn(s: nat, tag: nat) returns (r: Option<nat>)
      requires Valid() && s < g.setCount
      ensures r == FindWay(sets[s], tag)
    {
      var w := 0;
      while w < g.ways
        invariant 0 <= w <= g.ways
        invariant FindWay(sets[s], tag) == FindFrom(sets[s], tag, w)
      {
        if sets[s][w].valid && sets[s][w].tag == tag { return Some(w); }
        w := w + 1;
      }
      return None;
    }

    method ChooseVictimWay(s: nat) returns (way: nat)
      requires Valid() && s < g.setCount
      modifies this`nextVictim
      ensures Valid()
      ensures var v := ChooseVictim(sets[s], old(nextVictim)[s]);
        way == v.0 && nextVictim == old(nextVictim)[s := v.1]
    {
      var w := 0;
      while w < g.ways
        invariant 0 <= w <= g.ways && nextVictim == old(nextVictim)
        invariant InvalidFrom(sets[s], 0) == InvalidFrom(sets[s], w)
      {
        if !sets[s][w].valid {
          assert nextVictim == old(nextVictim)[s := nextVictim[s]];
          return w;
        }
        w := w + 1;
      }
      way := nextVictim[s];
      nextVictim := nextVictim[s := (way + 1) % g.ways];
    }

    method SetLine(s: nat, w: nat, line: CacheLine)
      requires Valid() && s < g.setCount && w < g.ways && |line.data| == LINE_SIZE &&
        (line.valid ==> line.tag < tagLimit)
      modifies this`sets
      ensures Valid() && State() == WithLine(old(State()), s, w, line)
    {
      sets := sets[s := sets[s][w := line]];
    }

    // ---- Traffic with the bus ----

    method WritebackLine(s: nat, w: nat, bus: Bus) returns (ok: bool)
      requires Valid() && s < g.setCount && w < g.ways
      modifies this, bus
      ensures Valid()
      ensures var r := WriteBackLine(g, old(State()), old(bus.mem), s, w);
        State() == r.cache && bus.mem == r.mem && ok == r.out.Some?
    {
      var line := sets[s][w];
      if !(line.valid && line.dirty && g.cacheType.Data? && g.writePolicy.WriteBack?) { return true; }
      var base := BaseFromSetTag(s, line.tag);
      ok := bus.WriteBytes(base, line.data);
      if !ok { return; }
      SetLine(s, w, line.(dirty := false));
      stats := stats.(writebacks := stats.writebacks + 1);
    }

    method EvictWay(s: nat, way: nat, bus: Bus) returns (ok: bool)
      requires Valid() && s < g.setCount && way < g.ways
      modifies this, bus
      ensures Valid()
      ensures var r := Evict(g, old(State()), old(bus.mem), s, way);
        State() == r.cache && bus.mem == r.mem && ok == r.out.Some?
    {
      if !sets[s][way].valid { return true; }
      stats := stats.(evictions := stats.evictions + 1);
      ok := WritebackLine(s, way, bus);
    }

    /** Read the line of `a` from the bus into way `way` of its set. */
    method InstallLine(a: u32, s: nat, way: nat, bus: Bus) returns (r: Option<nat>)
      requires Valid() && s == SetIndex(g, a) && way < g.ways
      modifies this`sets
      ensures Valid()
      ensures AfterEvict(g, Step(old(State()), bus.mem, Some(())), a, s, way) == Step(State(), bus.mem, r)
    {
      var tag := Tag(a);
      var data := bus.ReadBytes(a - a % LINE_SIZE, LINE_SIZE);
      if data.None? { return None; }
      SetLine(s, way, CacheLine(true, false, tag, data.value));
      return Some(way);
    }

    method FillFrom(a: u32, bus: Bus) returns (r: Option<nat>)
      requires Valid()
      modifies this, bus
      ensures Valid()
      ensures FillLine(g, old(State()), old(bus.mem), a) == Step(State(), bus.mem, r)
    {
      var s := SetIndexOf(a);
      var way := ChooseVictimWay(s);
      assert State() == old(State()).(nextVictim := nextVictim);
      ghost var e := Evict(g, State(), bus.mem, s, way);
      assert FillLine(g, old(State()), old(bus.mem), a) == AfterEvict(g, e, a, s, way);
      var ok := EvictWay(s, way, bus);
      if !ok { return None; }
      r := InstallLine(a, s, way, bus);
    }

    // ---- Loads ----

    method ReadBytesAt(a: u32, n: nat, bus: Bus) returns (r: Option<seq<byte>>)
      requires Valid()
      modifies this, bus
      ensures Valid()
      ensures Load(g, old(State()), old(bus.mem), a, n) == Step(State(), bus.mem, r)
    {
      var s := SetIndexOf(a);
      var tag := Tag(a);
      var offset := a % LINE_SIZE;
      if offset + n > LINE_SIZE {
        stats := ReadMiss(stats);
        r := bus.ReadBytes(a, n);
        return;
      }
      var hit := FindWayIn(s, tag);
      if hit.Some? {
        stats := ReadHit(stats);
        return Some(sets[s][hit.value].data[offset..offset + n]);
      }
      stats := ReadMiss(stats);
      r := LoadFilled(a, n, s, offset, bus);
    }

    /** The rest of a load that missed. */
    method LoadFilled(a: u32, n: nat, s: nat, offset: nat, bus: Bus) returns (r: Option<seq<byte>>)
      requires Valid() && s == SetIndex(g, a) && offset == LineOffset(a) && offset + n <= LINE_SIZE
      modifies this, bus
      ensures Valid()
      ensures var f := FillLine(g, old(State()), old(bus.mem), a);
        State() == f.cache && bus.mem == f.mem && r.Some? == f.out.Some? &&
        (r.Some? ==> r.value == f.cache.sets[s][f.out.value].data[offset..offset + n])
    {
      var way := FillFrom(a, bus);
      if way.None? { return None; }
      return Some(sets[s][way.value].data[offset..offset + n]);
    }

    method ReadByte(a: u32, bus: Bus) returns (r: Option<byte>)
      requires Valid()
      modifies this, bus
      ensures Valid()
      ensures var f := Load(g, old(State()), old(bus.mem), a, 1);
        State() == f.cache && bus.mem == f.mem && r.Some? == f.out.Some? && (r.Some? ==> f.out.value == [r.value])
    {
      var bs := ReadBytesAt(a, 1, bus);
      if bs.None? { return None; }
      return Some(bs.value[0]);
    }

    method ReadHalf(a: u32, bus: Bus) returns (r: Option<nat>)
      requires Valid()
      modifies this, bus
      ensures Valid()
      ensures var f := Load(g, old(State()), old(bus.mem), a, 2);
        State() == f.cache && bus.mem == f.mem && r == if f.out.Some? then Some(FromLE(f.out.value)) else None
    {
      var bs := ReadBytesAt(a, 2, bus);
      if bs.None? { return None; }
      return Some(FromLE(bs.value));
    }

    method ReadWord(a: u32, bus: Bus) returns (r: Option<nat>)
      requires Valid()
      modifies this, bus
      ensures Valid()
      ensures var f := Load(g, old(State()), old(bus.mem), a, 4);
        State() == f.cache && bus.mem == f.mem && r == if f.out.Some? then Some(FromLE(f.out.value)) else None
    {
      var bs := ReadBytesAt(a, 4, bus);
      if bs.None? { return None; }
      return Some(FromLE(bs.value));
    }

    // ---- Stores ----

    method UpdateAt(s: nat, w: nat, offset: nat, bs: seq<byte>)
      requires Valid() && s < g.setCount && w < g.ways && offset + |bs| <= LINE_SIZE
      modifies this`sets
      ensures Valid() && State() == UpdateLine(g, old(State()), s, w, offset, bs)
    {
      var line := sets[s][w];
      var data := line.data;
      var i := 0;
      while i < |bs|
        invariant 0 <= i <= |bs| && data == Patch(line.data, offset, bs[..i])
      {
        data := data[offset + i := bs[i]];
        i := i + 1;
      }
      assert bs[..|bs|] == bs;
      SetLine(s, w, line.(data := data, dirty := line.dirty || g.TracksDirty()));
    }

    method WriteBytes(a: u32, bs: seq<byte>, bus: Bus) returns (ok: bool)
      requires Valid()
      modifies this, bus
      ensures Valid()
      ensures var r := Store(g, old(State()), old(bus.mem), a, bs);
        State() == r.cache && bus.mem == r.mem && ok == r.out.Some?
    {
      var s := SetIndexOf(a);
      var tag := Tag(a);
      var offset := a % LINE_SIZE;
      if offset + |bs| > LINE_SIZE {
        stats := WriteMiss(stats);
        ok := bus.WriteBytes(a, bs);
        return;
      }
      var hit := FindWayIn(s, tag);
      if hit.Some? {
        stats := WriteHit(stats);
        UpdateAt(s, hit.value, offset, bs);
        if g.writePolicy.WriteThrough? {
          ok := bus.WriteBytes(a, bs);
          return;
        }
        return true;
      }
      stats := WriteMiss(stats);
      assert State() == old(State()).(stats := WriteMiss(old(stats)));
      if g.writeAllocate.WriteAllocate? {
        var way := FillFrom(a, bus);
        if way.None? { return false; }
        UpdateAt(s, way.value, offset, bs);
        if g.writePolicy.WriteThrough? {
          ok := bus.WriteBytes(a, bs);
          return;
        }
        return true;
      }
      ok := bus.WriteBytes(a, bs);
    }

    // ---- Invalidation and flush ----

    method DropLine(s: nat, w: nat, bus: Bus) returns (ok: bool)
      requires Valid() && s < g.setCount && w < g.ways
      modifies this, bus
      ensures Valid()
      ensures var r := Drop(g, old(State()), old(bus.mem), s, w);
        State() == r.cache && bus.mem == r.mem && ok == r.out.Some?
    {
      ok := WritebackLine(s, w, bus);
      if ok { SetLine(s, w, EMPTY_LINE); }
    }

    method InvalidateWithBus(a: u32, bus: Bus) returns (ok: bool)
      requires Valid()
      modifies this, bus
      ensures Valid()
      ensures var r := CacheSpec.InvalidateWithBus(g, old(State()), old(bus.mem), a);
        State() == r.cache && bus.mem == r.mem && ok == r.out.Some?
    {
      var s := SetIndexOf(a);
      var tag := Tag(a);
      var hit := FindWayIn(s, tag);
      if hit.None? { return true; }
      ok := DropLine(s, hit.value, bus);
    }

    method FlushAllWithBus(bus: Bus) returns (ok: bool)
      requires Valid()
      modifies this, bus
      ensures Valid()
      ensures var r := CacheSpec.FlushAllWithBus(g, old(State()), old(bus.mem));
        State() == r.cache && bus.mem == r.mem && ok == r.out.Some?
    {
      ghost var flush := FlushAsValue(g);
      ghost var r := FlushFrom(g, State(), bus.mem, 0, 0);
      ok := FlushSets(bus, flush);
      assert r == Step(State(), bus.mem, if ok then Some(()) else None);
    }

    method FlushSets(bus: Bus, ghost flush: FlushFunction) returns (ok: bool)
      requires Valid() && IsFlush(g, flush)
      modifies this, bus
      ensures Valid()
      ensures flush(old(State()), old(bus.mem), 0, 0) == Step(State(), bus.mem, if ok then Some(()) else None)
    {
      ghost var target := flush(State(), bus.mem, 0, 0);
      var s := 0;
      while s < g.setCount
        invariant 0 <= s <= g.setCount && Valid()
        invariant target == flush(State(), bus.mem, s, 0)
      {
        ok := FlushSet(s, bus, flush);
        if !ok { return; }
        s := s + 1;
      }
      FlushDone(g, State(), bus.mem);
      return true;
    }

    method FlushSet(s: nat, bus: Bus, ghost flush: FlushFunction) returns (ok: bool)
      requires Valid() && s < g.setCount && IsFlush(g, flush)
      modifies this, bus
      ensures Valid()
      ensures flush(old(State()), old(bus.mem), s, 0) ==
        if ok then flush(State(), bus.mem, s + 1, 0) else Step(State(), bus.mem, None)
    {
      ghost var target := flush(State(), bus.mem, s, 0);
      var w := 0;
      while w < g.ways
        invariant 0 <= w <= g.ways && Valid()
        invariant target == flush(State(), bus.mem, s, w)
      {
        ok := FlushLine(s, w, bus, flush);
        if !ok { return; }
        w := w + 1;
      }
      FlushNextSet(g, State(), bus.mem, s);
      return true;
    }

    method FlushLine(s: nat, w: nat, bus: Bus, ghost flush: FlushFunction) returns (ok: bool)
      requires Valid() && s < g.setCount && w < g.ways && IsFlush(g, flush)
      modifies this, bus
      ensures Valid()
      ensures flush(old(State()), old(bus.mem), s, w) ==
        if ok then flush(State(), bus.mem, s, w + 1) else Step(State(), bus.mem, None)
    {
      FlushStep(g, State(), bus.mem, s, w);
      ok := DropLine(s, w, bus);
    }

    /** Forget everything, including what was dirty. */
    method Reset()
      requires Valid()
      modifies this
      ensures Valid() && State() == Empty(g)
    {
      sets := Empty(g).sets;
      stats := NO_STATS;
      nextVictim := Empty(g).nextVictim;
    }
  }

  /** Shifting by the offset and set bits leaves the tag, which fits the bits that remain. */
  lemma TagInBits(g: Config, setBits: nat, a: u32)
    requires setBits <= 27 && g.ways > 0 && g.setCount == B.Pow2(setBits)
    ensures B.Shr(a, 4 + setBits) == TagOf(g, a) < B.Pow2(28 - setBits)
  {
    B.Pow2Add(4, setBits);
    assert B.Pow2(4) == 16;
    B.DivDiv(a, 16, g.setCount);
    B.Pow2Add(28 - setBits, setBits);
    Pow28();
    QuotientBelow(a / 16, B.Pow2(28 - setBits), g.setCount);
  }

  lemma Pow28()
    ensures B.Pow2(28) == 0x1000_0000
  {
    assert B.Pow2(8) == 256 && B.Pow2(4) == 16;
    B.Pow2Add(8, 8);
    B.Pow2Add(16, 8);
    B.Pow2Add(24, 4);
  }

  lemma QuotientBelow(x: nat, p: nat, q: nat)
    requires q > 0 && x < p * q
    ensures x / q < p
  {
    var z := x / q;
    assert z * q <= x;
    assert (z - p) * q == z * q - p * q;
    B.MultipleOutside(z - p, q);
  }

  /** Shifting tag and set into place and joining them by `|` is the sum the model uses. */
  lemma BaseInBits(g: Config, setBits: nat, s: nat, tag: nat)
    requires setBits <= 27 && g.setCount == B.Pow2(setBits) && s < g.setCount && tag < B.Pow2(28 - setBits)
    ensures B.Or(B.Shl32(tag, 4 + setBits), B.Shl32(s, 4)) == LineBaseFromSetTag(g, s, tag)
  {
    var p := B.Pow2(setBits);
    ShiftsFit(setBits, s, tag);
    B.OrDisjoint(tag, s * 16, 4 + setBits);
  }

  lemma ShiftsFit(setBits: nat, s: nat, tag: nat)
    requires setBits <= 27 && s < B.Pow2(setBits) && tag < B.Pow2(28 - setBits)
    ensures B.Shl32(s, 4) == s * 16 < B.Pow2(4 + setBits)
    ensures B.Shl32(tag, 4 + setBits) == tag * B.Pow2(4 + setBits) == 16 * (tag * B.Pow2(setBits))
  {
    B.Pow2Add(4, setBits);
    B.Pow2Add(28 - setBits, setBits);
    Pow28();
    var p, p4 := B.Pow2(setBits), B.Pow2(4 + setBits);
    ProductsFit(p, B.Pow2(28 - setBits), s, tag);
    assert B.Pow2(4) == 16 && p4 == 16 * p;
    B.Shl32Fits(s, 4);
    B.Shl32Fits(tag, 4 + setBits);
  }

  lemma ProductsFit(p: nat, q: nat, s: nat, t: nat)
    requires q * p == 0x1000_0000 && s < p && t < q
    ensures s * 16 < 16 * p && s * 16 < 0x1_0000_0000
    ensures t * (16 * p) == 16 * (t * p) < 0x1_0000_0000
  {
    BelowProduct(t, q, s, p);
    B.Scaled(t, p, 16);
  }

  lemma BelowProduct(t: nat, n: nat, s: nat, p: nat)
    requires t < n && s < p
    ensures t * p + s < n * p && s < n * p
  {
    assert (n - t) * p == n * p - t * p;
    B.MultipleOutside(n - t, p);
  }
}
