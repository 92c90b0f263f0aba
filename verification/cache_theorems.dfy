/** What the cache promises: it cannot be told apart from the memory it speeds up. */
module CacheTheorems {
  import opened Memory
  import opened CacheSpec
  import opened Bits

  // ---- Lines and addresses ----

  /** Set and tag rebuild exactly the line they were taken from. */
  lemma LineBaseCovers(g: Config, s: nat, tag: nat, a: u32)
    requires g.Valid() && s < g.setCount
    ensures InLine(g, s, tag, a) <==> LineBaseFromSetTag(g, s, tag) <= a < LineBaseFromSetTag(g, s, tag) + LINE_SIZE
    ensures InLine(g, s, tag, a) ==>
      a - LineBaseFromSetTag(g, s, tag) == LineOffset(a) && LineBase(a) == LineBaseFromSetTag(g, s, tag)
  {
    var n := a / LINE_SIZE;
    if n == tag * g.setCount + s {
      ModUnique(n, tag, s, g.setCount);
    }
  }

  lemma SameLineOffsets(g: Config, s: nat, tag: nat, a: u32, x: u32)
    requires g.Valid() && s < g.setCount && InLine(g, s, tag, a) && InLine(g, s, tag, x)
    ensures x - a == LineOffset(x) - LineOffset(a)
  {
    LineBaseCovers(g, s, tag, a);
    LineBaseCovers(g, s, tag, x);
  }

  // ---- The invariant and the view ----

  /** A valid line holds mapped bytes; a clean one holds what memory holds. */
  ghost predicate LineOk(g: Config, m: Mem, s: nat, line: CacheLine)
    requires g.Valid() && |line.data| == LINE_SIZE
  {
    line.valid ==>
      LineBaseFromSetTag(g, s, line.tag) < 0x1_0000_0000 &&
      forall a: u32 :: InLine(g, s, line.tag, a) ==>
        CanRead(m, a) && (!line.dirty ==> line.data[LineOffset(a)] == m.bytes[a])
  }

  ghost predicate Inv(g: Config, c: Contents, m: Mem) {
    Shaped(g, c) &&
    (forall s, w :: 0 <= s < g.setCount && 0 <= w < g.ways ==>
      LineOk(g, m, s, c.sets[s][w]) && (c.sets[s][w].dirty ==> g.TracksDirty())) &&
    (forall s :: 0 <= s < g.setCount ==> UniqueTags(c.sets[s]))
  }

  ghost predicate UniqueTags(lines: seq<CacheLine>) {
    forall i, j :: 0 <= i < j < |lines| && lines[i].valid && lines[j].valid ==> lines[i].tag != lines[j].tag
  }

  /** The byte a read at `a` would deliver: from the line that holds it, else from memory. */
  ghost function Peek(g: Config, c: Contents, m: Mem, a: u32): byte
    requires Shaped(g, c) && a in m.bytes
  {
    match FindWay(c.sets[SetIndex(g, a)], TagOf(g, a))
    case Some(w) => c.sets[SetIndex(g, a)][w].data[LineOffset(a)]
    case None => m.bytes[a]
  }

  /** Both states look the same through the cache. */
  ghost predicate SameView(g: Config, c: Contents, m: Mem, c': Contents, m': Mem)
    requires Shaped(g, c) && Shaped(g, c') && SameRegions(m, m')
  {
    forall a: u32 :: CanRead(m, a) ==> Peek(g, c, m, a) == Peek(g, c', m', a)
  }

  lemma FindsHolder(lines: seq<CacheLine>, w: nat)
    requires UniqueTags(lines) && w < |lines| && lines[w].valid
    ensures FindWay(lines, lines[w].tag) == Some(w)
  {
  }

  lemma FindWayFrame(lines: seq<CacheLine>, lines': seq<CacheLine>, tag: nat)
    requires |lines| == |lines'|
    requires forall i :: 0 <= i < |lines| ==>
      (lines[i].valid && lines[i].tag == tag <==> lines'[i].valid && lines'[i].tag == tag)
    ensures FindWay(lines, tag) == FindWay(lines', tag)
  {
  }

  // ---- Write-back ----

  /** What one write-back, complete or cut short, does to memory. */
  lemma WriteBackBytes(g: Config, m: Mem, s: nat, line: CacheLine, a: u32)
    requires g.Valid() && s < g.setCount && |line.data| == LINE_SIZE && CanRead(m, a)
    ensures var r := WriteBlock(m, LineBaseFromSetTag(g, s, line.tag), line.data);
      r.mem.bytes[a] == m.bytes[a] || (InLine(g, s, line.tag, a) && r.mem.bytes[a] == line.data[LineOffset(a)])
    ensures var r := WriteBlock(m, LineBaseFromSetTag(g, s, line.tag), line.data);
      r.ok && InLine(g, s, line.tag, a) ==> r.mem.bytes[a] == line.data[LineOffset(a)]
  {
    LineBaseCovers(g, s, line.tag, a);
    WriteBlockSpec(m, LineBaseFromSetTag(g, s, line.tag), line.data);
  }

  lemma WriteBackKeeps(g: Config, c: Contents, m: Mem, s: nat, w: nat)
    requires Inv(g, c, m) && s < g.setCount && w < g.ways
    ensures var r := WriteBackLine(g, c, m, s, w);
      Inv(g, r.cache, r.mem) && SameView(g, c, m, r.cache, r.mem) &&
      (r.out.Some? ==> !r.cache.sets[s][w].valid || !r.cache.sets[s][w].dirty)
  {
    var line := c.sets[s][w];
    if line.valid && line.dirty && g.TracksDirty() {
      WriteBackInv(g, c, m, s, w);
      WriteBackView(g, c, m, s, w);
    }
  }

  lemma WriteBackInv(g: Config, c: Contents, m: Mem, s: nat, w: nat)
    requires Inv(g, c, m) && s < g.setCount && w < g.ways
    requires c.sets[s][w].valid && c.sets[s][w].dirty && g.TracksDirty()
    ensures var r := WriteBackLine(g, c, m, s, w); Inv(g, r.cache, r.mem)
  {
    var r, line := WriteBackLine(g, c, m, s, w), c.sets[s][w];
    forall s', w' | 0 <= s' < g.setCount && 0 <= w' < g.ways
      ensures LineOk(g, r.mem, s', r.cache.sets[s'][w'])
    {
      var other := r.cache.sets[s'][w'];
      assert LineOk(g, m, s', c.sets[s'][w']);
      forall a: u32 | other.valid && InLine(g, s', other.tag, a)
        ensures CanRead(r.mem, a) && (!other.dirty ==> other.data[LineOffset(a)] == r.mem.bytes[a])
      {
        WriteBackBytes(g, m, s, line, a);
      }
    }
  }

  lemma WriteBackView(g: Config, c: Contents, m: Mem, s: nat, w: nat)
    requires Inv(g, c, m) && s < g.setCount && w < g.ways
    requires c.sets[s][w].valid && c.sets[s][w].dirty && g.TracksDirty()
    ensures var r := WriteBackLine(g, c, m, s, w); SameView(g, c, m, r.cache, r.mem)
  {
    var r, line := WriteBackLine(g, c, m, s, w), c.sets[s][w];
    forall a: u32 | CanRead(m, a)
      ensures Peek(g, c, m, a) == Peek(g, r.cache, r.mem, a)
    {
      WriteBackBytes(g, m, s, line, a);
      FindWayFrame(c.sets[SetIndex(g, a)], r.cache.sets[SetIndex(g, a)], TagOf(g, a));
      FindsHolder(c.sets[s], w);
    }
  }

  // ---- Fills ----

  lemma EvictKeeps(g: Config, c: Contents, m: Mem, s: nat, w: nat)
    requires Inv(g, c, m) && s < g.setCount && w < g.ways
    ensures var r := Evict(g, c, m, s, w);
      Inv(g, r.cache, r.mem) && SameView(g, c, m, r.cache, r.mem) &&
      (r.out.Some? ==> !r.cache.sets[s][w].valid || !r.cache.sets[s][w].dirty) &&
      (forall j :: 0 <= j < g.ways ==>
        r.cache.sets[s][j].valid == c.sets[s][j].valid && r.cache.sets[s][j].tag == c.sets[s][j].tag)
  {
    var c' := c.(stats := c.stats.(evictions := c.stats.evictions + 1));
    WriteBackKeeps(g, c', m, s, w);
    assert SameView(g, c, m, c', m);
  }

  /** Replacing a line that memory already agrees with by another copy of memory changes nothing. */
  lemma ReplaceKeeps(g: Config, c: Contents, m: Mem, s: nat, w: nat, line: CacheLine)
    requires Inv(g, c, m) && s < g.setCount && w < g.ways && |line.data| == LINE_SIZE
    requires c.sets[s][w].valid ==> !c.sets[s][w].dirty
    requires !line.dirty && LineOk(g, m, s, line)
    requires line.valid ==> forall j :: 0 <= j < g.ways && j != w && c.sets[s][j].valid ==> c.sets[s][j].tag != line.tag
    ensures Inv(g, WithLine(c, s, w, line), m) && SameView(g, c, m, WithLine(c, s, w, line), m)
  {
    var c' := WithLine(c, s, w, line);
    var old_ := c.sets[s][w];
    forall a: u32 | CanRead(m, a)
      ensures Peek(g, c, m, a) == Peek(g, c', m, a)
    {
      var t := TagOf(g, a);
      if SetIndex(g, a) == s {
        if line.valid && t == line.tag { FindsHolder(c'.sets[s], w); }
        if old_.valid && t == old_.tag { FindsHolder(c.sets[s], w); }
        if !(line.valid && t == line.tag) && !(old_.valid && t == old_.tag) {
          FindWayFrame(c.sets[s], c'.sets[s], t);
        }
      }
    }
  }

  /** A line freshly read from memory is a faithful clean copy. */
  lemma FilledLineOk(g: Config, m: Mem, a: u32, data: seq<byte>)
    requires g.Valid() && ReadBlock(m, LineBase(a), LINE_SIZE) == Some(data)
    ensures LineOk(g, m, SetIndex(g, a), CacheLine(true, false, TagOf(g, a), data))
  {
    var s, t := SetIndex(g, a), TagOf(g, a);
    LineBaseCovers(g, s, t, a);
    ReadBlockSpec(m, LineBase(a), LINE_SIZE);
    forall x: u32 | InLine(g, s, t, x)
      ensures CanRead(m, x) && data[LineOffset(x)] == m.bytes[x]
    {
      LineBaseCovers(g, s, t, x);
    }
  }

  lemma InstallKeeps(g: Config, c: Contents, m: Mem, a: u32, w: nat, data: seq<byte>)
    requires Inv(g, c, m) && w < g.ways && FindWay(c.sets[SetIndex(g, a)], TagOf(g, a)).None?
    requires c.sets[SetIndex(g, a)][w].valid ==> !c.sets[SetIndex(g, a)][w].dirty
    requires ReadBlock(m, LineBase(a), LINE_SIZE) == Some(data)
    ensures var c' := WithLine(c, SetIndex(g, a), w, CacheLine(true, false, TagOf(g, a), data));
      Inv(g, c', m) && SameView(g, c, m, c', m) && FindWay(c'.sets[SetIndex(g, a)], TagOf(g, a)) == Some(w)
  {
    var s, line := SetIndex(g, a), CacheLine(true, false, TagOf(g, a), data);
    FilledLineOk(g, m, a, data);
    ReplaceKeeps(g, c, m, s, w, line);
    FindsHolder(WithLine(c, s, w, line).sets[s], w);
  }

  lemma FillKeeps(g: Config, c: Contents, m: Mem, a: u32)
    requires Inv(g, c, m) && FindWay(c.sets[SetIndex(g, a)], TagOf(g, a)).None?
    ensures var r := FillLine(g, c, m, a);
      Inv(g, r.cache, r.mem) && SameView(g, c, m, r.cache, r.mem) &&
      (r.out.Some? ==> FindWay(r.cache.sets[SetIndex(g, a)], TagOf(g, a)) == r.out)
  {
    var s, t := SetIndex(g, a), TagOf(g, a);
    var (w, next) := ChooseVictim(c.sets[s], c.nextVictim[s]);
    var c1 := c.(nextVictim := c.nextVictim[s := next]);
    assert Inv(g, c1, m) && SameView(g, c, m, c1, m);
    EvictKeeps(g, c1, m, s, w);
    var e := Evict(g, c1, m, s, w);
    FindWayFrame(c.sets[s], e.cache.sets[s], t);
    var block := ReadBlock(e.mem, LineBase(a), LINE_SIZE);
    if e.out.Some? && block.Some? {
      InstallKeeps(g, e.cache, e.mem, a, w, block.value);
    }
  }

  // ---- The view as a memory ----

  /** The flat memory the cache stands for: what is cached, laid over what is not. */
  ghost function View(g: Config, c: Contents, m: Mem): (v: Mem)
    requires Shaped(g, c)
    ensures SameRegions(m, v)
  {
    Mem(map x | x in m.bytes :: if CanRead(m, x) then Peek(g, c, m, x) else m.bytes[x], m.writable)
  }

  ghost function Overlay(v: Mem, a: int, bs: seq<byte>): (r: Mem)
    ensures SameRegions(v, r)
  {
    Mem(map x | x in v.bytes :: if a <= x < a + |bs| then bs[x - a] else v.bytes[x], v.writable)
  }

  lemma CompleteStoreIsOverlay(m: Mem, a: int, bs: seq<byte>)
    ensures WriteBlock(m, a, bs).mem == Overlay(m, a, bs[..WriteBlock(m, a, bs).count])
    ensures WriteBlock(m, a, bs).ok ==> WriteBlock(m, a, bs).mem == Overlay(m, a, bs)
  {
    var r := WriteBlock(m, a, bs);
    WriteBlockSpec(m, a, bs);
    assert r.mem.bytes == Overlay(m, a, bs[..r.count]).bytes;
    if r.ok { assert bs[..r.count] == bs; }
  }

  lemma ViewIsOverlay(g: Config, c: Contents, m: Mem, c': Contents, m': Mem, a: u32, bs: seq<byte>)
    requires Shaped(g, c) && Shaped(g, c') && SameRegions(m, m') && a + |bs| <= 0x1_0000_0000
    requires forall x: u32 :: CanRead(m, x) ==>
      Peek(g, c', m', x) == if a <= x < a + |bs| then bs[x - a] else Peek(g, c, m, x)
    requires forall x :: x in m.bytes && !CanRead(m, x) ==> m'.bytes[x] == m.bytes[x]
    ensures View(g, c', m') == Overlay(View(g, c, m), a, bs)
  {
    var v, v' := Overlay(View(g, c, m), a, bs), View(g, c', m');
    forall x | x in m.bytes
      ensures v'.bytes[x] == v.bytes[x]
    {
      if CanRead(m, x) {
        assert Peek(g, c', m', x) == if a <= x < a + |bs| then bs[x - a] else Peek(g, c, m, x);
      }
    }
    assert v'.bytes == v.bytes;
  }

  /** Bytes of one access all belong to the line of its address. */
  lemma AccessInLine(g: Config, a: u32, n: nat, x: int)
    requires g.Valid() && LineOffset(a) + n <= LINE_SIZE && a <= x < a + n
    ensures x < 0x1_0000_0000 && InLine(g, SetIndex(g, a), TagOf(g, a), x)
    ensures LineOffset(x) == LineOffset(a) + (x - a)
  {
    assert x / LINE_SIZE == a / LINE_SIZE;
  }

  // ---- Stores ----

  /** A store into the line that holds its address, when the cache writes back. */
  lemma UpdateKeeps(g: Config, c: Contents, m: Mem, a: u32, w: nat, bs: seq<byte>)
    requires Inv(g, c, m) && g.TracksDirty() && LineOffset(a) + |bs| <= LINE_SIZE
    requires FindWay(c.sets[SetIndex(g, a)], TagOf(g, a)) == Some(w)
    ensures var c' := UpdateLine(g, c, SetIndex(g, a), w, LineOffset(a), bs);
      Inv(g, c', m) && View(g, c', m) == Overlay(View(g, c, m), a, bs)
  {
    var c' := UpdateLine(g, c, SetIndex(g, a), w, LineOffset(a), bs);
    UpdatedPeek(g, c, m, m, a, w, bs);
    ViewIsOverlay(g, c, m, c', m, a, bs);
  }

  /** What an updated line shows, whatever happens to the memory behind it. */
  lemma UpdatedPeek(g: Config, c: Contents, m: Mem, m': Mem, a: u32, w: nat, bs: seq<byte>)
    requires Inv(g, c, m) && LineOffset(a) + |bs| <= LINE_SIZE && SameRegions(m, m')
    requires FindWay(c.sets[SetIndex(g, a)], TagOf(g, a)) == Some(w)
    requires forall x :: CanRead(m, x) && !(a <= x < a + |bs|) ==> m'.bytes[x] == m.bytes[x]
    ensures var c' := UpdateLine(g, c, SetIndex(g, a), w, LineOffset(a), bs);
      forall x: u32 :: CanRead(m, x) ==>
        Peek(g, c', m', x) == if a <= x < a + |bs| then bs[x - a] else Peek(g, c, m, x)
  {
    var s, t := SetIndex(g, a), TagOf(g, a);
    var c' := UpdateLine(g, c, s, w, LineOffset(a), bs);
    forall x: u32 | CanRead(m, x)
      ensures Peek(g, c', m', x) == if a <= x < a + |bs| then bs[x - a] else Peek(g, c, m, x)
    {
      FindWayFrame(c.sets[SetIndex(g, x)], c'.sets[SetIndex(g, x)], TagOf(g, x));
      if a <= x < a + |bs| { AccessInLine(g, a, |bs|, x); }
      if InLine(g, s, t, x) {
        SameLineOffsets(g, s, t, a, x);
      }
    }
  }

  /** The same store when the cache writes through and the bus takes every byte. */
  lemma UpdateThroughKeeps(g: Config, c: Contents, m: Mem, a: u32, w: nat, bs: seq<byte>)
    requires Inv(g, c, m) && LineOffset(a) + |bs| <= LINE_SIZE && !g.TracksDirty()
    requires FindWay(c.sets[SetIndex(g, a)], TagOf(g, a)) == Some(w)
    requires WriteBlock(m, a, bs).ok
    ensures var c' := UpdateLine(g, c, SetIndex(g, a), w, LineOffset(a), bs);
      var m' := WriteBlock(m, a, bs).mem;
      Inv(g, c', m') && View(g, c', m') == Overlay(View(g, c, m), a, bs)
  {
    WriteBlockSpec(m, a, bs);
    UpdateThroughInv(g, c, m, a, w, bs);
    UpdateThroughView(g, c, m, WriteBlock(m, a, bs).mem, a, w, bs);
  }

  lemma UpdateThroughView(g: Config, c: Contents, m: Mem, m': Mem, a: u32, w: nat, bs: seq<byte>)
    requires Inv(g, c, m) && LineOffset(a) + |bs| <= LINE_SIZE && Overlaid(m, m', a, bs, |bs|)
    requires FindWay(c.sets[SetIndex(g, a)], TagOf(g, a)) == Some(w)
    requires forall x :: a <= x < a + |bs| ==> CanWrite(m, x)
    ensures View(g, UpdateLine(g, c, SetIndex(g, a), w, LineOffset(a), bs), m') == Overlay(View(g, c, m), a, bs)
  {
    UpdatedPeek(g, c, m, m', a, w, bs);
    ViewIsOverlay(g, c, m, UpdateLine(g, c, SetIndex(g, a), w, LineOffset(a), bs), m', a, bs);
  }

  lemma UpdateThroughInv(g: Config, c: Contents, m: Mem, a: u32, w: nat, bs: seq<byte>)
    requires Inv(g, c, m) && LineOffset(a) + |bs| <= LINE_SIZE && !g.TracksDirty()
    requires FindWay(c.sets[SetIndex(g, a)], TagOf(g, a)) == Some(w)
    requires WriteBlock(m, a, bs).ok
    ensures Inv(g, UpdateLine(g, c, SetIndex(g, a), w, LineOffset(a), bs), WriteBlock(m, a, bs).mem)
  {
    var s := SetIndex(g, a);
    var c' := UpdateLine(g, c, s, w, LineOffset(a), bs);
    var m' := WriteBlock(m, a, bs).mem;
    WriteBlockSpec(m, a, bs);
    assert forall x :: CanRead(m, x) && !(a <= x < a + |bs|) ==> m'.bytes[x] == m.bytes[x];
    UpdatedLineOk(g, m, m', s, c.sets[s][w], a, bs);
    forall s', w' | 0 <= s' < g.setCount && 0 <= w' < g.ways
      ensures LineOk(g, m', s', c'.sets[s'][w']) && !c'.sets[s'][w'].dirty
    {
      if s' == s && w' == w {
      } else {
        OtherLineOk(g, m, m', s', c.sets[s'][w'], a, |bs|);
      }
    }
  }

  lemma UpdatedLineOk(g: Config, m: Mem, m': Mem, s: nat, line: CacheLine, a: u32, bs: seq<byte>)
    requires g.Valid() && s < g.setCount && |line.data| == LINE_SIZE && LineOk(g, m, s, line) && line.valid
    requires InLine(g, s, line.tag, a) && LineOffset(a) + |bs| <= LINE_SIZE
    requires Overlaid(m, m', a, bs, |bs|)
    ensures LineOk(g, m', s, line.(data := Patch(line.data, LineOffset(a), bs)))
  {
    var data := Patch(line.data, LineOffset(a), bs);
    forall x: u32 | InLine(g, s, line.tag, x)
      ensures CanRead(m', x) && (!line.dirty ==> data[LineOffset(x)] == m'.bytes[x])
    {
      assert CanRead(m, x);
      var i, i0 := LineOffset(x), LineOffset(a);
      assert x - a == i - i0 by { SameLineOffsets(g, s, line.tag, a, x); }
      assert data[i] == if i0 <= i < i0 + |bs| then bs[i - i0] else line.data[i];
    }
  }

  lemma OtherLineOk(g: Config, m: Mem, m': Mem, s: nat, line: CacheLine, a: u32, n: nat)
    requires g.Valid() && |line.data| == LINE_SIZE && LineOk(g, m, s, line) && SameRegions(m, m')
    requires LineOffset(a) + n <= LINE_SIZE
    requires forall x :: CanRead(m, x) && !(a <= x < a + n) ==> m'.bytes[x] == m.bytes[x]
    requires !(line.valid && s == SetIndex(g, a) && line.tag == TagOf(g, a))
    ensures LineOk(g, m', s, line)
  {
    forall x: u32 | line.valid && InLine(g, s, line.tag, x)
      ensures CanRead(m', x) && m'.bytes[x] == m.bytes[x]
    {
      assert CanRead(m, x);
      if a <= x < a + n { AccessInLine(g, a, n, x); assert false; }
    }
  }

  /** A store that goes past the cache because its line is not cached: exactly a bus store. */
  lemma AroundKeeps(g: Config, c: Contents, m: Mem, a: u32, bs: seq<byte>)
    requires Inv(g, c, m) && LineOffset(a) + |bs| <= LINE_SIZE
    requires FindWay(c.sets[SetIndex(g, a)], TagOf(g, a)).None?
    ensures var r := WriteBlock(m, a, bs);
      Inv(g, c, r.mem) && View(g, c, r.mem) == Overlay(View(g, c, m), a, bs[..r.count])
  {
    var r := WriteBlock(m, a, bs);
    WriteBlockSpec(m, a, bs);
    assert forall x :: CanRead(m, x) && !(a <= x < a + |bs|) ==> r.mem.bytes[x] == m.bytes[x];
    forall s, w | 0 <= s < g.setCount && 0 <= w < g.ways
      ensures LineOk(g, r.mem, s, c.sets[s][w])
    {
      OtherLineOk(g, m, r.mem, s, c.sets[s][w], a, |bs|);
    }
    AroundView(g, c, m, r.mem, a, bs[..r.count]);
  }

  lemma AroundView(g: Config, c: Contents, m: Mem, m': Mem, a: u32, bs: seq<byte>)
    requires Shaped(g, c) && LineOffset(a) + |bs| <= LINE_SIZE
    requires Overlaid(m, m', a, bs, |bs|) && forall x :: a <= x < a + |bs| ==> CanWrite(m, x)
    requires FindWay(c.sets[SetIndex(g, a)], TagOf(g, a)).None?
    ensures View(g, c, m') == Overlay(View(g, c, m), a, bs)
  {
    forall x: u32 | CanRead(m, x)
      ensures Peek(g, c, m', x) == if a <= x < a + |bs| then bs[x - a] else Peek(g, c, m, x)
    {
      if a <= x < a + |bs| { AccessInLine(g, a, |bs|, x); }
    }
    ViewIsOverlay(g, c, m, c, m', a, bs);
  }

  // ---- Whole operations ----

  lemma SameViewSame(g: Config, c: Contents, m: Mem, c': Contents, m': Mem)
    requires Shaped(g, c) && Shaped(g, c') && SameRegions(m, m') && SameView(g, c, m, c', m')
    requires forall x :: x in m.bytes && !CanRead(m, x) ==> m'.bytes[x] == m.bytes[x]
    ensures View(g, c, m) == View(g, c', m')
  {
    var v, v' := View(g, c, m), View(g, c', m');
    forall x | x in m.bytes
      ensures v.bytes[x] == v'.bytes[x]
    {
      if CanRead(m, x) {
        assert Peek(g, c, m, x) == Peek(g, c', m', x);
      }
    }
    assert v.bytes == v'.bytes;
  }

  /** The regions of a real memory all lie in the 32-bit address space. */
  ghost predicate InRange(m: Mem) {
    forall x :: x in m.bytes ==> CanRead(m, x)
  }

  /** A line in the cache shows the bytes a flat memory read would deliver. */
  lemma CachedBytes(g: Config, c: Contents, m: Mem, a: u32, n: nat, w: nat)
    requires Inv(g, c, m) && LineOffset(a) + n <= LINE_SIZE
    requires FindWay(c.sets[SetIndex(g, a)], TagOf(g, a)) == Some(w)
    ensures ReadBlock(View(g, c, m), a, n) ==
      Some(c.sets[SetIndex(g, a)][w].data[LineOffset(a)..LineOffset(a) + n])
  {
    var s, v := SetIndex(g, a), View(g, c, m);
    var line := c.sets[s][w];
    var bs := line.data[LineOffset(a)..LineOffset(a) + n];
    assert LineOk(g, m, s, line);
    forall x | a <= x < a + n
      ensures CanRead(v, x) && v.bytes[x] == bs[x - a]
    {
      AccessInLine(g, a, n, x);
      assert CanRead(m, x);
    }
    ReadBlockSpec(v, a, n);
    SameBlock(v, a, ReadBlock(v, a, n).value, bs);
  }

  /** A load never changes the view, and delivers what the view holds. */
  lemma LoadIsTransparent(g: Config, c: Contents, m: Mem, a: u32, n: nat)
    requires Inv(g, c, m) && InRange(m) && LineOffset(a) + n <= LINE_SIZE
    ensures var r := Load(g, c, m, a, n);
      Inv(g, r.cache, r.mem) && View(g, r.cache, r.mem) == View(g, c, m) &&
      (r.out.Some? ==> ReadBlock(View(g, c, m), a, n) == r.out)
  {
    var s, t := SetIndex(g, a), TagOf(g, a);
    var r := Load(g, c, m, a, n);
    match FindWay(c.sets[s], t)
    case Some(w) =>
      CachedBytes(g, c, m, a, n, w);
      SameViewSame(g, c, m, r.cache, m);
    case None =>
      var missed := c.(stats := ReadMiss(c.stats));
      assert Inv(g, missed, m) && SameView(g, c, m, missed, m);
      FillKeeps(g, missed, m, a);
      SameViewSame(g, c, m, r.cache, r.mem);
      if r.out.Some? {
        CachedBytes(g, r.cache, r.mem, a, n, FillLine(g, missed, m, a).out.value);
      }
  }

  /** Bus stores of this configuration reach memory that accepts them. */
  ghost predicate StoreAccepted(g: Config, m: Mem, a: int, n: nat) {
    g.writePolicy.WriteThrough? ==> forall x :: a <= x < a + n && CanRead(m, x) ==> CanWrite(m, x)
  }

  /** Everything but an instruction cache that claims to write back. */
  predicate Coherent(g: Config) {
    g.writePolicy.WriteThrough? || g.cacheType.Data?
  }

  /** A completed store lays its bytes over the view.  A failed one leaves the view alone when the
      cache allocates on stores; otherwise it leaves what the bare bus would have left. */
  lemma StoreIsTransparent(g: Config, c: Contents, m: Mem, a: u32, bs: seq<byte>)
    requires Inv(g, c, m) && InRange(m) && LineOffset(a) + |bs| <= LINE_SIZE
    requires Coherent(g) && StoreAccepted(g, m, a, |bs|)
    ensures var r := Store(g, c, m, a, bs);
      Inv(g, r.cache, r.mem) &&
      View(g, r.cache, r.mem) == (
        if r.out.Some? then Overlay(View(g, c, m), a, bs)
        else if g.writeAllocate.WriteAllocate? then View(g, c, m)
        else Overlay(View(g, c, m), a, bs[..WriteBlock(m, a, bs).count]))
  {
    match FindWay(c.sets[SetIndex(g, a)], TagOf(g, a))
    case Some(w) => StoreHits(g, c, m, a, w, bs);
    case None =>
      if g.writeAllocate.NoWriteAllocate? { StoreGoesAround(g, c, m, a, bs); } else { StoreMisses(g, c, m, a, bs); }
  }

  lemma StoreGoesAround(g: Config, c: Contents, m: Mem, a: u32, bs: seq<byte>)
    requires Inv(g, c, m) && LineOffset(a) + |bs| <= LINE_SIZE && g.writeAllocate.NoWriteAllocate?
    requires FindWay(c.sets[SetIndex(g, a)], TagOf(g, a)).None?
    ensures var r := Store(g, c, m, a, bs);
      Inv(g, r.cache, r.mem) &&
      View(g, r.cache, r.mem) ==
        Overlay(View(g, c, m), a, if r.out.Some? then bs else bs[..WriteBlock(m, a, bs).count])
  {
    var missed := c.(stats := WriteMiss(c.stats));
    StatsKeep(g, c, m, missed.stats);
    AroundKeeps(g, missed, m, a, bs);
    if WriteBlock(m, a, bs).ok { assert bs[..|bs|] == bs; }
  }

  lemma StoreMisses(g: Config, c: Contents, m: Mem, a: u32, bs: seq<byte>)
    requires Inv(g, c, m) && InRange(m) && LineOffset(a) + |bs| <= LINE_SIZE && g.writeAllocate.WriteAllocate?
    requires Coherent(g) && StoreAccepted(g, m, a, |bs|)
    requires FindWay(c.sets[SetIndex(g, a)], TagOf(g, a)).None?
    ensures var r := Store(g, c, m, a, bs);
      Inv(g, r.cache, r.mem) &&
      View(g, r.cache, r.mem) == if r.out.Some? then Overlay(View(g, c, m), a, bs) else View(g, c, m)
  {
    var missed := c.(stats := WriteMiss(c.stats));
    StatsKeep(g, c, m, missed.stats);
    StoreAllocates(g, missed, m, a, bs);
  }

  lemma StatsKeep(g: Config, c: Contents, m: Mem, stats: Stats)
    requires Inv(g, c, m)
    ensures Inv(g, c.(stats := stats), m) && View(g, c.(stats := stats), m) == View(g, c, m)
  {
  }

  lemma StoreHits(g: Config, c: Contents, m: Mem, a: u32, w: nat, bs: seq<byte>)
    requires Inv(g, c, m) && LineOffset(a) + |bs| <= LINE_SIZE && Coherent(g) && StoreAccepted(g, m, a, |bs|)
    requires FindWay(c.sets[SetIndex(g, a)], TagOf(g, a)) == Some(w)
    ensures var r := Store(g, c, m, a, bs);
      r.out.Some? && CanRead(m, a) && Inv(g, r.cache, r.mem) && View(g, r.cache, r.mem) == Overlay(View(g, c, m), a, bs)
  {
    StatsKeep(g, c, m, WriteHit(c.stats));
    StoreIntoLine(g, c.(stats := WriteHit(c.stats)), m, a, w, bs);
    assert LineOk(g, m, SetIndex(g, a), c.sets[SetIndex(g, a)][w]);
  }

  /** A store miss with allocation: fill the line, then store into it. */
  lemma StoreAllocates(g: Config, c: Contents, m: Mem, a: u32, bs: seq<byte>)
    requires Inv(g, c, m) && InRange(m) && LineOffset(a) + |bs| <= LINE_SIZE
    requires Coherent(g) && StoreAccepted(g, m, a, |bs|)
    requires FindWay(c.sets[SetIndex(g, a)], TagOf(g, a)).None?
    ensures var f := FillLine(g, c, m, a);
      Inv(g, f.cache, f.mem) &&
      if f.out.None? then View(g, f.cache, f.mem) == View(g, c, m)
      else
        var r := AfterUpdate(g, UpdateLine(g, f.cache, SetIndex(g, a), f.out.value, LineOffset(a), bs), f.mem, a, bs);
        r.out.Some? && Inv(g, r.cache, r.mem) && View(g, r.cache, r.mem) == Overlay(View(g, c, m), a, bs)
  {
    FillKeeps(g, c, m, a);
    var f := FillLine(g, c, m, a);
    SameViewSame(g, c, m, f.cache, f.mem);
    if f.out.Some? {
      StoreIntoLine(g, f.cache, f.mem, a, f.out.value, bs);
    }
  }

  lemma StoreIntoLine(g: Config, c: Contents, m: Mem, a: u32, w: nat, bs: seq<byte>)
    requires Inv(g, c, m) && LineOffset(a) + |bs| <= LINE_SIZE
    requires Coherent(g) && StoreAccepted(g, m, a, |bs|)
    requires FindWay(c.sets[SetIndex(g, a)], TagOf(g, a)) == Some(w)
    ensures var r := AfterUpdate(g, UpdateLine(g, c, SetIndex(g, a), w, LineOffset(a), bs), m, a, bs);
      r.out.Some? && Inv(g, r.cache, r.mem) && View(g, r.cache, r.mem) == Overlay(View(g, c, m), a, bs)
  {
    if g.writePolicy.WriteThrough? {
      assert LineOk(g, m, SetIndex(g, a), c.sets[SetIndex(g, a)][w]);
      forall x | a <= x < a + |bs|
        ensures CanWrite(m, x)
      {
        AccessInLine(g, a, |bs|, x);
        assert CanRead(m, x);
      }
      WriteBlockSpec(m, a, bs);
      UpdateThroughKeeps(g, c, m, a, w, bs);
    } else {
      UpdateKeeps(g, c, m, a, w, bs);
    }
  }

  lemma EmptyLineOk(g: Config, m: Mem, s: nat)
    requires g.Valid()
    ensures LineOk(g, m, s, EMPTY_LINE)
  {
  }

  /** Dropping a line, completely or not, never shows. */
  lemma DropKeeps(g: Config, c: Contents, m: Mem, s: nat, w: nat)
    requires Inv(g, c, m) && s < g.setCount && w < g.ways
    ensures var r := Drop(g, c, m, s, w);
      Inv(g, r.cache, r.mem) && SameView(g, c, m, r.cache, r.mem) &&
      (forall s', w' :: 0 <= s' < g.setCount && 0 <= w' < g.ways ==>
        if r.out.Some? && s' == s && w' == w then !r.cache.sets[s'][w'].valid
        else r.cache.sets[s'][w'].valid == c.sets[s'][w'].valid)
  {
    WriteBackKeeps(g, c, m, s, w);
    var wb := WriteBackLine(g, c, m, s, w);
    if wb.out.Some? {
      EmptyLineOk(g, wb.mem, s);
      ReplaceKeeps(g, wb.cache, wb.mem, s, w, EMPTY_LINE);
    }
  }

  ghost predicate FlushedBefore(g: Config, c: Contents, s: nat, w: nat)
    requires Shaped(g, c)
  {
    forall s', w' :: 0 <= s' < g.setCount && 0 <= w' < g.ways && (s' < s || (s' == s && w' < w)) ==>
      !c.sets[s'][w'].valid
  }

  lemma {:induction false} FlushFromKeeps(g: Config, c: Contents, m: Mem, s: nat, w: nat)
    requires Inv(g, c, m) && s <= g.setCount && w <= g.ways && FlushedBefore(g, c, s, w)
    ensures var r := FlushFrom(g, c, m, s, w);
      Inv(g, r.cache, r.mem) && SameView(g, c, m, r.cache, r.mem) &&
      (r.out.Some? ==> FlushedBefore(g, r.cache, g.setCount, 0))
    decreases g.setCount - s, g.ways - w
  {
    if s == g.setCount {
    } else if w == g.ways {
      FlushFromKeeps(g, c, m, s + 1, 0);
    } else {
      DropKeeps(g, c, m, s, w);
      var d := Drop(g, c, m, s, w);
      if d.out.Some? {
        FlushFromKeeps(g, d.cache, d.mem, s, w + 1);
      }
    }
  }

  /** A flush, even one a bus error cuts short, leaves the view alone.  One that completes leaves
      memory equal to the view, with nothing cached. */
  lemma FlushIsTransparent(g: Config, c: Contents, m: Mem)
    requires Inv(g, c, m) && InRange(m)
    ensures var r := FlushAllWithBus(g, c, m);
      Inv(g, r.cache, r.mem) && View(g, r.cache, r.mem) == View(g, c, m) &&
      (r.out.Some? ==>
        r.mem == View(g, c, m) &&
        forall s, w :: 0 <= s < g.setCount && 0 <= w < g.ways ==> !r.cache.sets[s][w].valid)
  {
    FlushFromKeeps(g, c, m, 0, 0);
    var r := FlushAllWithBus(g, c, m);
    SameViewSame(g, c, m, r.cache, r.mem);
    if r.out.Some? {
      var v := View(g, r.cache, r.mem);
      forall x | x in r.mem.bytes
        ensures v.bytes[x] == r.mem.bytes[x]
      {
        assert FindWay(r.cache.sets[SetIndex(g, x)], TagOf(g, x)).None?;
      }
      assert v.bytes == r.mem.bytes;
    }
  }

  lemma InvalidateIsTransparent(g: Config, c: Contents, m: Mem, a: u32)
    requires Inv(g, c, m) && InRange(m)
    ensures var r := InvalidateWithBus(g, c, m, a);
      Inv(g, r.cache, r.mem) && View(g, r.cache, r.mem) == View(g, c, m) &&
      (r.out.Some? ==> FindWay(r.cache.sets[SetIndex(g, a)], TagOf(g, a)).None?)
  {
    var s, t := SetIndex(g, a), TagOf(g, a);
    match FindWay(c.sets[s], t)
    case None =>
    case Some(w) =>
      DropKeeps(g, c, m, s, w);
      var r := Drop(g, c, m, s, w);
      SameViewSame(g, c, m, r.cache, r.mem);
      if r.out.Some? {
        var wb := WriteBackLine(g, c, m, s, w);
        assert r.cache.sets[s] == wb.cache.sets[s][w := EMPTY_LINE];
        assert forall j :: 0 <= j < g.ways && j != w ==> !(c.sets[s][j].valid && c.sets[s][j].tag == t);
      }
  }
}
