/** Write-back traffic and the lifetime of a line, over every run. */
module CacheEconomy {
  import opened Memory
  import opened CacheSpec

  // ---- Write-back economy ----

  function DirtyIn(lines: seq<CacheLine>): (n: nat)
    ensures n <= |lines|
  {
    if lines == [] then 0 else (if lines[0].dirty then 1 else 0) + DirtyIn(lines[1..])
  }

  function DirtyLines(sets: seq<seq<CacheLine>>): nat {
    if sets == [] then 0 else DirtyIn(sets[0]) + DirtyLines(sets[1..])
  }

  lemma {:induction false} DirtyInUpdate(lines: seq<CacheLine>, w: nat, line: CacheLine)
    requires w < |lines|
    ensures DirtyIn(lines[w := line]) ==
      DirtyIn(lines) - (if lines[w].dirty then 1 else 0) + (if line.dirty then 1 else 0)
  {
    if w == 0 {
      assert lines[w := line][1..] == lines[1..];
    } else {
      assert lines[w := line][1..] == lines[1..][w - 1 := line];
      DirtyInUpdate(lines[1..], w - 1, line);
    }
  }

  lemma {:induction false} DirtyLinesUpdate(sets: seq<seq<CacheLine>>, s: nat, w: nat, line: CacheLine)
    requires s < |sets| && w < |sets[s]|
    ensures DirtyLines(sets[s := sets[s][w := line]]) ==
      DirtyLines(sets) - (if sets[s][w].dirty then 1 else 0) + (if line.dirty then 1 else 0)
  {
    var sets' := sets[s := sets[s][w := line]];
    if s == 0 {
      assert sets'[1..] == sets[1..];
      DirtyInUpdate(sets[0], w, line);
    } else {
      assert sets'[1..] == sets[1..][s - 1 := sets[1..][s - 1][w := line]];
      DirtyLinesUpdate(sets[1..], s - 1, w, line);
    }
  }

  /** Write-backs done plus write-backs still owed never exceed the stores issued. */
  predicate Economical(c: Contents) {
    c.stats.writebacks + DirtyLines(c.sets) <= c.stats.writeHits + c.stats.writeMisses
  }

  function Owed(c: Contents): int {
    c.stats.writebacks + DirtyLines(c.sets)
  }

  function Stores(c: Contents): int {
    c.stats.writeHits + c.stats.writeMisses
  }

  lemma WriteBackOwed(g: Config, c: Contents, m: Mem, s: nat, w: nat)
    requires Shaped(g, c) && s < g.setCount && w < g.ways
    ensures var r := WriteBackLine(g, c, m, s, w); Owed(r.cache) == Owed(c) && Stores(r.cache) == Stores(c)
  {
    DirtyLinesUpdate(c.sets, s, w, c.sets[s][w].(dirty := false));
  }

  lemma EvictOwed(g: Config, c: Contents, m: Mem, s: nat, w: nat)
    requires Shaped(g, c) && s < g.setCount && w < g.ways
    ensures var r := Evict(g, c, m, s, w); Owed(r.cache) == Owed(c) && Stores(r.cache) == Stores(c)
  {
    WriteBackOwed(g, c.(stats := c.stats.(evictions := c.stats.evictions + 1)), m, s, w);
  }

  lemma InstallOwed(c: Contents, s: nat, w: nat, line: CacheLine)
    requires s < |c.sets| && w < |c.sets[s]| && !line.dirty
    ensures var c' := WithLine(c, s, w, line); Owed(c') <= Owed(c) && Stores(c') == Stores(c)
  {
    DirtyLinesUpdate(c.sets, s, w, line);
  }

  lemma FillOwed(g: Config, c: Contents, m: Mem, a: u32)
    requires Shaped(g, c)
    ensures var r := FillLine(g, c, m, a); Owed(r.cache) <= Owed(c) && Stores(r.cache) == Stores(c)
  {
    var s := SetIndex(g, a);
    var (w, next) := ChooseVictim(c.sets[s], c.nextVictim[s]);
    var c1 := c.(nextVictim := c.nextVictim[s := next]);
    EvictOwed(g, c1, m, s, w);
    var e := Evict(g, c1, m, s, w);
    var block := ReadBlock(e.mem, LineBase(a), LINE_SIZE);
    if e.out.Some? && block.Some? {
      InstallOwed(e.cache, s, w, CacheLine(true, false, TagOf(g, a), block.value));
    }
  }

  lemma UpdateOwed(g: Config, c: Contents, s: nat, w: nat, offset: nat, bs: seq<byte>)
    requires Shaped(g, c) && s < g.setCount && w < g.ways && offset + |bs| <= LINE_SIZE
    ensures var c' := UpdateLine(g, c, s, w, offset, bs); Owed(c') <= Owed(c) + 1 && Stores(c') == Stores(c)
  {
    var line := c.sets[s][w];
    DirtyLinesUpdate(c.sets, s, w,
      line.(data := Patch(line.data, offset, bs), dirty := line.dirty || g.TracksDirty()));
  }

  lemma StoreOwed(g: Config, c: Contents, m: Mem, a: u32, bs: seq<byte>)
    requires Shaped(g, c)
    ensures var r := Store(g, c, m, a, bs); Owed(r.cache) <= Owed(c) + 1 && Stores(r.cache) == Stores(c) + 1
  {
    var s, offset := SetIndex(g, a), LineOffset(a);
    if offset + |bs| <= LINE_SIZE {
      match FindWay(c.sets[s], TagOf(g, a))
      case Some(w) => UpdateOwed(g, c.(stats := WriteHit(c.stats)), s, w, offset, bs);
      case None =>
        var missed := c.(stats := WriteMiss(c.stats));
        FillOwed(g, missed, m, a);
        var f := FillLine(g, missed, m, a);
        if f.out.Some? { UpdateOwed(g, f.cache, s, f.out.value, offset, bs); }
    }
  }

  lemma DropOwed(g: Config, c: Contents, m: Mem, s: nat, w: nat)
    requires Shaped(g, c) && s < g.setCount && w < g.ways
    ensures var r := Drop(g, c, m, s, w); Owed(r.cache) <= Owed(c) && Stores(r.cache) == Stores(c)
  {
    WriteBackOwed(g, c, m, s, w);
    var wb := WriteBackLine(g, c, m, s, w);
    DirtyLinesUpdate(wb.cache.sets, s, w, EMPTY_LINE);
  }

  lemma {:induction false} FlushOwed(g: Config, c: Contents, m: Mem, s: nat, w: nat)
    requires Shaped(g, c) && s <= g.setCount && w <= g.ways
    ensures var r := FlushFrom(g, c, m, s, w); Owed(r.cache) <= Owed(c) && Stores(r.cache) == Stores(c)
    decreases g.setCount - s, g.ways - w
  {
    if s == g.setCount {
    } else if w == g.ways {
      FlushOwed(g, c, m, s + 1, 0);
    } else {
      DropOwed(g, c, m, s, w);
      var d := Drop(g, c, m, s, w);
      if d.out.Some? { FlushOwed(g, d.cache, d.mem, s, w + 1); }
    }
  }

  lemma PerformEconomical(g: Config, c: Contents, m: Mem, op: Op)
    requires Shaped(g, c) && Economical(c)
    ensures Economical(Perform(g, c, m, op).0)
  {
    match op
    case Read(a, n) =>
      FillOwed(g, c.(stats := ReadMiss(c.stats)), m, a);
    case Write(a, bs) => StoreOwed(g, c, m, a, bs);
    case Invalidate(a) =>
      var s := SetIndex(g, a);
      match FindWay(c.sets[s], TagOf(g, a)) {
        case Some(w) => DropOwed(g, c, m, s, w);
        case None =>
      }
    case Flush => FlushOwed(g, c, m, 0, 0);
  }

  lemma {:induction false} EconomicalFrom(g: Config, c: Contents, m: Mem, ops: seq<Op>)
    requires Shaped(g, c) && Economical(c)
    ensures Economical(Run(g, c, m, ops).cache)
    decreases |ops|
  {
    if ops != [] {
      PerformEconomical(g, c, m, ops[0]);
      var (c', m', _) := Perform(g, c, m, ops[0]);
      EconomicalFrom(g, c', m', ops[1..]);
    }
  }

  lemma {:induction false} NoDirty(lines: seq<CacheLine>)
    requires forall i :: 0 <= i < |lines| ==> !lines[i].dirty
    ensures DirtyIn(lines) == 0
  {
    if lines != [] { NoDirty(lines[1..]); }
  }

  lemma {:induction false} NoDirtyLines(sets: seq<seq<CacheLine>>)
    requires forall s, w :: 0 <= s < |sets| && 0 <= w < |sets[s]| ==> !sets[s][w].dirty
    ensures DirtyLines(sets) == 0
  {
    if sets != [] {
      NoDirty(sets[0]);
      assert forall s, w :: 0 <= s < |sets[1..]| && 0 <= w < |sets[1..][s]| ==> sets[1..][s][w] == sets[s + 1][w];
      NoDirtyLines(sets[1..]);
    }
  }

  /** In every state a run from an empty cache reaches, for every configuration and whatever the
      bus refuses, write-back traffic stays within the stores issued. */
  lemma WriteBackEconomy(g: Config, m: Mem, ops: seq<Op>)
    requires g.Valid()
    ensures Economical(Run(g, Empty(g), m, ops).cache)
  {
    NoDirtyLines(Empty(g).sets);
    EconomicalFrom(g, Empty(g), m, ops);
  }

  // ---- How long a filled line stays ----

  function InvalidWays(lines: seq<CacheLine>): (n: nat)
    ensures n <= |lines|
    ensures n == 0 <==> forall i :: 0 <= i < |lines| ==> lines[i].valid
  {
    if lines == [] then 0 else (if lines[0].valid then 0 else 1) + InvalidWays(lines[1..])
  }

  lemma {:induction false} InvalidWaysUpdate(lines: seq<CacheLine>, w: nat, line: CacheLine)
    requires w < |lines|
    ensures InvalidWays(lines[w := line]) ==
      InvalidWays(lines) - (if lines[w].valid then 0 else 1) + (if line.valid then 0 else 1)
  {
    if w == 0 {
      assert lines[w := line][1..] == lines[1..];
    } else {
      assert lines[w := line][1..] == lines[1..][w - 1 := line];
      InvalidWaysUpdate(lines[1..], w - 1, line);
    }
  }

  /** How many fills of its set the line in way `w` outlives: the set first runs out of invalid
      ways, then the round-robin pointer has to come round. */
  function Lifetime(lines: seq<CacheLine>, next: nat, w: nat): nat
    requires next < |lines| && w < |lines|
  {
    InvalidWays(lines) + (if w >= next then w - next else |lines| - next + w)
  }

  /** Before the first round-robin replacement the valid ways of a set are its first ones. */
  ghost predicate Orderly(lines: seq<CacheLine>, next: nat) {
    InvalidWays(lines) == 0 ||
    (next == 0 && forall i, j :: 0 <= i < j < |lines| && lines[j].valid ==> lines[i].valid)
  }

  lemma {:induction false} InvalidSuffix(lines: seq<CacheLine>, v: nat)
    requires v <= |lines|
    requires forall i :: 0 <= i < |lines| ==> (lines[i].valid <==> i < v)
    ensures InvalidWays(lines) == |lines| - v
  {
    if lines != [] { InvalidSuffix(lines[1..], if v == 0 then 0 else v - 1); }
  }

  lemma {:induction false} SameValidity(lines: seq<CacheLine>, lines': seq<CacheLine>)
    requires SameTags(lines, lines')
    ensures InvalidWays(lines) == InvalidWays(lines')
  {
    if lines != [] { SameValidity(lines[1..], lines'[1..]); }
  }

  ghost predicate SameTags(lines: seq<CacheLine>, lines': seq<CacheLine>) {
    |lines| == |lines'| &&
    forall i :: 0 <= i < |lines| ==> lines[i].valid == lines'[i].valid && lines[i].tag == lines'[i].tag
  }

  /** What a fill attempt does to the validity, the tags and the pointer of its set: nothing if it
      fails (though the pointer may have moved on), else the victim way gets the new line. */
  ghost predicate FillStep(lines: seq<CacheLine>, next: nat, lines': seq<CacheLine>, next': nat)
    requires next < |lines|
  {
    var (v, n) := ChooseVictim(lines, next);
    next' == n && |lines'| == |lines| &&
    (SameTags(lines, lines') || (lines'[v].valid && SameTags(lines[v := lines'[v]], lines')))
  }

  lemma NextWraps(next: nat, ways: nat)
    requires next < ways
    ensures (next + 1) % ways == if next + 1 == ways then 0 else next + 1
  {
  }

  /** A fill attempt costs every line it spares at most one, and spares every line with any
      lifetime left. */
  lemma FillSpares(lines: seq<CacheLine>, next: nat, lines': seq<CacheLine>, next': nat, w: nat)
    requires next < |lines| && w < |lines| && lines[w].valid && Lifetime(lines, next, w) > 0
    requires FillStep(lines, next, lines', next')
    ensures next' < |lines| && lines'[w].valid && lines'[w].tag == lines[w].tag
    ensures Lifetime(lines', next', w) >= Lifetime(lines, next, w) - 1
  {
    var (v, n) := ChooseVictim(lines, next);
    NextWraps(next, |lines|);
    if SameTags(lines, lines') {
      SameValidity(lines, lines');
    } else {
      SameValidity(lines[v := lines'[v]], lines');
      InvalidWaysUpdate(lines, v, lines'[v]);
    }
  }

  /** A line just installed has the full `ways - 1` fill attempts ahead of it. */
  lemma FillInstalls(lines: seq<CacheLine>, next: nat, lines': seq<CacheLine>, next': nat)
    requires next < |lines| && Orderly(lines, next) && |lines'| == |lines|
    requires var (v, n) := ChooseVictim(lines, next);
      next' == n && lines'[v].valid && SameTags(lines[v := lines'[v]], lines')
    ensures next' < |lines| && Lifetime(lines', next', ChooseVictim(lines, next).0) == |lines| - 1
  {
    var (v, n) := ChooseVictim(lines, next);
    NextWraps(next, |lines|);
    SameValidity(lines[v := lines'[v]], lines');
    InvalidWaysUpdate(lines, v, lines'[v]);
    if !lines[v].valid {
      FirstInvalid(lines, next, v);
    }
  }

  lemma FirstInvalid(lines: seq<CacheLine>, next: nat, v: nat)
    requires Orderly(lines, next) && v < |lines| && !lines[v].valid && forall i :: 0 <= i < v ==> lines[i].valid
    ensures next == 0 && InvalidWays(lines) == |lines| - v
  {
    assert InvalidWays(lines) != 0;
    InvalidSuffix(lines, v);
  }

  lemma FillKeepsOrder(lines: seq<CacheLine>, next: nat, lines': seq<CacheLine>, next': nat)
    requires next < |lines| && Orderly(lines, next) && FillStep(lines, next, lines', next')
    ensures Orderly(lines', next')
  {
    var (v, n) := ChooseVictim(lines, next);
    if SameTags(lines, lines') {
      SameValidity(lines, lines');
    } else {
      SameValidity(lines[v := lines'[v]], lines');
      InvalidWaysUpdate(lines, v, lines'[v]);
    }
  }

  // ---- Runs of loads and stores ----

  /** The operation looks for its line, does not find it, and so tries to fill set `s`. */
  predicate Fills(g: Config, c: Contents, op: Op, s: nat)
    requires Shaped(g, c)
  {
    (op.Read? || (op.Write? && g.writeAllocate.WriteAllocate?)) && InLineOp(op) &&
    SetIndex(g, op.a) == s && FindWay(c.sets[s], TagOf(g, op.a)).None?
  }

  function Attempts(g: Config, c: Contents, m: Mem, ops: seq<Op>, s: nat): nat
    requires Shaped(g, c)
    decreases |ops|
  {
    if ops == [] then 0
    else
      var (c', m', _) := Perform(g, c, m, ops[0]);
      (if Fills(g, c, ops[0], s) then 1 else 0) + Attempts(g, c', m', ops[1..], s)
  }

  predicate Accesses(ops: seq<Op>) {
    forall i :: 0 <= i < |ops| ==> ops[i].Read? || ops[i].Write?
  }

  lemma EvictEffect(g: Config, c: Contents, m: Mem, s: nat, w: nat)
    requires Shaped(g, c) && s < g.setCount && w < g.ways
    ensures var r := Evict(g, c, m, s, w); SameTags(c.sets[s], r.cache.sets[s]) && r.cache.nextVictim == c.nextVictim
  {
  }

  lemma FillEffect(g: Config, c: Contents, m: Mem, a: u32)
    requires Shaped(g, c)
    ensures var r, s := FillLine(g, c, m, a), SetIndex(g, a);
      var (v, next) := ChooseVictim(c.sets[s], c.nextVictim[s]);
      r.cache.nextVictim[s] == next && |r.cache.sets[s]| == |c.sets[s]| &&
      if r.out.None? then SameTags(c.sets[s], r.cache.sets[s])
      else
        r.out == Some(v) && r.cache.sets[s][v].valid && r.cache.sets[s][v].tag == TagOf(g, a) &&
        SameTags(c.sets[s][v := r.cache.sets[s][v]], r.cache.sets[s])
  {
    var s := SetIndex(g, a);
    var (v, next) := ChooseVictim(c.sets[s], c.nextVictim[s]);
    var c1 := c.(nextVictim := c.nextVictim[s := next]);
    EvictEffect(g, c1, m, s, v);
    var e := Evict(g, c1, m, s, v);
    assert FillLine(g, c, m, a) == AfterEvict(g, e, a, s, v);
  }

  lemma FillElsewhere(g: Config, c: Contents, m: Mem, a: u32, s: nat)
    requires Shaped(g, c) && s < g.setCount && s != SetIndex(g, a)
    ensures var r := FillLine(g, c, m, a); r.cache.sets[s] == c.sets[s] && r.cache.nextVictim[s] == c.nextVictim[s]
  {
  }

  /** How a load or store changes one set: by a fill attempt, or not at all as far as validity,
      tags and pointer go. */
  ghost predicate SetStep(fills: bool, lines: seq<CacheLine>, next: nat, lines': seq<CacheLine>, next': nat)
    requires next < |lines|
  {
    if fills then FillStep(lines, next, lines', next') else SameTags(lines, lines') && next' == next
  }

  lemma LoadEffect(g: Config, c: Contents, m: Mem, a: u32, n: nat, s: nat)
    requires Shaped(g, c) && s < g.setCount
    ensures var c' := Load(g, c, m, a, n).cache;
      SetStep(Fills(g, c, Read(a, n), s), c.sets[s], c.nextVictim[s], c'.sets[s], c'.nextVictim[s])
  {
    var missed := c.(stats := ReadMiss(c.stats));
    FillEffect(g, missed, m, a);
    if s != SetIndex(g, a) { FillElsewhere(g, missed, m, a, s); }
  }

  lemma UpdateEffect(g: Config, c: Contents, m: Mem, a: u32, w: nat, bs: seq<byte>, s: nat)
    requires Shaped(g, c) && s < g.setCount && w < g.ways && LineOffset(a) + |bs| <= LINE_SIZE
    ensures var c' := AfterUpdate(g, UpdateLine(g, c, SetIndex(g, a), w, LineOffset(a), bs), m, a, bs).cache;
      SameTags(c.sets[s], c'.sets[s]) && c'.nextVictim == c.nextVictim
  {
  }

  lemma StoreEffect(g: Config, c: Contents, m: Mem, a: u32, bs: seq<byte>, s: nat)
    requires Shaped(g, c) && s < g.setCount
    ensures var c' := Store(g, c, m, a, bs).cache;
      SetStep(Fills(g, c, Write(a, bs), s), c.sets[s], c.nextVictim[s], c'.sets[s], c'.nextVictim[s])
  {
    if LineOffset(a) + |bs| <= LINE_SIZE {
      match FindWay(c.sets[SetIndex(g, a)], TagOf(g, a))
      case Some(w) => UpdateEffect(g, c.(stats := WriteHit(c.stats)), m, a, w, bs, s);
      case None =>
        if g.writeAllocate.WriteAllocate? {
          AllocateEffect(g, c.(stats := WriteMiss(c.stats)), m, a, bs, s);
        }
    }
  }

  lemma AllocateEffect(g: Config, c: Contents, m: Mem, a: u32, bs: seq<byte>, s: nat)
    requires Shaped(g, c) && s < g.setCount && LineOffset(a) + |bs| <= LINE_SIZE
    ensures var f := FillLine(g, c, m, a);
      var c' := if f.out.None? then f.cache
        else AfterUpdate(g, UpdateLine(g, f.cache, SetIndex(g, a), f.out.value, LineOffset(a), bs), f.mem, a, bs).cache;
      SetStep(s == SetIndex(g, a), c.sets[s], c.nextVictim[s], c'.sets[s], c'.nextVictim[s])
  {
    var f := FillLine(g, c, m, a);
    if s == SetIndex(g, a) { FillEffect(g, c, m, a); } else { FillElsewhere(g, c, m, a, s); }
    if f.out.Some? { UpdateEffect(g, f.cache, f.mem, a, f.out.value, bs, s); }
  }

  lemma AccessEffect(g: Config, c: Contents, m: Mem, op: Op, s: nat)
    requires Shaped(g, c) && s < g.setCount && (op.Read? || op.Write?)
    ensures var c' := Perform(g, c, m, op).0;
      SetStep(Fills(g, c, op, s), c.sets[s], c.nextVictim[s], c'.sets[s], c'.nextVictim[s])
  {
    match op
    case Read(a, n) => LoadEffect(g, c, m, a, n, s);
    case Write(a, bs) => StoreEffect(g, c, m, a, bs, s);
  }

  lemma {:induction false} SurvivesFrom(g: Config, c: Contents, m: Mem, ops: seq<Op>, s: nat, w: nat)
    requires Shaped(g, c) && Accesses(ops) && s < g.setCount && w < g.ways && c.sets[s][w].valid
    requires Attempts(g, c, m, ops, s) <= Lifetime(c.sets[s], c.nextVictim[s], w)
    ensures var c' := Run(g, c, m, ops).cache; c'.sets[s][w].valid && c'.sets[s][w].tag == c.sets[s][w].tag
    decreases |ops|
  {
    if ops != [] {
      var (c1, m1, _) := Perform(g, c, m, ops[0]);
      AccessEffect(g, c, m, ops[0], s);
      if Fills(g, c, ops[0], s) {
        FillSpares(c.sets[s], c.nextVictim[s], c1.sets[s], c1.nextVictim[s], w);
      } else {
        SameValidity(c.sets[s], c1.sets[s]);
      }
      SurvivesFrom(g, c1, m1, ops[1..], s, w);
    }
  }

  lemma {:induction false} OrderlyFrom(g: Config, c: Contents, m: Mem, ops: seq<Op>, s: nat)
    requires Shaped(g, c) && Accesses(ops) && s < g.setCount && Orderly(c.sets[s], c.nextVictim[s])
    ensures var c' := Run(g, c, m, ops).cache; Orderly(c'.sets[s], c'.nextVictim[s])
    decreases |ops|
  {
    if ops != [] {
      var (c1, m1, _) := Perform(g, c, m, ops[0]);
      AccessEffect(g, c, m, ops[0], s);
      if Fills(g, c, ops[0], s) {
        FillKeepsOrder(c.sets[s], c.nextVictim[s], c1.sets[s], c1.nextVictim[s]);
      } else {
        SameValidity(c.sets[s], c1.sets[s]);
      }
      OrderlyFrom(g, c1, m1, ops[1..], s);
    }
  }

  /** The access that fills a line: afterwards the line sits in some way with full lifetime. */
  lemma AccessInstalls(g: Config, c: Contents, m: Mem, op: Op) returns (w: nat)
    requires Shaped(g, c) && (op.Read? || op.Write?)
    requires Fills(g, c, op, SetIndex(g, op.a)) && FillLine(g, c, m, op.a).out.Some?
    requires Orderly(c.sets[SetIndex(g, op.a)], c.nextVictim[SetIndex(g, op.a)])
    ensures var c', s := Perform(g, c, m, op).0, SetIndex(g, op.a);
      w < g.ways && c'.sets[s][w].valid && c'.sets[s][w].tag == TagOf(g, op.a) &&
      Lifetime(c'.sets[s], c'.nextVictim[s], w) == g.ways - 1
  {
    var missed := c.(stats := if op.Read? then ReadMiss(c.stats) else WriteMiss(c.stats));
    StatsIrrelevant(g, c, missed, m, op.a);
    w := FillInstallsLine(g, missed, m, op.a);
    AfterFill(g, c, m, op);
    SameValidity(FillLine(g, missed, m, op.a).cache.sets[SetIndex(g, op.a)],
                 Perform(g, c, m, op).0.sets[SetIndex(g, op.a)]);
  }

  /** Once its line is filled, the rest of an access leaves validity, tags and pointers alone. */
  lemma AfterFill(g: Config, c: Contents, m: Mem, op: Op)
    requires Shaped(g, c) && (op.Read? || op.Write?) && Fills(g, c, op, SetIndex(g, op.a))
    ensures var missed := c.(stats := if op.Read? then ReadMiss(c.stats) else WriteMiss(c.stats));
      var f, c', s := FillLine(g, missed, m, op.a).cache, Perform(g, c, m, op).0, SetIndex(g, op.a);
      SameTags(f.sets[s], c'.sets[s]) && c'.nextVictim == f.nextVictim
  {
    if op.Write? {
      var f := FillLine(g, c.(stats := WriteMiss(c.stats)), m, op.a);
      if f.out.Some? { UpdateEffect(g, f.cache, f.mem, op.a, f.out.value, op.bs, SetIndex(g, op.a)); }
    }
  }

  lemma FillInstallsLine(g: Config, c: Contents, m: Mem, a: u32) returns (w: nat)
    requires Shaped(g, c) && FillLine(g, c, m, a).out.Some?
    requires Orderly(c.sets[SetIndex(g, a)], c.nextVictim[SetIndex(g, a)])
    ensures var f, s := FillLine(g, c, m, a).cache, SetIndex(g, a);
      w < g.ways && f.sets[s][w].valid && f.sets[s][w].tag == TagOf(g, a) &&
      Lifetime(f.sets[s], f.nextVictim[s], w) == g.ways - 1
  {
    var s, f := SetIndex(g, a), FillLine(g, c, m, a).cache;
    FillEffect(g, c, m, a);
    w := ChooseVictim(c.sets[s], c.nextVictim[s]).0;
    FillInstalls(c.sets[s], c.nextVictim[s], f.sets[s], f.nextVictim[s]);
  }

  lemma StatsIrrelevant(g: Config, c: Contents, c': Contents, m: Mem, a: u32)
    requires Shaped(g, c) && Shaped(g, c') && c.sets == c'.sets && c.nextVictim == c'.nextVictim
    ensures FillLine(g, c, m, a).out == FillLine(g, c', m, a).out
  {
  }

  /** From any orderly state, the line an access fills outlives `ways - 1` further attempts. */
  lemma FilledLineStays(g: Config, c: Contents, m: Mem, op: Op, c1: Contents, m1: Mem, after: seq<Op>, s: nat,
                        last: Reached)
    requires Shaped(g, c) && (op.Read? || op.Write?) && Accesses(after) && s == SetIndex(g, op.a)
    requires Orderly(c.sets[s], c.nextVictim[s]) && Fills(g, c, op, s) && FillLine(g, c, m, op.a).out.Some?
    requires Perform(g, c, m, op).0 == c1 && Perform(g, c, m, op).1 == m1 && Attempts(g, c1, m1, after, s) <= g.ways - 1
    requires last == Run(g, c1, m1, after)
    ensures FindWay(last.cache.sets[s], TagOf(g, op.a)).Some?
  {
    var w := AccessInstalls(g, c, m, op);
    SurvivesFrom(g, c1, m1, after, s, w);
  }

  /** From a new or reset cache, without invalidations or flushes, a line that an access brings in
      is still there after any further accesses that make at most `ways - 1` fill attempts in its
      set, whichever of them fail and whether or not the set was full. */
  lemma FilledLineSurvives(g: Config, m: Mem, before: seq<Op>, r: Reached, op: Op, c1: Contents, m1: Mem,
                           after: seq<Op>, s: nat, last: Reached)
    requires g.Valid() && Accesses(before) && (op.Read? || op.Write?) && Accesses(after) && s == SetIndex(g, op.a)
    requires r == Run(g, Empty(g), m, before)
    requires Perform(g, r.cache, r.mem, op).0 == c1 && Perform(g, r.cache, r.mem, op).1 == m1
    requires Fills(g, r.cache, op, s) && FillLine(g, r.cache, r.mem, op.a).out.Some?
    requires Attempts(g, c1, m1, after, s) <= g.ways - 1 && last == Run(g, c1, m1, after)
    ensures FindWay(last.cache.sets[s], TagOf(g, op.a)).Some?
  {
    OrderlyFrom(g, Empty(g), m, before, s);
    FilledLineStays(g, r.cache, r.mem, op, c1, m1, after, s, last);
  }

  // ---- When a filled line goes ----

  ghost predicate Gone(lines: seq<CacheLine>, t: nat) {
    forall i :: 0 <= i < |lines| && lines[i].valid ==> lines[i].tag != t
  }

  /** Way `w` holds the line with this tag, and no other way does. */
  ghost predicate HeldIn(lines: seq<CacheLine>, t: nat, w: nat) {
    w < |lines| && lines[w].valid && lines[w].tag == t &&
    forall i :: 0 <= i < |lines| && lines[i].valid && lines[i].tag == t ==> i == w
  }

  /** A completed fill: the victim way gets a line with tag `u`. */
  ghost predicate Filled(lines: seq<CacheLine>, next: nat, lines': seq<CacheLine>, next': nat, u: nat)
    requires next < |lines|
  {
    var (v, n) := ChooseVictim(lines, next);
    next' == n && |lines'| == |lines| && lines'[v].valid && lines'[v].tag == u &&
    SameTags(lines[v := lines'[v]], lines')
  }

  /** A completed fill of another line costs a line exactly one, and evicts it when nothing is left. */
  lemma FillAges(lines: seq<CacheLine>, next: nat, lines': seq<CacheLine>, next': nat, w: nat, t: nat, u: nat)
    requires next < |lines| && HeldIn(lines, t, w) && u != t && Filled(lines, next, lines', next', u)
    ensures next' < |lines| && if Lifetime(lines, next, w) == 0 then Gone(lines', t)
      else HeldIn(lines', t, w) && Lifetime(lines', next', w) == Lifetime(lines, next, w) - 1
  {
    var (v, n) := ChooseVictim(lines, next);
    NextWraps(next, |lines|);
    SameValidity(lines[v := lines'[v]], lines');
    InvalidWaysUpdate(lines, v, lines'[v]);
  }

  lemma FillKeepsGone(lines: seq<CacheLine>, next: nat, lines': seq<CacheLine>, next': nat, t: nat, u: nat)
    requires next < |lines| && Gone(lines, t) && u != t && Filled(lines, next, lines', next', u)
    ensures Gone(lines', t)
  {
  }

  /** Every fill attempt of the run in this set brings its line in. */
  ghost predicate AllFilled(g: Config, c: Contents, m: Mem, ops: seq<Op>, s: nat)
    requires Shaped(g, c)
    decreases |ops|
  {
    ops == [] ||
    ((Fills(g, c, ops[0], s) ==> FillLine(g, c, m, ops[0].a).out.Some?) &&
     var (c', m', _) := Perform(g, c, m, ops[0]);
     AllFilled(g, c', m', ops[1..], s))
  }

  ghost predicate Untouched(g: Config, ops: seq<Op>, s: nat, t: nat)
    requires g.Valid()
  {
    forall i :: 0 <= i < |ops| && (ops[i].Read? || ops[i].Write?) ==>
      SetIndex(g, ops[i].a) != s || TagOf(g, ops[i].a) != t
  }

  lemma AccessFills(g: Config, c: Contents, m: Mem, op: Op, s: nat)
    requires Shaped(g, c) && (op.Read? || op.Write?) && Fills(g, c, op, s) && FillLine(g, c, m, op.a).out.Some?
    ensures var c' := Perform(g, c, m, op).0;
      Filled(c.sets[s], c.nextVictim[s], c'.sets[s], c'.nextVictim[s], TagOf(g, op.a))
  {
    var missed := c.(stats := if op.Read? then ReadMiss(c.stats) else WriteMiss(c.stats));
    StatsIrrelevant(g, c, missed, m, op.a);
    FillEffect(g, missed, m, op.a);
    AfterFill(g, c, m, op);
  }

  lemma {:induction false} GoneFrom(g: Config, c: Contents, m: Mem, ops: seq<Op>, s: nat, t: nat)
    requires Shaped(g, c) && Accesses(ops) && s < g.setCount && Gone(c.sets[s], t)
    requires AllFilled(g, c, m, ops, s) && Untouched(g, ops, s, t)
    ensures Gone(Run(g, c, m, ops).cache.sets[s], t)
    decreases |ops|
  {
    if ops != [] {
      var (c1, m1, _) := Perform(g, c, m, ops[0]);
      if Fills(g, c, ops[0], s) {
        AccessFills(g, c, m, ops[0], s);
        FillKeepsGone(c.sets[s], c.nextVictim[s], c1.sets[s], c1.nextVictim[s], t, TagOf(g, ops[0].a));
      } else {
        AccessEffect(g, c, m, ops[0], s);
      }
      GoneFrom(g, c1, m1, ops[1..], s, t);
    }
  }

  /** One access of other lines: a fill costs the line one or evicts it, anything else costs it nothing. */
  lemma AccessAges(g: Config, c: Contents, m: Mem, op: Op, c1: Contents, s: nat, w: nat, t: nat)
    requires Shaped(g, c) && (op.Read? || op.Write?) && s < g.setCount && HeldIn(c.sets[s], t, w)
    requires Fills(g, c, op, s) ==> FillLine(g, c, m, op.a).out.Some?
    requires (SetIndex(g, op.a) != s || TagOf(g, op.a) != t) && c1 == Perform(g, c, m, op).0
    ensures var left := Lifetime(c.sets[s], c.nextVictim[s], w);
      if Fills(g, c, op, s) && left == 0 then Gone(c1.sets[s], t)
      else
        HeldIn(c1.sets[s], t, w) &&
        Lifetime(c1.sets[s], c1.nextVictim[s], w) == left - (if Fills(g, c, op, s) then 1 else 0)
  {
    if Fills(g, c, op, s) {
      AccessFills(g, c, m, op, s);
      FillAges(c.sets[s], c.nextVictim[s], c1.sets[s], c1.nextVictim[s], w, t, TagOf(g, op.a));
    } else {
      AccessEffect(g, c, m, op, s);
      SameValidity(c.sets[s], c1.sets[s]);
    }
  }

  lemma {:induction false} GoesFrom(g: Config, c: Contents, m: Mem, ops: seq<Op>, s: nat, w: nat, t: nat)
    requires Shaped(g, c) && Accesses(ops) && s < g.setCount && HeldIn(c.sets[s], t, w)
    requires AllFilled(g, c, m, ops, s) && Untouched(g, ops, s, t)
    requires Attempts(g, c, m, ops, s) > Lifetime(c.sets[s], c.nextVictim[s], w)
    ensures Gone(Run(g, c, m, ops).cache.sets[s], t)
    decreases |ops|
  {
    if ops != [] {
      var (c1, m1, _) := Perform(g, c, m, ops[0]);
      AccessAges(g, c, m, ops[0], c1, s, w, t);
      if Fills(g, c, ops[0], s) && Lifetime(c.sets[s], c.nextVictim[s], w) == 0 {
        GoneFrom(g, c1, m1, ops[1..], s, t);
      } else {
        GoesFrom(g, c1, m1, ops[1..], s, w, t);
      }
    }
  }

  lemma GoneIsNotFound(lines: seq<CacheLine>, t: nat)
    ensures Gone(lines, t) <==> FindWay(lines, t).None?
  {
  }

  /** The way an access fills is the only one with its tag. */
  lemma OnlyHolder(g: Config, c: Contents, m: Mem, op: Op, w: nat)
    requires Shaped(g, c) && (op.Read? || op.Write?)
    requires Fills(g, c, op, SetIndex(g, op.a)) && FillLine(g, c, m, op.a).out.Some?
    requires var lines := Perform(g, c, m, op).0.sets[SetIndex(g, op.a)];
      w < |lines| && lines[w].valid && lines[w].tag == TagOf(g, op.a)
    ensures HeldIn(Perform(g, c, m, op).0.sets[SetIndex(g, op.a)], TagOf(g, op.a), w)
  {
    var s := SetIndex(g, op.a);
    AccessFills(g, c, m, op, s);
    GoneIsNotFound(c.sets[s], TagOf(g, op.a));
  }

  /** From any orderly state, the line an access fills is gone after as many further fills as there are ways. */
  lemma FilledLineGoes(g: Config, c: Contents, m: Mem, op: Op, c1: Contents, m1: Mem, after: seq<Op>, s: nat, t: nat,
                       last: Reached)
    requires Shaped(g, c) && (op.Read? || op.Write?) && Accesses(after)
    requires s == SetIndex(g, op.a) && t == TagOf(g, op.a)
    requires Orderly(c.sets[s], c.nextVictim[s]) && Fills(g, c, op, s) && FillLine(g, c, m, op.a).out.Some?
    requires Perform(g, c, m, op).0 == c1 && Perform(g, c, m, op).1 == m1 && Attempts(g, c1, m1, after, s) >= g.ways
    requires AllFilled(g, c1, m1, after, s) && Untouched(g, after, s, t) && last == Run(g, c1, m1, after)
    ensures FindWay(last.cache.sets[s], t).None?
  {
    var w := AccessInstalls(g, c, m, op);
    OnlyHolder(g, c, m, op, w);
    GoesFrom(g, c1, m1, after, s, w, t);
    GoneIsNotFound(last.cache.sets[s], t);
  }

  lemma FilledLineLivesFrom(g: Config, c: Contents, m: Mem, op: Op, c1: Contents, m1: Mem, after: seq<Op>, s: nat,
                            t: nat, last: Reached)
    requires Shaped(g, c) && (op.Read? || op.Write?) && Accesses(after)
    requires s == SetIndex(g, op.a) && t == TagOf(g, op.a)
    requires Orderly(c.sets[s], c.nextVictim[s]) && Fills(g, c, op, s) && FillLine(g, c, m, op.a).out.Some?
    requires Perform(g, c, m, op).0 == c1 && Perform(g, c, m, op).1 == m1
    requires AllFilled(g, c1, m1, after, s) && Untouched(g, after, s, t) && last == Run(g, c1, m1, after)
    ensures FindWay(last.cache.sets[s], t).Some? <==> Attempts(g, c1, m1, after, s) < g.ways
  {
    if Attempts(g, c1, m1, after, s) < g.ways {
      FilledLineStays(g, c, m, op, c1, m1, after, s, last);
    } else {
      FilledLineGoes(g, c, m, op, c1, m1, after, s, t, last);
    }
  }

  /** Where every fill of its set completes and nobody asks for it again, a line that an access brings in is
      still there if and only if there have been fewer fills than the set has ways. */
  lemma FilledLineLives(g: Config, m: Mem, before: seq<Op>, r: Reached, op: Op, c1: Contents, m1: Mem, after: seq<Op>,
                        s: nat, t: nat, last: Reached)
    requires g.Valid() && Accesses(before) && (op.Read? || op.Write?) && Accesses(after)
    requires s == SetIndex(g, op.a) && t == TagOf(g, op.a) && r == Run(g, Empty(g), m, before)
    requires Perform(g, r.cache, r.mem, op).0 == c1 && Perform(g, r.cache, r.mem, op).1 == m1
    requires Fills(g, r.cache, op, s) && FillLine(g, r.cache, r.mem, op.a).out.Some?
    requires AllFilled(g, c1, m1, after, s) && Untouched(g, after, s, t) && last == Run(g, c1, m1, after)
    ensures FindWay(last.cache.sets[s], t).Some? <==> Attempts(g, c1, m1, after, s) < g.ways
  {
    OrderlyFrom(g, Empty(g), m, before, s);
    FilledLineLivesFrom(g, r.cache, r.mem, op, c1, m1, after, s, t, last);
  }

  // ---- Counting ----

  /** The access counters, without those of lines moving in and out. */
  function Tally(c: Contents): Stats { c.stats.(evictions := 0, writebacks := 0) }

  lemma EvictTally(g: Config, c: Contents, m: Mem, s: nat, w: nat)
    requires Shaped(g, c) && s < g.setCount && w < g.ways
    ensures Tally(Evict(g, c, m, s, w).cache) == Tally(c)
  {
  }

  lemma DropTally(g: Config, c: Contents, m: Mem, s: nat, w: nat)
    requires Shaped(g, c) && s < g.setCount && w < g.ways
    ensures Tally(Drop(g, c, m, s, w).cache) == Tally(c)
  {
  }

  lemma FillTally(g: Config, c: Contents, m: Mem, a: u32)
    requires Shaped(g, c)
    ensures Tally(FillLine(g, c, m, a).cache) == Tally(c)
  {
    var s := SetIndex(g, a);
    var (w, next) := ChooseVictim(c.sets[s], c.nextVictim[s]);
    EvictTally(g, c.(nextVictim := c.nextVictim[s := next]), m, s, w);
  }

  lemma {:induction false} FlushTally(g: Config, c: Contents, m: Mem, s: nat, w: nat)
    requires Shaped(g, c) && s <= g.setCount && w <= g.ways
    ensures Tally(FlushFrom(g, c, m, s, w).cache) == Tally(c)
    decreases g.setCount - s, g.ways - w
  {
    if s == g.setCount {
    } else if w == g.ways {
      FlushTally(g, c, m, s + 1, 0);
    } else {
      var d := Drop(g, c, m, s, w);
      DropTally(g, c, m, s, w);
      FlushStep(g, c, m, s, w);
      if d.out.Some? { FlushTally(g, d.cache, d.mem, s, w + 1); }
    }
  }

  /** `loads` loads of which `loadHits` hit, and `stores` stores of which `storeHits` hit, have been counted. */
  predicate Counted(st: Stats, loads: nat, loadHits: nat, stores: nat, storeHits: nat) {
    st.readHits == loadHits && st.readHits + st.readMisses == loads &&
    st.writeHits == storeHits && st.writeHits + st.writeMisses == stores &&
    st.hits == loadHits + storeHits && st.hits + st.misses == loads + stores
  }

  /** The access stays inside its line and some way of its set holds that line. */
  ghost predicate Meets(g: Config, c: Contents, a: u32, n: nat)
    requires Shaped(g, c)
  {
    var lines := c.sets[a / 16 % g.setCount];
    a % 16 + n <= 16 && exists w: nat :: w < g.ways && lines[w].valid && lines[w].tag == a / 16 / g.setCount
  }

  lemma MeetsMeans(g: Config, c: Contents, a: u32, n: nat)
    requires Shaped(g, c)
    ensures Meets(g, c, a, n) <==> LineOffset(a) + n <= LINE_SIZE && FindWay(c.sets[SetIndex(g, a)], TagOf(g, a)).Some?
  {
  }

  ghost function LoadMet(g: Config, c: Contents, op: Op): nat
    requires Shaped(g, c)
  {
    if op.Read? && Meets(g, c, op.a, op.n) then 1 else 0
  }

  ghost function StoreMet(g: Config, c: Contents, op: Op): nat
    requires Shaped(g, c)
  {
    if op.Write? && Meets(g, c, op.a, |op.bs|) then 1 else 0
  }

  /** How many loads and how many stores of a run meet their line when they are issued. */
  ghost function Met(g: Config, c: Contents, m: Mem, ops: seq<Op>): (nat, nat)
    requires Shaped(g, c)
    decreases |ops|
  {
    if ops == [] then (0, 0)
    else
      var r := Perform(g, c, m, ops[0]);
      var later := Met(g, r.0, r.1, ops[1..]);
      (LoadMet(g, c, ops[0]) + later.0, StoreMet(g, c, ops[0]) + later.1)
  }

  function ReadsIn(ops: seq<Op>): nat {
    if ops == [] then 0 else (if ops[0].Read? then 1 else 0) + ReadsIn(ops[1..])
  }

  function WritesIn(ops: seq<Op>): nat {
    if ops == [] then 0 else (if ops[0].Write? then 1 else 0) + WritesIn(ops[1..])
  }

  lemma LoadTally(g: Config, c: Contents, m: Mem, a: u32, n: nat)
    requires Shaped(g, c)
    ensures Tally(Load(g, c, m, a, n).cache) == if Meets(g, c, a, n) then ReadHit(Tally(c)) else ReadMiss(Tally(c))
  {
    MeetsMeans(g, c, a, n);
    FillTally(g, c.(stats := ReadMiss(c.stats)), m, a);
  }

  lemma UpdateTally(g: Config, c: Contents, m: Mem, s: nat, w: nat, a: u32, offset: nat, bs: seq<byte>)
    requires Shaped(g, c) && s < g.setCount && w < g.ways && offset + |bs| <= LINE_SIZE
    ensures Tally(AfterUpdate(g, UpdateLine(g, c, s, w, offset, bs), m, a, bs).cache) == Tally(c)
  {
  }

  lemma StoreTally(g: Config, c: Contents, m: Mem, a: u32, bs: seq<byte>)
    requires Shaped(g, c)
    ensures Tally(Store(g, c, m, a, bs).cache) ==
      if Meets(g, c, a, |bs|) then WriteHit(Tally(c)) else WriteMiss(Tally(c))
  {
    MeetsMeans(g, c, a, |bs|);
    var s, offset := SetIndex(g, a), LineOffset(a);
    if offset + |bs| <= LINE_SIZE {
      match FindWay(c.sets[s], TagOf(g, a))
      case Some(w) => UpdateTally(g, c.(stats := WriteHit(c.stats)), m, s, w, a, offset, bs);
      case None =>
        var missed := c.(stats := WriteMiss(c.stats));
        FillTally(g, missed, m, a);
        var f := FillLine(g, missed, m, a);
        if f.out.Some? { UpdateTally(g, f.cache, f.mem, s, f.out.value, a, offset, bs); }
    }
  }

  lemma InvalidateTally(g: Config, c: Contents, m: Mem, a: u32)
    requires Shaped(g, c)
    ensures Tally(InvalidateWithBus(g, c, m, a).cache) == Tally(c)
  {
    var s := SetIndex(g, a);
    var w := FindWay(c.sets[s], TagOf(g, a));
    if w.Some? { DropTally(g, c, m, s, w.value); }
  }

  lemma PerformCounts(g: Config, c: Contents, m: Mem, op: Op, l: nat, lh: nat, s: nat, sh: nat)
    requires Shaped(g, c) && Counted(Tally(c), l, lh, s, sh)
    ensures Counted(Tally(Perform(g, c, m, op).0), l + (if op.Read? then 1 else 0), lh + LoadMet(g, c, op),
                    s + (if op.Write? then 1 else 0), sh + StoreMet(g, c, op))
  {
    match op
    case Read(a, n) => LoadTally(g, c, m, a, n);
    case Write(a, bs) => StoreTally(g, c, m, a, bs);
    case Invalidate(a) => InvalidateTally(g, c, m, a);
    case Flush => FlushTally(g, c, m, 0, 0);
  }

  lemma {:induction false} CountsFrom(g: Config, c: Contents, m: Mem, ops: seq<Op>, l: nat, lh: nat, s: nat, sh: nat)
    requires Shaped(g, c) && Counted(Tally(c), l, lh, s, sh)
    ensures var met := Met(g, c, m, ops);
      Counted(Tally(Run(g, c, m, ops).cache), l + ReadsIn(ops), lh + met.0, s + WritesIn(ops), sh + met.1)
    decreases |ops|
  {
    if ops != [] {
      var op := ops[0];
      PerformCounts(g, c, m, op, l, lh, s, sh);
      var r := Perform(g, c, m, op);
      CountsFrom(g, r.0, r.1, ops[1..], l + (if op.Read? then 1 else 0), lh + LoadMet(g, c, op),
                 s + (if op.Write? then 1 else 0), sh + StoreMet(g, c, op));
    }
  }

  /** Over every run, failed and line-crossing accesses included, each load and each store is counted exactly once, as
      a hit if and only if a way of its set holds its line when it is issued, and the totals are the sums of their
      parts. */
  lemma EveryAccessCounted(g: Config, m: Mem, ops: seq<Op>)
    requires g.Valid()
    ensures var met := Met(g, Empty(g), m, ops);
      Counted(Run(g, Empty(g), m, ops).cache.stats, ReadsIn(ops), met.0, WritesIn(ops), met.1)
  {
    CountsFrom(g, Empty(g), m, ops, 0, 0, 0, 0);
  }

  /** A fill counts an eviction if and only if no way of its set is free. */
  lemma FillCountsEviction(g: Config, c: Contents, m: Mem, a: u32)
    requires Shaped(g, c)
    ensures FillLine(g, c, m, a).cache.stats.evictions == c.stats.evictions +
      if forall w :: 0 <= w < g.ways ==> c.sets[a / 16 % g.setCount][w].valid then 1 else 0
  {
  }
}
