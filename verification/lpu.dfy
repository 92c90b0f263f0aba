/** The language unit as a device: sampling loops, and descriptors that read and write guest memory. */
module LpuDevice {
  import opened Memory
  import opened SystemBus
  import opened LpuSampling
  import opened LpuSpec

  lemma {:induction false} SlicePrefix(ws: seq<nat>, n: nat, k: nat)
    requires k <= n <= |ws|
    ensures SatPrefix(ws[..n], k) == SatPrefix(ws, k)
  {
    if k > 0 { SlicePrefix(ws, n, k - 1); }
  }

  lemma ScoresGrow(m: Mem, a: nat, seen: seq<u32>, i: nat, v: nat)
    requires ReadScores(m, a, i) == Some(seen) && ReadLE(m, a + i * 4, 4) == Some(v)
    ensures ReadScores(m, a, i + 1) == Some(seen + [Wrap32(v)])
  {
  }

  lemma FirstMaxNext(seen: seq<u32>, score: u32, i: nat)
    requires |seen| == i
    ensures FirstMax(seen + [score], i + 1) ==
      if i == 0 || score > seen[FirstMax(seen, i)] then i else FirstMax(seen, i)
  {
    SameFirstMax(seen + [score], seen, i);
  }

  class Lpu {
    var engine: Engine
    var descAddr: nat
    var descLen: u32
    var pending: bool
    var busy: bool
    var doneFlag: bool
    var irq: bool
    var irqEnabled: bool

    constructor ()
      ensures engine == Engine(0, 0, 0, 0, 0, 1, 1, 1000, 900) && !pending
    {
      engine := Engine(0, 0, 0, 0, 0, 1, 1, 1000, 900);
      descAddr, descLen := 0, 0;
      pending, busy, doneFlag, irq, irqEnabled := false, false, false, false, false;
    }

    // ---- Sampling ----

    method TotalWeight(ws: seq<nat>) returns (total: nat)
      ensures total == SatPrefix(ws, |ws|)
    {
      total := 0;
      var i := 0;
      while i < |ws|
        invariant 0 <= i <= |ws| && total == SatPrefix(ws, i)
      {
        total := SatAdd(total, ws[i]);
        i := i + 1;
      }
    }

    /** Running sums until one exceeds the ticket. */
    method PickPlace(ws: seq<nat>, ticket: nat) returns (place: nat)
      ensures place == Draw(ws, ticket)
    {
      var acc := 0;
      var i := 0;
      while i < |ws|
        invariant 0 <= i <= |ws| && acc == SatPrefix(ws, i) && Draw(ws, ticket) == DrawFrom(ws, ticket, i)
      {
        acc := SatAdd(acc, ws[i]);
        if ticket < acc { return i; }
        i := i + 1;
      }
      return 0;
    }

    method DrawOne(kept: seq<Candidate>, ws: seq<nat>, total: nat) returns (token: u32)
      requires kept != [] && |ws| == |kept| && total == SatPrefix(ws, |ws|) && total > 0
      modifies this`engine
      ensures var s := DrawToken(kept, ws, old(engine).seed);
        token == s.token && engine == old(engine).(seed := s.seed)
    {
      engine := engine.(seed := NextSeed(engine.seed));
      var place := PickPlace(ws, engine.seed % total);
      token := kept[place].id;
    }

    method SampleFromCandidates(cs: seq<Candidate>) returns (token: u32)
      modifies this`engine
      ensures var s := SampleTopK(cs, old(engine).topK, old(engine).temp, old(engine).seed);
        token == s.token && engine == old(engine).(seed := s.seed)
    {
      if cs == [] { return 0; }
      var kept := TopK(cs, engine.topK);
      if |kept| == 1 || engine.temp <= 1 { return kept[0].id; }
      var ws := Weights(kept, engine.temp);
      var total := TotalWeight(ws);
      TotalPositive(ws);
      token := DrawOne(kept, ws, total);
    }

    /** Whole weights are taken until the threshold is reached. */
    method TakeNucleus(ws: seq<nat>, threshold: nat) returns (n: nat, weight: nat)
      ensures n == KeepFrom(ws, threshold, 0) && weight == SatPrefix(ws, n)
    {
      n, weight := 0, 0;
      while n < |ws|
        invariant 0 <= n <= |ws| && weight == SatPrefix(ws, n)
        invariant KeepFrom(ws, threshold, 0) == KeepFrom(ws, threshold, n)
      {
        weight := SatAdd(weight, ws[n]);
        n := n + 1;
        if weight >= threshold { return; }
      }
    }

    method SampleFromNucleus(cs: seq<Candidate>) returns (token: u32)
      modifies this`engine
      ensures var s := SampleNucleus(cs, old(engine).topP, old(engine).temp, old(engine).seed);
        token == s.token && engine == old(engine).(seed := s.seed)
    {
      if cs == [] { return 0; }
      var ranked := Ranked(cs);
      if |ranked| == 1 || engine.temp <= 1 { return ranked[0].id; }
      var ws := Weights(ranked, engine.temp);
      var total := TotalWeight(ws);
      var n, weight := TakeNucleus(ws, Threshold(total, engine.topP));
      if n <= 1 { return ranked[0].id; }
      SlicePrefix(ws, n, n);
      TotalPositive(ws[..n]);
      token := DrawOne(ranked[..n], ws[..n], weight);
    }

    // ---- Descriptor operations ----

    method Tokenize(a: nat, n: nat, out: nat, bus: Bus) returns (ok: bool)
      modifies bus
      ensures (bus.mem, ok) == TokenizeFrom(old(bus.mem), a, n, out, 0)
    {
      ghost var target := TokenizeFrom(bus.mem, a, n, out, 0);
      var i := 0;
      while i < n
        invariant 0 <= i <= n && target == TokenizeFrom(bus.mem, a, n, out, i)
      {
        var b := bus.ReadByte(a + i);
        if b.None? { return false; }
        TokenizeStep(bus.mem, a, n, out, i, WriteLE(bus.mem, out + i * 4, 4, Classify(b.value)));
        ok := bus.WriteNumber(out + i * 4, 4, Classify(b.value));
        if !ok { return; }
        i := i + 1;
      }
      return true;
    }

    method PoolBag(a: nat, n: nat, bus: Bus) returns (pooled: Option<nat>)
      ensures pooled == BagFrom(bus.mem, a, n, 0, 0)
    {
      var sum: nat, i := 0, 0;
      while i < n
        invariant 0 <= i <= n && BagFrom(bus.mem, a, n, 0, 0) == BagFrom(bus.mem, a, n, i, sum)
      {
        var token := bus.ReadNumber(a + i * 4, 4);
        if token.None? { return None; }
        sum := Wrap32(sum + Embedding(token.value));
        i := i + 1;
      }
      return Some(sum);
    }

    /** The running best of a table of scores: the first of the highest. */
    method Argmax(a: nat, n: u32, bus: Bus) returns (best: Option<nat>)
      ensures var scores := ReadScores(bus.mem, a, n);
        best == if scores.None? then None else Some(FirstMax(scores.value, n))
    {
      var id, high: nat, i := 0, 0, 0;
      ghost var seen: seq<u32> := [];
      while i < n
        invariant 0 <= i <= n && ReadScores(bus.mem, a, i) == Some(seen)
        invariant id == FirstMax(seen, i) && (i > 0 ==> high == seen[id])
      {
        var v := bus.ReadNumber(a + i * 4, 4);
        if v.None? {
          ScoresFailOn(bus.mem, a, i + 1, n);
          return None;
        }
        var score := Wrap32(v.value);
        ScoresGrow(bus.mem, a, seen, i, v.value);
        FirstMaxNext(seen, score, i);
        seen := seen + [score];
        if i == 0 || score > high { id, high := i, score; }
        i := i + 1;
      }
      return Some(id);
    }

    method ReadTable(a: nat, n: u32, bus: Bus) returns (scores: Option<seq<u32>>)
      ensures scores == ReadScores(bus.mem, a, n)
    {
      var seen: seq<u32>, i := [], 0;
      while i < n
        invariant 0 <= i <= n && ReadScores(bus.mem, a, i) == Some(seen)
      {
        var v := bus.ReadNumber(a + i * 4, 4);
        if v.None? {
          ScoresFailOn(bus.mem, a, i + 1, n);
          return None;
        }
        seen := seen + [Wrap32(v.value)];
        i := i + 1;
      }
      return Some(seen);
    }

    method Put(out: nat, result: nat, bus: Bus) returns (ok: bool)
      modifies bus
      ensures Deliver(old(bus.mem), out, result, engine.seed) == Outcome(bus.mem, ok, result, engine.seed)
    {
      ok := bus.WriteNumber(out, 4, result);
    }

    method Sample(a: nat, n: u32, out: nat, nucleus: bool, bus: Bus) returns (ok: bool, result: nat)
      modifies this`engine, bus
      ensures PerformSample(old(engine), old(bus.mem), a, n, out, nucleus) == Outcome(bus.mem, ok, result, engine.seed)
      ensures engine == old(engine).(seed := engine.seed)
    {
      if n == 0 { return false, 0; }
      var scores := ReadTable(a, n, bus);
      if scores.None? { return false, 0; }
      if nucleus {
        result := SampleFromNucleus(Candidates(scores.value));
      } else {
        result := SampleFromCandidates(Candidates(scores.value));
      }
      ok := Put(out, result, bus);
    }

    method Execute(a: nat, n: u32, out: nat, bus: Bus) returns (ok: bool, result: nat)
      modifies this`engine, bus
      ensures Perform(old(engine), old(bus.mem), a, n, out) == Outcome(bus.mem, ok, result, engine.seed)
      ensures engine == old(engine).(seed := engine.seed)
    {
      if engine.opcode == TOKENIZE {
        ok := Tokenize(a, n, out, bus);
        result := n;
      } else if engine.opcode == BAG {
        var pooled := PoolBag(a, n, bus);
        if pooled.None? { return false, 0; }
        result := pooled.value;
        ok := Put(out, result, bus);
      } else if engine.opcode == GREEDY {
        var best := Argmax(a, n, bus);
        if best.None? { return false, 0; }
        result := best.value;
        ok := Put(out, result, bus);
      } else if engine.opcode == TOP_K {
        ok, result := Sample(a, n, out, false, bus);
      } else if engine.opcode == TOP_P {
        ok, result := Sample(a, n, out, true, bus);
      } else {
        return false, 0;
      }
    }

    method ExecuteDescriptorEntry(base: nat, bus: Bus)
      modifies this`engine, bus
      ensures Entry(old(engine), old(bus.mem), base) == Ran(engine, bus.mem)
    {
      var op := bus.ReadNumber(base, 4);
      if op.None? { CountError(); return; }
      engine := engine.(opcode := op.value);
      var a := bus.ReadNumber(base + 4, 4);
      if a.None? { CountError(); return; }
      var n := bus.ReadNumber(base + 8, 4);
      if n.None? { CountError(); return; }
      var out := bus.ReadNumber(base + 12, 4);
      if out.None? { CountError(); return; }
      ghost var e1 := engine;
      var ok, result := Execute(a.value, Wrap32(n.value), out.value, bus);
      Conclude(ok, result, n.value, e1, bus);
    }

    method CountError()
      modifies this`engine
      ensures engine == Failed(old(engine))
    {
      engine := engine.(errs := Wrap32(engine.errs + 1));
    }

    method Conclude(ok: bool, result: nat, n: nat, ghost e1: Engine, bus: Bus)
      requires engine == e1.(seed := engine.seed)
      modifies this`engine
      ensures Finished(e1, Outcome(bus.mem, ok, result, old(engine).seed), n) == Ran(engine, bus.mem)
    {
      if ok {
        engine := engine.(result := result, cycles := Wrap32(engine.cycles + Max1(n)), done := Wrap32(engine.done + 1));
      } else {
        CountError();
      }
    }

    /** Every entry of a notified list, in order. */
    method ProcessPendingDescriptorNotify(bus: Bus)
      modifies this, bus
      ensures !pending && descAddr == old(descAddr) && descLen == old(descLen) && irqEnabled == old(irqEnabled)
      ensures Ran(engine, bus.mem) ==
        if old(pending) then Entries(old(engine), old(bus.mem), descAddr, descLen, 0)
        else Ran(old(engine), old(bus.mem))
      ensures old(pending) ==> !busy && doneFlag && irq == (old(irq) || irqEnabled)
      ensures !old(pending) ==> busy == old(busy) && doneFlag == old(doneFlag) && irq == old(irq)
    {
      if !pending { return; }
      pending, busy, doneFlag := false, true, false;
      RunList(bus);
      busy, doneFlag := false, true;
      if irqEnabled { irq := true; }
    }

    method RunList(bus: Bus)
      modifies this`engine, bus
      ensures Entries(old(engine), old(bus.mem), descAddr, descLen, 0) == Ran(engine, bus.mem)
    {
      ghost var entries := EntriesAsValue();
      ghost var target := Entries(engine, bus.mem, descAddr, descLen, 0);
      var index := 0;
      while index < descLen
        invariant 0 <= index <= descLen && IsEntries(entries)
        invariant target == entries(engine, bus.mem, descAddr, descLen, index)
      {
        RunOne(index, bus, entries);
        index := index + 1;
      }
      EntriesEnd(engine, bus.mem, descAddr, descLen);
    }

    method RunOne(index: nat, bus: Bus, ghost entries: EntriesFunction)
      requires index < descLen && IsEntries(entries)
      modifies this`engine, bus
      ensures entries(old(engine), old(bus.mem), descAddr, descLen, index) ==
        entries(engine, bus.mem, descAddr, descLen, index + 1)
    {
      ghost var r := Entry(engine, bus.mem, descAddr + index * 16);
      EntriesStep(engine, bus.mem, descAddr, descLen, index, r);
      ExecuteDescriptorEntry(descAddr + index * 16, bus);
    }
  }
}
