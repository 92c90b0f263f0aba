/** When a descriptor of the language unit is done, and what it leaves, in terms of its words in memory. */
module LpuMeaning {
  import opened Memory
  import opened LpuSampling
  import opened LpuSpec

  lemma SameAccess(m: Mem, m': Mem, a: int, n: nat)
    requires SameRegions(m, m')
    ensures (Readable(m, a, n) <==> Readable(m', a, n)) && (Writable(m, a, n) <==> Writable(m', a, n))
  {
    assert forall x :: (CanRead(m, x) <==> CanRead(m', x)) && (CanWrite(m, x) <==> CanWrite(m', x));
  }

  lemma WordReads(m: Mem, a: int)
    ensures ReadLE(m, a, 4).Some? <==> Readable(m, a, 4)
  {
    ReadBlockSpec(m, a, 4);
  }

  lemma WordStores(m: Mem, a: int, v: nat)
    ensures WriteLE(m, a, 4, v).ok <==> Writable(m, a, 4)
    ensures SameOutside(m, WriteLE(m, a, 4, v).mem, a, 4)
  {
    WriteBlockSpec(m, a, ToLE(v, 4));
  }

  lemma WordStored(m: Mem, a: int, v: u32)
    requires WriteLE(m, a, 4, v).ok
    ensures ReadLE(WriteLE(m, a, 4, v).mem, a, 4) == Some(v)
  {
    assert Pow256(4) == 0x1_0000_0000;
    WriteLEThenRead(m, a, 4, v);
  }

  // ---- Inputs ----

  lemma {:induction false} ScoresRead(m: Mem, a: nat, n: nat)
    ensures ReadScores(m, a, n).Some? <==> Readable(m, a, n * 4)
  {
    if n > 0 {
      ScoresRead(m, a, n - 1);
      WordReads(m, a + (n - 1) * 4);
      MoreReadable(m, a, n - 1);
    }
  }

  lemma MoreReadable(m: Mem, a: nat, n: nat)
    ensures Readable(m, a, (n + 1) * 4) <==> Readable(m, a, n * 4) && Readable(m, a + n * 4, 4)
  {
    if Readable(m, a, n * 4) && Readable(m, a + n * 4, 4) {
      forall x | a <= x < a + (n + 1) * 4
        ensures CanRead(m, x)
      {
        assert a <= x < a + n * 4 || a + n * 4 <= x < a + n * 4 + 4;
      }
    }
  }

  /** What tokenization needs from byte `i` on. */
  ghost predicate CanTokenize(m: Mem, a: nat, n: nat, out: nat, i: nat) {
    (forall x :: a + i <= x < a + n ==> CanRead(m, x)) && forall x :: out + i * 4 <= x < out + n * 4 ==> CanWrite(m, x)
  }

  lemma TokenizeNeeds(m: Mem, m1: Mem, a: nat, n: nat, out: nat, i: nat)
    requires i < n && SameRegions(m, m1)
    ensures CanTokenize(m, a, n, out, i) <==>
      CanRead(m, a + i) && Writable(m, out + i * 4, 4) && CanTokenize(m1, a, n, out, i + 1)
  {
    assert forall x :: (CanRead(m, x) <==> CanRead(m1, x)) && (CanWrite(m, x) <==> CanWrite(m1, x));
    if CanRead(m, a + i) && Writable(m, out + i * 4, 4) && CanTokenize(m1, a, n, out, i + 1) {
      forall x | a + i <= x < a + n
        ensures CanRead(m, x)
      {
        assert x == a + i || a + (i + 1) <= x;
      }
      forall x | out + i * 4 <= x < out + n * 4
        ensures CanWrite(m, x)
      {
        assert x < out + i * 4 + 4 || out + (i + 1) * 4 <= x;
      }
    }
  }

  /** The next byte, as a step of the value `f`: where it leads, or that it ends there. */
  lemma TokenizeNext(f: TokenFunction, m: Mem, a: nat, n: nat, out: nat, i: nat) returns (m1: Mem)
    requires IsTokenize(f, a, n, out) && i < n
    ensures SameOutside(m, m1, out + i * 4, 4)
    ensures f(m, i) == if CanRead(m, a + i) && Writable(m, out + i * 4, 4) then f(m1, i + 1) else (m1, false)
  {
    assert f(m, i) == TokenizeFrom(m, a, n, out, i);
    m1 := m;
    if CanRead(m, a + i) {
      var w := WriteLE(m, out + i * 4, 4, Classify(m.bytes[a + i]));
      TokenizeStep(m, a, n, out, i, w);
      WordStores(m, out + i * 4, Classify(m.bytes[a + i]));
      m1 := w.mem;
      assert f(m1, i + 1) == TokenizeFrom(m1, a, n, out, i + 1);
    }
  }

  lemma {:induction false} TokenizesWhen(f: TokenFunction, m: Mem, a: nat, n: nat, out: nat, i: nat)
    requires IsTokenize(f, a, n, out) && i <= n
    ensures f(m, i).1 <==> CanTokenize(m, a, n, out, i)
    ensures SameOutside(m, f(m, i).0, out, n * 4)
    decreases n - i
  {
    if i == n {
      TokensDone(f, m, a, n, out);
    } else {
      var m1 := TokenizeNext(f, m, a, n, out, i);
      TokenizeNeeds(m, m1, a, n, out, i);
      TokenizesWhen(f, m1, a, n, out, i + 1);
    }
  }

  lemma TokenizationDone(m: Mem, a: nat, n: nat, out: nat)
    ensures var t := TokenizeFrom(m, a, n, out, 0);
      (t.1 <==> Readable(m, a, n) && Writable(m, out, n * 4)) && SameOutside(m, t.0, out, n * 4)
  {
    var f := TokenizeAsValue(a, n, out);
    TokenizesWhen(f, m, a, n, out, 0);
    assert TokenizeFrom(m, a, n, out, 0) == f(m, 0);
  }

  // ---- When an entry is done ----

  /** Four words: operation, input, length, output. */
  datatype Words = Words(op: u32, a: u32, n: u32, out: u32)

  predicate StandAt(m: Mem, base: nat, d: Words) {
    ReadLE(m, base, 4) == Some(d.op) && ReadLE(m, base + 4, 4) == Some(d.a) && ReadLE(m, base + 8, 4) == Some(d.n) &&
    ReadLE(m, base + 12, 4) == Some(d.out)
  }

  /** The operation is known, its input can be read, and every byte of its output takes a store. */
  ghost predicate CanDo(m: Mem, d: Words) {
    if d.op == 0x10 then Readable(m, d.a, d.n) && Writable(m, d.out, d.n * 4)
    else if d.op == 0x11 || d.op == 0x12 then Readable(m, d.a, d.n * 4) && Writable(m, d.out, 4)
    else if d.op == 0x13 || d.op == 0x14 then d.n > 0 && Readable(m, d.a, d.n * 4) && Writable(m, d.out, 4)
    else false
  }

  /** The entry's words can be read and say something that can be done. */
  ghost predicate Doable(m: Mem, base: nat) {
    exists d: Words :: StandAt(m, base, d) && CanDo(m, d)
  }

  lemma DeliveredWhen(m: Mem, out: nat, result: nat, seed: u32)
    ensures Deliver(m, out, result, seed).ok <==> Writable(m, out, 4)
    ensures SameOutside(m, Deliver(m, out, result, seed).mem, out, 4)
  {
    WordStores(m, out, result);
  }

  lemma BagDoneWhen(m: Mem, a: nat, n: nat, out: nat, seed: u32)
    ensures PerformBag(m, a, n, out, seed).ok <==> Readable(m, a, n * 4) && Writable(m, out, 4)
    ensures SameOutside(m, PerformBag(m, a, n, out, seed).mem, out, 4)
  {
    ScoresRead(m, a, n);
    BagIsSum(m, a, n);
    var pooled := BagFrom(m, a, n, 0, 0);
    if pooled.Some? { DeliveredWhen(m, out, pooled.value, seed); }
  }

  lemma GreedyDoneWhen(m: Mem, a: nat, n: u32, out: nat, seed: u32)
    ensures PerformGreedy(m, a, n, out, seed).ok <==> Readable(m, a, n * 4) && Writable(m, out, 4)
    ensures SameOutside(m, PerformGreedy(m, a, n, out, seed).mem, out, 4)
  {
    ScoresRead(m, a, n);
    var scores := ReadScores(m, a, n);
    if scores.Some? { DeliveredWhen(m, out, FirstMax(scores.value, n), seed); }
  }

  lemma SampleDoneWhen(e: Engine, m: Mem, a: nat, n: u32, out: nat, nucleus: bool)
    ensures PerformSample(e, m, a, n, out, nucleus).ok <==> n > 0 && Readable(m, a, n * 4) && Writable(m, out, 4)
    ensures SameOutside(m, PerformSample(e, m, a, n, out, nucleus).mem, out, 4)
  {
    ScoresRead(m, a, n);
    var scores := ReadScores(m, a, n);
    if n > 0 && scores.Some? {
      var s := if nucleus then SampleNucleus(Candidates(scores.value), e.topP, e.temp, e.seed)
               else SampleTopK(Candidates(scores.value), e.topK, e.temp, e.seed);
      DeliveredWhen(m, out, s.token, s.seed);
    }
  }

  /** How many bytes an operation may store. */
  function Span(d: Words): nat { if d.op == 0x10 then d.n * 4 else 4 }

  lemma PerformedWhen(e: Engine, m: Mem, d: Words)
    requires e.opcode == d.op
    ensures Perform(e, m, d.a, d.n, d.out).ok <==> CanDo(m, d)
    ensures SameOutside(m, Perform(e, m, d.a, d.n, d.out).mem, d.out, Span(d))
  {
    if d.op == 0x10 {
      TokenizationDone(m, d.a, d.n, d.out);
    } else if d.op == 0x11 {
      BagDoneWhen(m, d.a, d.n, d.out, e.seed);
    } else if d.op == 0x12 {
      GreedyDoneWhen(m, d.a, d.n, d.out, e.seed);
    } else if d.op == 0x13 || d.op == 0x14 {
      SampleDoneWhen(e, m, d.a, d.n, d.out, d.op == 0x14);
    }
  }

  lemma SameWord(x: u32)
    ensures Wrap32(x) == x
  {
  }

  lemma EntryIs(e: Engine, m: Mem, base: nat, d: Words, e1: Engine)
    requires StandAt(m, base, d) && e1 == e.(opcode := d.op)
    ensures Entry(e, m, base) == Finished(e1, Perform(e1, m, d.a, d.n, d.out), d.n)
  {
    SameWord(d.n);
  }

  /** Either the four words stand there, or one of them cannot be read. */
  lemma WordsOrNone(m: Mem, base: nat) returns (d: Option<Words>)
    ensures d.Some? ==> StandAt(m, base, d.value)
    ensures d.None? ==>
      ReadLE(m, base, 4).None? || ReadLE(m, base + 4, 4).None? || ReadLE(m, base + 8, 4).None? ||
      ReadLE(m, base + 12, 4).None?
  {
    var op, a, n, out := ReadLE(m, base, 4), ReadLE(m, base + 4, 4), ReadLE(m, base + 8, 4), ReadLE(m, base + 12, 4);
    d := None;
    if op.Some? && a.Some? && n.Some? && out.Some? {
      WordFits(m, base);
      WordFits(m, base + 4);
      WordFits(m, base + 8);
      WordFits(m, base + 12);
      d := Some(Words(op.value, a.value, n.value, out.value));
    }
  }

  lemma EntryUnread(e: Engine, m: Mem, base: nat)
    requires ReadLE(m, base, 4).None? || ReadLE(m, base + 4, 4).None? || ReadLE(m, base + 8, 4).None? ||
      ReadLE(m, base + 12, 4).None?
    ensures var r := Entry(e, m, base);
      r.mem == m && r.engine == e.(opcode := r.engine.opcode, errs := (e.errs + 1) % 0x1_0000_0000)
  {
  }

  /** What an entry adds to the counters. */
  predicate CountsAs(e: Engine, e': Engine, done: bool) {
    e'.done == (if done then (e.done + 1) % 0x1_0000_0000 else e.done) &&
    e'.errs == (if done then e.errs else (e.errs + 1) % 0x1_0000_0000)
  }

  lemma FinishedCounts(e: Engine, o: Outcome, n: nat)
    ensures CountsAs(e, Finished(e, o, n).engine, o.ok) && Finished(e, o, n).mem == o.mem
  {
  }

  lemma OneReading(m: Mem, base: nat, d: Words, d': Words)
    requires StandAt(m, base, d) && StandAt(m, base, d')
    ensures d == d'
  {
  }

  lemma ReadEntryCounts(e: Engine, m: Mem, base: nat, d: Words)
    requires StandAt(m, base, d)
    ensures CountsAs(e, Entry(e, m, base).engine, CanDo(m, d))
    ensures SameOutside(m, Entry(e, m, base).mem, d.out, Span(d))
  {
    var e1 := e.(opcode := d.op);
    EntryIs(e, m, base, d, e1);
    PerformedWhen(e1, m, d);
    FinishedCounts(e1, Perform(e1, m, d.a, d.n, d.out), d.n);
  }

  lemma DoableMeans(m: Mem, base: nat, d: Words)
    requires StandAt(m, base, d)
    ensures Doable(m, base) <==> CanDo(m, d)
  {
    if d': Words :| StandAt(m, base, d') && CanDo(m, d') { OneReading(m, base, d, d'); }
  }

  /** Main result: an entry counts as done if and only if its words can be read, its operation is one of the five, its
      input can be read, sampling has a candidate, and every byte of its output takes a store; otherwise it counts as
      an error. */
  lemma EntryDoneExactly(e: Engine, m: Mem, base: nat)
    ensures CountsAs(e, Entry(e, m, base).engine, Doable(m, base))
  {
    EntryCountsAs(e, m, base, Entry(e, m, base), Doable(m, base));
  }

  lemma EntryCountsAs(e: Engine, m: Mem, base: nat, r: Ran, ok: bool)
    requires r == Entry(e, m, base) && ok == Doable(m, base)
    ensures CountsAs(e, r.engine, ok)
  {
    var d := WordsOrNone(m, base);
    if d.Some? {
      DoableMeans(m, base, d.value);
      ReadEntryCounts(e, m, base, d.value);
    } else {
      EntryUnread(e, m, base);
    }
  }

  // ---- What an entry that is done leaves ----

  /** The first of the highest scores. */
  ghost predicate IsArgmax(scores: seq<u32>, b: nat) {
    if scores == [] then b == 0
    else
      b < |scores| && (forall j :: 0 <= j < |scores| ==> scores[j] <= scores[b]) &&
      (forall j :: 0 <= j < b ==> scores[j] < scores[b])
  }

  /** The words of the table at `a`. */
  ghost predicate TableIs(m: Mem, a: nat, scores: seq<u32>) {
    forall i: nat :: i < |scores| ==> ReadLE(m, a + i * 4, 4) == Some(scores[i])
  }

  lemma {:induction false} TableReads(m: Mem, a: nat, n: nat, scores: seq<u32>)
    requires ReadScores(m, a, n) == Some(scores)
    ensures |scores| == n && TableIs(m, a, scores)
  {
    if n > 0 {
      var before := ReadScores(m, a, n - 1).value;
      TableReads(m, a, n - 1, before);
      WordFits(m, a + (n - 1) * 4);
      SameWord(ReadLE(m, a + (n - 1) * 4, 4).value);
      assert scores == before + [ReadLE(m, a + (n - 1) * 4, 4).value];
    }
  }

  /** The result of an operation on a table. */
  ghost predicate ResultIs(e: Engine, d: Words, scores: seq<u32>, result: u32, seed: u32)
    requires |scores| == d.n
  {
    if d.op == 0x11 then result == EmbeddingSum(scores) % 0x1_0000_0000 && seed == e.seed
    else if d.op == 0x12 then IsArgmax(scores, result) && seed == e.seed
    else if d.op == 0x13 then Sampled(result, seed) == SampleTopK(Candidates(scores), e.topK, e.temp, e.seed)
    else Sampled(result, seed) == SampleNucleus(Candidates(scores), e.topP, e.temp, e.seed)
  }

  /** Where the tokens come from, one by one. */
  lemma EmbeddingIs(token: nat)
    ensures Embedding(token) == if token < 5 then [1, 4, 6, 3, 2][token] else 0
  {
  }

  lemma Delivers(m: Mem, out: nat, result: u32, seed: u32)
    requires Writable(m, out, 4)
    ensures var o := Deliver(m, out, result, seed);
      o.ok && o.result == result && o.seed == seed && ReadLE(o.mem, out, 4) == Some(result) &&
      SameOutside(m, o.mem, out, 4)
  {
    WordStores(m, out, result);
    WordStored(m, out, result);
  }

  /** What an operation on a table hands over. */
  ghost predicate Produces(e: Engine, m: Mem, d: Words, scores: seq<u32>, result: u32, o: Outcome) {
    |scores| == d.n && TableIs(m, d.a, scores) && ResultIs(e, d, scores, result, o.seed) &&
    o.ok && o.result == result && ReadLE(o.mem, d.out, 4) == Some(result) && SameOutside(m, o.mem, d.out, 4)
  }

  lemma TableRead(m: Mem, a: nat, n: nat) returns (scores: seq<u32>)
    requires Readable(m, a, n * 4)
    ensures ReadScores(m, a, n) == Some(scores) && |scores| == n && TableIs(m, a, scores)
  {
    ScoresRead(m, a, n);
    scores := ReadScores(m, a, n).value;
    TableReads(m, a, n, scores);
  }

  lemma BagProduces(e: Engine, m: Mem, d: Words, scores: seq<u32>) returns (result: u32)
    requires d.op == 0x11 && ReadScores(m, d.a, d.n) == Some(scores) && TableIs(m, d.a, scores) && Writable(m, d.out, 4)
    ensures Produces(e, m, d, scores, result, PerformBag(m, d.a, d.n, d.out, e.seed))
  {
    BagIsSum(m, d.a, d.n);
    result := Wrap32(EmbeddingSum(scores));
    Delivers(m, d.out, result, e.seed);
  }

  lemma GreedyProduces(e: Engine, m: Mem, d: Words, scores: seq<u32>) returns (result: u32)
    requires d.op == 0x12 && ReadScores(m, d.a, d.n) == Some(scores) && TableIs(m, d.a, scores) && Writable(m, d.out, 4)
    ensures Produces(e, m, d, scores, result, PerformGreedy(m, d.a, d.n, d.out, e.seed))
  {
    result := FirstMax(scores, d.n);
    if d.n > 0 { FirstMaxIs(scores, d.n); }
    Delivers(m, d.out, result, e.seed);
  }

  lemma SampleProduces(e: Engine, m: Mem, d: Words, scores: seq<u32>) returns (result: u32)
    requires (d.op == 0x13 || d.op == 0x14) && d.n > 0 && ReadScores(m, d.a, d.n) == Some(scores)
    requires TableIs(m, d.a, scores) && Writable(m, d.out, 4)
    ensures Produces(e, m, d, scores, result, PerformSample(e, m, d.a, d.n, d.out, d.op == 0x14))
  {
    var s := if d.op == 0x14 then SampleNucleus(Candidates(scores), e.topP, e.temp, e.seed)
             else SampleTopK(Candidates(scores), e.topK, e.temp, e.seed);
    result := s.token;
    Delivers(m, d.out, result, s.seed);
  }

  lemma TableProduces(e: Engine, m: Mem, d: Words) returns (scores: seq<u32>, result: u32)
    requires e.opcode == d.op && 0x11 <= d.op <= 0x14 && CanDo(m, d)
    ensures Produces(e, m, d, scores, result, Perform(e, m, d.a, d.n, d.out))
  {
    scores := TableRead(m, d.a, d.n);
    if d.op == 0x11 {
      result := BagProduces(e, m, d, scores);
    } else if d.op == 0x12 {
      result := GreedyProduces(e, m, d, scores);
    } else {
      result := SampleProduces(e, m, d, scores);
    }
  }

  /** The engine after an entry that is done. */
  function DoneWith(e: Engine, d: Words, result: nat, seed: u32): Engine {
    e.(opcode := d.op, result := result, seed := seed, done := (e.done + 1) % 0x1_0000_0000,
       cycles := (e.cycles + (if d.n == 0 then 1 else d.n)) % 0x1_0000_0000)
  }

  lemma FinishedIs(e: Engine, d: Words, e1: Engine, o: Outcome)
    requires e1 == e.(opcode := d.op) && o.ok
    ensures Finished(e1, o, d.n) == Ran(DoneWith(e, d, o.result, o.seed), o.mem)
  {
  }

  /** Main result: an entry on a table of words leaves in its output word, and in the result register, the pooled
      embeddings, the first of the highest scores, or the token sampled, and touches nothing else of memory. */
  lemma TableEntryMeans(e: Engine, m: Mem, base: nat, d: Words) returns (scores: seq<u32>, result: u32)
    requires StandAt(m, base, d) && 0x11 <= d.op <= 0x14 && CanDo(m, d)
    ensures |scores| == d.n && TableIs(m, d.a, scores)
    ensures var r := Entry(e, m, base);
      ResultIs(e, d, scores, result, r.engine.seed) && r.engine == DoneWith(e, d, result, r.engine.seed) &&
      ReadLE(r.mem, d.out, 4) == Some(result) && SameOutside(m, r.mem, d.out, 4)
  {
    var e1 := e.(opcode := d.op);
    scores, result := TableProduces(e1, m, d);
    EntryIs(e, m, base, d, e1);
    FinishedIs(e, d, e1, Perform(e1, m, d.a, d.n, d.out));
  }

  /** The output holds the class of every input byte. */
  ghost predicate ClassesIn(m: Mem, m': Mem, d: Words) {
    forall i: nat :: i < d.n ==> ClassIn(m, m', d, i)
  }

  predicate ClassIn(m: Mem, m': Mem, d: Words, i: nat) {
    CanRead(m, d.a + i) && ReadLE(m', d.out + i * 4, 4) == Some(Classify(m.bytes[d.a + i]))
  }

  lemma TokenizeClasses(f: TokenFunction, m: Mem, d: Words, m': Mem)
    requires IsTokenize(f, d.a, d.n, d.out) && Apart(d.a, d.n, d.out, d.n * 4) && f(m, 0) == (m', true)
    ensures ClassesIn(m, m', d)
  {
    forall i: nat | i < d.n
      ensures ClassIn(m, m', d, i)
    {
      TokenReached(f, m, d.a, d.n, d.out, m', i);
    }
  }

  lemma Tokenized(m: Mem, d: Words, t: (Mem, bool))
    requires d.op == 0x10 && CanDo(m, d) && Apart(d.a, d.n, d.out, d.n * 4)
    requires t == TokenizeFrom(m, d.a, d.n, d.out, 0)
    ensures t.1 && ClassesIn(m, t.0, d) && SameOutside(m, t.0, d.out, d.n * 4)
  {
    TokenizationDone(m, d.a, d.n, d.out);
    var f := TokenizeAsValue(d.a, d.n, d.out);
    TokenizeClasses(f, m, d, t.0);
  }

  /** Main result: a tokenizing entry with input and output apart leaves the class of every input byte in its word of
      the output, and touches nothing else. */
  lemma TokenizeEntryMeans(e: Engine, m: Mem, base: nat, d: Words)
    requires StandAt(m, base, d) && d.op == 0x10 && CanDo(m, d) && Apart(d.a, d.n, d.out, d.n * 4)
    ensures var r := Entry(e, m, base);
      ClassesIn(m, r.mem, d) && SameOutside(m, r.mem, d.out, d.n * 4) && r.engine == DoneWith(e, d, d.n, e.seed)
  {
    var e1 := e.(opcode := d.op);
    var t := TokenizeFrom(m, d.a, d.n, d.out, 0);
    Tokenized(m, d, t);
    EntryIs(e, m, base, d, e1);
    FinishedIs(e, d, e1, Outcome(t.0, t.1, d.n, e.seed));
  }
}
