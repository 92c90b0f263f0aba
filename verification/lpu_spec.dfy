/** The language unit's descriptor engine: each entry of a notified list is done or counted as an
    error, never both and never neither. */
module LpuSpec {
  import opened Memory
  import opened LpuSampling

  const TOKENIZE: nat := 0x10
  const BAG: nat := 0x11
  const GREEDY: nat := 0x12
  const TOP_K: nat := 0x13
  const TOP_P: nat := 0x14

  /** Counters are 32-bit and wrap. */
  datatype Engine = Engine(
    opcode: nat, result: nat, cycles: u32, done: u32, errs: u32, seed: u32, topK: nat, temp: nat, topP: nat)

  function Wrap32(x: nat): u32 { x % 0x1_0000_0000 }

  // ---- Operations on memory ----

  function Classify(b: nat): nat {
    if b == 0x20 || b == 0x0A || b == 0x0D || b == 0x09 then 0
    else if 0x61 <= b <= 0x7A || 0x41 <= b <= 0x5A then 1
    else if 0x30 <= b <= 0x39 then 2
    else if 0x21 <= b <= 0x2F || 0x3A <= b <= 0x40 || 0x5B <= b <= 0x60 || 0x7B <= b <= 0x7E then 3
    else 4
  }

  /** Tokens by kind of character: white space, letters, digits, other printable ASCII, the rest. */
  lemma ClassifyMeans(c: char)
    requires c as int < 0x100
    ensures var k := Classify(c as int);
      (k == 0 <==> c == ' ' || c == '\n' || c == '\r' || c == '\t') &&
      (k == 1 <==> 'a' <= c <= 'z' || 'A' <= c <= 'Z') &&
      (k == 2 <==> '0' <= c <= '9') &&
      (k == 3 <==> '!' <= c <= '~' && k != 1 && k != 2) && k <= 4
  {
  }

  function Embedding(token: nat): nat {
    if token == 0 then 1 else if token == 1 then 4 else if token == 2 then 6
    else if token == 3 then 3 else if token == 4 then 2 else 0
  }

  /** Token by token from number `i` on; what was written before a failure stays. */
  function TokenizeFrom(m: Mem, a: nat, n: nat, out: nat, i: nat): (r: (Mem, bool))
    ensures SameRegions(m, r.0)
    decreases n - i
  {
    if i >= n then (m, true)
    else if !CanRead(m, a + i) then (m, false)
    else
      var w := WriteLE(m, out + i * 4, 4, Classify(m.bytes[a + i]));
      if w.ok then TokenizeFrom(w.mem, a, n, out, i + 1) else (w.mem, false)
  }

  lemma TokenizeStep(m: Mem, a: nat, n: nat, out: nat, i: nat, w: Stored)
    requires i < n && CanRead(m, a + i) && w == WriteLE(m, out + i * 4, 4, Classify(m.bytes[a + i]))
    ensures TokenizeFrom(m, a, n, out, i) == if w.ok then TokenizeFrom(w.mem, a, n, out, i + 1) else (w.mem, false)
  {
  }

  function BagFrom(m: Mem, a: nat, n: nat, i: nat, pooled: nat): Option<nat>
    decreases n - i
  {
    if i >= n then Some(pooled)
    else match ReadLE(m, a + i * 4, 4)
      case None => None
      case Some(token) => BagFrom(m, a, n, i + 1, Wrap32(pooled + Embedding(token)))
  }

  /** The first `n` scores of the table at `a`. */
  function ReadScores(m: Mem, a: nat, n: nat): (r: Option<seq<u32>>)
    ensures r.Some? ==> |r.value| == n
    decreases m, n
  {
    if n == 0 then Some([])
    else match ReadScores(m, a, n - 1)
      case None => None
      case Some(s) =>
        match ReadLE(m, a + (n - 1) * 4, 4)
        case None => None
        case Some(v) => Some(s + [Wrap32(v)])
  }

  lemma {:induction false} ScoresFailOn(m: Mem, a: nat, i: nat, n: nat)
    requires i <= n && ReadScores(m, a, i).None?
    ensures ReadScores(m, a, n).None?
    decreases n
  {
    if i < n { ScoresFailOn(m, a, i, n - 1); }
  }

  // ---- What the memory operations amount to ----

  /** The embeddings of all tokens together. */
  function EmbeddingSum(tokens: seq<u32>): nat {
    if tokens == [] then 0 else EmbeddingSum(tokens[..|tokens| - 1]) + Embedding(tokens[|tokens| - 1])
  }

  lemma SumNext(tokens: seq<u32>, t: u32)
    ensures EmbeddingSum(tokens + [t]) == EmbeddingSum(tokens) + Embedding(t)
  {
    assert (tokens + [t])[..|tokens|] == tokens;
  }

  lemma WrapKeeps(m: Mem, a: nat)
    ensures ReadLE(m, a, 4).Some? ==> Wrap32(ReadLE(m, a, 4).value) == ReadLE(m, a, 4).value
  {
    assert Pow256(4) == 0x1_0000_0000;
  }

  lemma ScoresNext(m: Mem, a: nat, i: nat, tokens: seq<u32>, t: nat)
    requires ReadScores(m, a, i) == Some(tokens) && ReadLE(m, a + i * 4, 4) == Some(t)
    ensures t < 0x1_0000_0000 && ReadScores(m, a, i + 1) == Some(tokens + [t])
  {
    WrapKeeps(m, a + i * 4);
  }

  lemma BagNext(m: Mem, a: nat, n: nat, i: nat, pooled: nat, t: nat)
    requires i < n && ReadLE(m, a + i * 4, 4) == Some(t)
    ensures BagFrom(m, a, n, i, pooled) == BagFrom(m, a, n, i + 1, Wrap32(pooled + Embedding(t)))
  {
  }

  /** The sum of the embeddings of the tokens, if they could be read. */
  function Pooled(tokens: Option<seq<u32>>): Option<nat> {
    if tokens.None? then None else Some(Wrap32(EmbeddingSum(tokens.value)))
  }

  lemma PooledNext(tokens: seq<u32>, t: u32, pooled: nat)
    requires pooled == Wrap32(EmbeddingSum(tokens))
    ensures Wrap32(pooled + Embedding(t)) == Wrap32(EmbeddingSum(tokens + [t]))
  {
    SumNext(tokens, t);
    WrapSum(EmbeddingSum(tokens), Embedding(t));
  }

  lemma {:induction false} BagAlong(m: Mem, a: nat, n: nat, i: nat, tokens: seq<u32>, pooled: nat)
    requires i <= n && ReadScores(m, a, i) == Some(tokens) && pooled == Wrap32(EmbeddingSum(tokens))
    ensures BagFrom(m, a, n, i, pooled) == Pooled(ReadScores(m, a, n))
    decreases n - i
  {
    if i < n {
      match ReadLE(m, a + i * 4, 4)
      case None => ScoresFailOn(m, a, i + 1, n);
      case Some(t) =>
        ScoresNext(m, a, i, tokens, t);
        BagNext(m, a, n, i, pooled, t);
        PooledNext(tokens, t, pooled);
        BagAlong(m, a, n, i + 1, tokens + [t], Wrap32(pooled + Embedding(t)));
    }
  }

  lemma WrapSum(x: nat, y: nat)
    ensures Wrap32(Wrap32(x) + y) == Wrap32(x + y)
  {
  }

  /** A bag pools to the sum of its tokens' embeddings modulo 2^32, and fails exactly when a token cannot
      be read. */
  lemma BagIsSum(m: Mem, a: nat, n: nat)
    ensures BagFrom(m, a, n, 0, 0) ==
      match ReadScores(m, a, n)
      case None => None
      case Some(tokens) => Some(Wrap32(EmbeddingSum(tokens)))
  {
    BagAlong(m, a, n, 0, [], 0);
  }

  lemma NumberElsewhere(m: Mem, m': Mem, at: nat, v: nat, b: int, k: nat)
    requires Apart(at, 4, b, k) && m' == WriteLE(m, at, 4, v).mem
    ensures SameRegions(m, m') && AgreeOn(m, m', b, k)
  {
    WriteBlockElsewhere(m, at, ToLE(v, 4), b, k);
  }

  // The lemmas below know tokenization as a value, not by its definition, so that they follow from the
  // step lemmas alone.

  type TokenFunction = (Mem, nat) -> (Mem, bool)

  ghost predicate IsTokenize(f: TokenFunction, a: nat, n: nat, out: nat) {
    forall m, i {:trigger TokenizeFrom(m, a, n, out, i)} :: f(m, i) == TokenizeFrom(m, a, n, out, i)
  }

  lemma TokenizeAsValue(a: nat, n: nat, out: nat) returns (f: TokenFunction)
    ensures IsTokenize(f, a, n, out)
  {
    f := (m: Mem, i: nat) => TokenizeFrom(m, a, n, out, i);
  }

  /** Byte `i` either ends the tokenization or leads to the next; nothing outside its word changes. */
  lemma TokenizeOnce(f: TokenFunction, m: Mem, a: nat, n: nat, out: nat, i: nat, b: int, k: nat)
      returns (m1: Mem, more: bool)
    requires IsTokenize(f, a, n, out) && i < n && Apart(out + i * 4, 4, b, k)
    ensures f(m, i) == if more then f(m1, i + 1) else (m1, false)
    ensures AgreeOn(m, m1, b, k)
  {
    assert f(m, i) == TokenizeFrom(m, a, n, out, i);
    m1, more := m, false;
    if CanRead(m, a + i) {
      var w := WriteLE(m, out + i * 4, 4, Classify(m.bytes[a + i]));
      TokenizeStep(m, a, n, out, i, w);
      NumberElsewhere(m, w.mem, out + i * 4, Classify(m.bytes[a + i]), b, k);
      m1, more := w.mem, w.ok;
      assert f(m1, i + 1) == TokenizeFrom(m1, a, n, out, i + 1);
    }
  }

  lemma TokensDone(f: TokenFunction, m: Mem, a: nat, n: nat, out: nat)
    requires IsTokenize(f, a, n, out)
    ensures f(m, n) == (m, true)
  {
    assert f(m, n) == TokenizeFrom(m, a, n, out, n);
  }

  lemma {:induction false} TokenizeElsewhere(f: TokenFunction, m: Mem, a: nat, n: nat, out: nat, i: nat, b: int, k: nat)
    requires IsTokenize(f, a, n, out) && i <= n && Apart(out + i * 4, (n - i) * 4, b, k)
    ensures AgreeOn(m, f(m, i).0, b, k)
    decreases n - i
  {
    if i == n {
      TokensDone(f, m, a, n, out);
    } else {
      var m1, more := TokenizeOnce(f, m, a, n, out, i, b, k);
      if more { TokenizeElsewhere(f, m1, a, n, out, i + 1, b, k); }
    }
  }

  /** One token: written where it belongs, and still there at the end. */
  lemma TokenStays(f: TokenFunction, m: Mem, m': Mem, a: nat, n: nat, out: nat, i: nat, v: nat, at: nat)
    requires IsTokenize(f, a, n, out) && i < n && at == out + i * 4 && v < 0x1_0000_0000
    requires WriteLE(m, at, 4, v).ok && m' == WriteLE(m, at, 4, v).mem
    ensures ReadLE(f(m', i + 1).0, at, 4) == Some(v)
  {
    assert Pow256(4) == 0x1_0000_0000;
    WriteLEThenRead(m, at, 4, v);
    TokenizeElsewhere(f, m', a, n, out, i + 1, at, 4);
    TokensShape(f, m', a, n, out, i + 1);
    ReadLEFrame(m', f(m', i + 1).0, at, 4);
  }

  lemma TokensShape(f: TokenFunction, m: Mem, a: nat, n: nat, out: nat, i: nat)
    requires IsTokenize(f, a, n, out)
    ensures SameRegions(m, f(m, i).0)
  {
    assert f(m, i) == TokenizeFrom(m, a, n, out, i);
  }

  /** A finished tokenization has read its next byte, stored the class, and finished the rest. */
  lemma FirstToken(m: Mem, a: nat, n: nat, out: nat, i: nat) returns (m1: Mem, v: nat)
    requires i < n && TokenizeFrom(m, a, n, out, i).1
    ensures CanRead(m, a + i) && v == Classify(m.bytes[a + i])
    ensures var w := WriteLE(m, out + i * 4, 4, v); w.ok && m1 == w.mem
    ensures TokenizeFrom(m, a, n, out, i) == TokenizeFrom(m1, a, n, out, i + 1)
  {
    assert CanRead(m, a + i);
    v := Classify(m.bytes[a + i]);
    var w := WriteLE(m, out + i * 4, 4, v);
    TokenizeStep(m, a, n, out, i, w);
    m1 := w.mem;
  }

  lemma TokenNow(f: TokenFunction, m: Mem, a: nat, n: nat, out: nat, i: nat, at: nat, last: Mem)
    requires IsTokenize(f, a, n, out) && i < n && at == out + i * 4 && f(m, i) == (last, true)
    ensures CanRead(m, a + i) && ReadLE(last, at, 4) == Some(Classify(m.bytes[a + i]))
  {
    assert TokenizeFrom(m, a, n, out, i) == (last, true);
    var m1, v := FirstToken(m, a, n, out, i);
    TokenStays(f, m, m1, a, n, out, i, v, at);
  }

  /** Storing one token leaves every byte elsewhere as it was. */
  lemma FirstTokenKeeps(f: TokenFunction, m: Mem, a: nat, n: nat, out: nat, i: nat, x: nat) returns (m1: Mem)
    requires IsTokenize(f, a, n, out) && i < n && f(m, i).1 && Apart(out + i * 4, 4, x, 1)
    ensures f(m, i) == f(m1, i + 1)
    ensures (CanRead(m1, x) <==> CanRead(m, x)) && (CanRead(m, x) ==> m1.bytes[x] == m.bytes[x])
  {
    assert TokenizeFrom(m, a, n, out, i).1;
    var v;
    m1, v := FirstToken(m, a, n, out, i);
    NumberElsewhere(m, m1, out + i * 4, v, x, 1);
  }

  /** Tokenization reaches every input byte with that byte unchanged. */
  lemma {:induction false} ReachesToken(f: TokenFunction, m: Mem, a: nat, n: nat, out: nat, i: nat, j: nat)
      returns (m1: Mem)
    requires IsTokenize(f, a, n, out) && i <= j < n && f(m, i).1 && Apart(a, n, out, n * 4)
    ensures f(m, i) == f(m1, j)
    ensures (CanRead(m1, a + j) <==> CanRead(m, a + j)) && (CanRead(m, a + j) ==> m1.bytes[a + j] == m.bytes[a + j])
    decreases j - i
  {
    if i == j { return m; }
    var next := FirstTokenKeeps(f, m, a, n, out, i, a + j);
    m1 := ReachesToken(f, next, a, n, out, i + 1, j);
  }

  lemma TokenReached(f: TokenFunction, m: Mem, a: nat, n: nat, out: nat, last: Mem, j: nat)
    requires IsTokenize(f, a, n, out) && f(m, 0) == (last, true) && Apart(a, n, out, n * 4) && j < n
    ensures CanRead(m, a + j) && ReadLE(last, out + j * 4, 4) == Some(Classify(m.bytes[a + j]))
  {
    var m1 := ReachesToken(f, m, a, n, out, 0, j);
    TokenNow(f, m1, a, n, out, j, out + j * 4, last);
  }

  /** With input and output apart, a finished tokenization has put the class of every input byte, as it was
      at the start, into its word of the output. */
  lemma TokensAreClasses(m: Mem, a: nat, n: nat, out: nat, last: Mem, j: nat)
    requires TokenizeFrom(m, a, n, out, 0) == (last, true) && Apart(a, n, out, n * 4) && j < n
    ensures CanRead(m, a + j) && ReadLE(last, out + j * 4, 4) == Some(Classify(m.bytes[a + j]))
  {
    var f := TokenizeAsValue(a, n, out);
    TokenReached(f, m, a, n, out, last, j);
  }

  // ---- Descriptors ----

  datatype Outcome = Outcome(mem: Mem, ok: bool, result: nat, seed: u32)

  /** Stores a result; only a stored result reaches the result register. */
  function Deliver(m: Mem, out: nat, result: nat, seed: u32): (o: Outcome)
    ensures SameRegions(m, o.mem)
  {
    var w := WriteLE(m, out, 4, result);
    Outcome(w.mem, w.ok, result, seed)
  }

  function PerformBag(m: Mem, a: nat, n: nat, out: nat, seed: u32): (o: Outcome)
    ensures SameRegions(m, o.mem)
  {
    match BagFrom(m, a, n, 0, 0)
    case None => Outcome(m, false, 0, seed)
    case Some(pooled) => Deliver(m, out, pooled, seed)
  }

  function PerformGreedy(m: Mem, a: nat, n: u32, out: nat, seed: u32): (o: Outcome)
    ensures SameRegions(m, o.mem)
  {
    match ReadScores(m, a, n)
    case None => Outcome(m, false, 0, seed)
    case Some(scores) => Deliver(m, out, FirstMax(scores, n), seed)
  }

  /** Sampling needs at least one candidate; the generator moves even if the store then fails. */
  function PerformSample(e: Engine, m: Mem, a: nat, n: u32, out: nat, nucleus: bool): (o: Outcome)
    ensures SameRegions(m, o.mem)
  {
    if n == 0 then Outcome(m, false, 0, e.seed)
    else match ReadScores(m, a, n)
      case None => Outcome(m, false, 0, e.seed)
      case Some(scores) =>
        var s := if nucleus then SampleNucleus(Candidates(scores), e.topP, e.temp, e.seed)
                 else SampleTopK(Candidates(scores), e.topK, e.temp, e.seed);
        Deliver(m, out, s.token, s.seed)
  }

  function Perform(e: Engine, m: Mem, a: nat, n: u32, out: nat): (o: Outcome)
    ensures SameRegions(m, o.mem)
  {
    if e.opcode == TOKENIZE then var t := TokenizeFrom(m, a, n, out, 0); Outcome(t.0, t.1, n, e.seed)
    else if e.opcode == BAG then PerformBag(m, a, n, out, e.seed)
    else if e.opcode == GREEDY then PerformGreedy(m, a, n, out, e.seed)
    else if e.opcode == TOP_K then PerformSample(e, m, a, n, out, false)
    else if e.opcode == TOP_P then PerformSample(e, m, a, n, out, true)
    else Outcome(m, false, 0, e.seed)
  }

  datatype Ran = Ran(engine: Engine, mem: Mem)

  function Failed(e: Engine): Engine { e.(errs := Wrap32(e.errs + 1)) }

  function Finished(e: Engine, o: Outcome, n: nat): Ran {
    var e' := e.(seed := o.seed);
    Ran(if o.ok then e'.(result := o.result, cycles := Wrap32(e.cycles + Max1(n)), done := Wrap32(e.done + 1))
        else Failed(e'), o.mem)
  }

  /** One entry of the list.  The opcode register changes as soon as the first word has been read. */
  function Entry(e: Engine, m: Mem, base: nat): Ran {
    match ReadLE(m, base, 4)
    case None => Ran(Failed(e), m)
    case Some(op) =>
      var e1 := e.(opcode := op);
      match ReadLE(m, base + 4, 4)
      case None => Ran(Failed(e1), m)
      case Some(a) =>
        match ReadLE(m, base + 8, 4)
        case None => Ran(Failed(e1), m)
        case Some(n) =>
          match ReadLE(m, base + 12, 4)
          case None => Ran(Failed(e1), m)
          case Some(out) => Finished(e1, Perform(e1, m, a, Wrap32(n), out), n)
  }

  function Entries(e: Engine, m: Mem, base: nat, len: nat, i: nat): Ran
    decreases len - i
  {
    if i >= len then Ran(e, m)
    else
      var r := Entry(e, m, base + i * 16);
      Entries(r.engine, r.mem, base, len, i + 1)
  }

  /** `Entries` as a value, for a loop that moves along `EntriesStep` alone. */
  type EntriesFunction = (Engine, Mem, nat, nat, nat) -> Ran

  ghost predicate IsEntries(f: EntriesFunction) {
    forall e, m, base, len, i {:trigger Entries(e, m, base, len, i)} ::
      f(e, m, base, len, i) == Entries(e, m, base, len, i)
  }

  lemma EntriesAsValue() returns (f: EntriesFunction)
    ensures IsEntries(f)
  {
    f := Entries;
  }

  lemma EntriesEnd(e: Engine, m: Mem, base: nat, len: nat)
    ensures Entries(e, m, base, len, len) == Ran(e, m)
  {
  }

  lemma StepAlong(entries: EntriesFunction, e: Engine, m: Mem, base: nat, len: nat, i: nat, r: Ran)
    requires IsEntries(entries) && i < len && r == Entry(e, m, base + i * 16)
    ensures entries(e, m, base, len, i) == entries(r.engine, r.mem, base, len, i + 1)
  {
    EntriesStep(e, m, base, len, i, r);
  }

  lemma EntriesStep(e: Engine, m: Mem, base: nat, len: nat, i: nat, r: Ran)
    requires i < len && r == Entry(e, m, base + i * 16)
    ensures Entries(e, m, base, len, i) == Entries(r.engine, r.mem, base, len, i + 1)
  {
  }
}
