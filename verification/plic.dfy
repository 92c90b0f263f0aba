/** The interrupt controller: bit words that change in place, scanned bit by bit. */
module PlicDevice {
  import opened Memory
  import opened PlicSpec
  import R = PlicRuns
  import B = Bits

  const WORDS: nat := 32

  /** The sources whose bits are set.  Source 0 does not exist. */
  ghost function SourcesIn(words: seq<u32>): set<nat>
    requires |words| == WORDS
  {
    set s: nat | s < MAX_SOURCES && IsSource(s) && B.Bit(words[s / 32], s % 32)
  }

  lemma BitBound(b: nat)
    requires b < 32
    ensures B.Pow2(b) < 0x1_0000_0000
  {
    B.Pow2Add(b, 32 - b);
    WordIs();
    B.MultipleOutside(B.Pow2(b), B.Pow2(32 - b));
    HalfAtLeast(B.Pow2(b), B.Pow2(32 - b));
  }

  lemma WordIs()
    ensures B.Pow2(32) == 0x1_0000_0000
  {
    assert B.Pow2(8) == 0x100;
    B.Pow2Add(8, 8);
    B.Pow2Add(16, 16);
  }

  lemma HalfAtLeast(p: nat, q: nat)
    requires q >= 2 && p > 0
    ensures p < p * q
  {
  }

  function SetBit(w: u32, b: nat): u32
    requires b < 32
  {
    OrFits(w, b);
    B.Or(w, B.Pow2(b))
  }

  lemma {:induction false} OrBound(x: nat, y: nat, n: nat)
    requires x < B.Pow2(n) && y < B.Pow2(n)
    ensures B.Or(x, y) < B.Pow2(n)
  {
    if n > 0 && x > 0 && y > 0 {
      OrBound(x / 2, y / 2, n - 1);
    }
  }

  lemma OrFits(w: u32, b: nat)
    requires b < 32
    ensures B.Or(w, B.Pow2(b)) < 0x1_0000_0000
  {
    WordIs();
    BitBound(b);
    OrBound(w, B.Pow2(b), 32);
  }

  /** `w & !(1 << b)` */
  function ClearBit(w: u32, b: nat): u32
    requires b < 32
  {
    BitBound(b);
    B.And(w, 0xFFFF_FFFF - B.Pow2(b))
  }

  lemma SetBitIs(w: u32, b: nat, i: nat)
    requires b < 32
    ensures B.Bit(SetBit(w, b), i) <==> B.Bit(w, i) || i == b
  {
    B.BitOr(w, B.Pow2(b), i);
    B.BitPow2(b, i);
  }

  lemma ClearBitIs(w: u32, b: nat, i: nat)
    requires b < 32
    ensures B.Bit(ClearBit(w, b), i) <==> B.Bit(w, i) && i != b
  {
    BitBound(b);
    WordIs();
    B.BitAnd(w, 0xFFFF_FFFF - B.Pow2(b), i);
    B.BitNot(B.Pow2(b), 32, i);
    B.BitPow2(b, i);
    if i >= 32 { B.HighBits(w, 32, i); }
  }

  lemma WithBit(words: seq<u32>, s: nat)
    requires |words| == WORDS && IsSource(s)
    ensures SourcesIn(words[s / 32 := SetBit(words[s / 32], s % 32)]) == SourcesIn(words) + {s}
  {
    var words' := words[s / 32 := SetBit(words[s / 32], s % 32)];
    forall t: nat | IsSource(t)
      ensures B.Bit(words'[t / 32], t % 32) <==> B.Bit(words[t / 32], t % 32) || t == s
    {
      SetBitIs(words[s / 32], s % 32, t % 32);
    }
  }

  lemma WithoutBit(words: seq<u32>, s: nat)
    requires |words| == WORDS && IsSource(s)
    ensures SourcesIn(words[s / 32 := ClearBit(words[s / 32], s % 32)]) == SourcesIn(words) - {s}
  {
    var words' := words[s / 32 := ClearBit(words[s / 32], s % 32)];
    forall t: nat | IsSource(t)
      ensures B.Bit(words'[t / 32], t % 32) <==> B.Bit(words[t / 32], t % 32) && t != s
    {
      ClearBitIs(words[s / 32], s % 32, t % 32);
    }
  }

  /** `bits` is what is left of a word once its first `next` bits have been looked at. */
  ghost predicate LeftOf(bits: u32, word: u32, next: nat) {
    forall i: nat :: B.Bit(bits, i) <==> next <= i && B.Bit(word, i)
  }

  /** The lowest bit left is the next one set in the word. */
  lemma NextBit(bits: u32, word: u32, next: nat, bit: nat, rest: u32)
    requires bits > 0 && LeftOf(bits, word, next)
    requires bit == B.TrailingZeros(bits) && rest == B.And(bits, bits - 1)
    ensures next <= bit < 32 && B.Bit(word, bit) && LeftOf(rest, word, bit + 1)
  {
    B.LowestBit(bits, 0);
    WordIs();
    if bit >= 32 { B.HighBits(bits, 32, bit); }
    forall i: nat
      ensures B.Bit(rest, i) <==> bit + 1 <= i && B.Bit(word, i)
    {
      BitLeft(bits, word, next, bit, rest, i);
    }
  }

  lemma BitLeft(bits: u32, word: u32, next: nat, bit: nat, rest: u32, i: nat)
    requires bits > 0 && LeftOf(bits, word, next)
    requires bit == B.TrailingZeros(bits) && rest == B.And(bits, bits - 1)
    ensures B.Bit(rest, i) <==> bit + 1 <= i && B.Bit(word, i)
  {
    B.ClearLowest(bits, i);
    B.LowestBit(bits, i);
  }

  /** There is nothing eligible before it. */
  lemma SkipToBit(words: seq<u32>, priority: seq<nat>, e: set<nat>, word: nat, bits: u32, next: nat, bit: nat)
    requires |words| == WORDS && word < WORDS && bits > 0 && LeftOf(bits, words[word], next)
    requires next <= bit < 32 && bit == B.TrailingZeros(bits) && forall s :: s in e ==> s in SourcesIn(words)
    ensures Best(priority, e, word * 32 + bit) == Best(priority, e, word * 32 + next)
  {
    forall s | word * 32 + next <= s < word * 32 + bit
      ensures s !in e
    {
      B.LowestBit(bits, s - word * 32);
      assert s / 32 == word && s % 32 == s - word * 32;
    }
    BestSkips(priority, e, word * 32 + next, word * 32 + bit);
  }

  lemma NextIn(words: seq<u32>, priority: seq<nat>, e: set<nat>, word: nat, bits: u32, next: nat, bit: nat, rest: u32)
    requires |words| == WORDS && word < WORDS && bits > 0 && LeftOf(bits, words[word], next)
    requires bit == B.TrailingZeros(bits) && rest == B.And(bits, bits - 1)
    requires forall s :: s in e ==> s in SourcesIn(words)
    ensures next <= bit < 32 && B.Bit(words[word], bit) && LeftOf(rest, words[word], bit + 1)
    ensures Best(priority, e, word * 32 + bit) == Best(priority, e, word * 32 + next)
  {
    NextBit(bits, words[word], next, bit, rest);
    SkipToBit(words, priority, e, word, bits, next, bit);
  }

  lemma NoneLeft(words: seq<u32>, priority: seq<nat>, e: set<nat>, word: nat, next: nat)
    requires |words| == WORDS && word < WORDS && next <= 32 && LeftOf(0, words[word], next)
    requires forall s :: s in e ==> s in SourcesIn(words)
    ensures Best(priority, e, (word + 1) * 32) == Best(priority, e, word * 32 + next)
  {
    forall s | word * 32 + next <= s < word * 32 + 32
      ensures s !in e
    {
      B.NoBits(s - word * 32);
      assert s / 32 == word && s % 32 == s - word * 32;
    }
    BestSkips(priority, e, word * 32 + next, word * 32 + 32);
  }

  class Plic {
    const priority: array<u32>
    const pending: array<u32>
    const enableM: array<u32>
    const enableS: array<u32>
    var thresholdM: nat
    var thresholdS: nat
    var claimedM: nat
    var claimedS: nat

    ghost predicate Valid() {
      priority.Length == MAX_SOURCES && pending.Length == enableM.Length == enableS.Length == WORDS &&
      pending != enableM && pending != enableS && enableM != enableS &&
      pending != priority && enableM != priority && enableS != priority
    }

    ghost function Pending(): set<nat>
      requires Valid()
      reads pending
    {
      SourcesIn(pending[..])
    }

    ghost function Machine(): Context
      requires Valid()
      reads this`thresholdM, enableM
    {
      Context(SourcesIn(enableM[..]), thresholdM)
    }

    ghost function Supervisor(): Context
      requires Valid()
      reads this`thresholdS, enableS
    {
      Context(SourcesIn(enableS[..]), thresholdS)
    }

    ghost function ContextOf(supervisor: bool): Context
      requires Valid()
      reads this`thresholdM, this`thresholdS, enableM, enableS
    {
      if supervisor then Supervisor() else Machine()
    }

    ghost function State(): R.Controller
      requires Valid()
      reads this, priority, pending, enableM, enableS
    {
      R.Controller(priority[..], Machine(), Supervisor(), Pending())
    }

    constructor ()
      ensures Valid() && Pending() == {} && Machine() == Supervisor() == Context({}, 0)
      ensures fresh(priority) && fresh(pending) && fresh(enableM) && fresh(enableS)
    {
      priority := new u32[MAX_SOURCES](_ => 0);
      pending := new u32[WORDS](_ => 0);
      enableM := new u32[WORDS](_ => 0);
      enableS := new u32[WORDS](_ => 0);
      thresholdM, thresholdS, claimedM, claimedS := 0, 0, 0, 0;
      new;
      forall i: nat
        ensures !B.Bit(0, i)
      {
        B.NoBits(i);
      }
    }

    method SetPending(source: nat)
      requires Valid()
      modifies pending
      ensures Pending() == if IsSource(source) then old(Pending()) + {source} else old(Pending())
      ensures State() == R.Step(old(State()), R.Raise(source))
    {
      if 0 < source < MAX_SOURCES {
        WithBit(pending[..], source);
        pending[source / 32] := SetBit(pending[source / 32], source % 32);
      }
    }

    method ClearPending(source: nat)
      requires Valid()
      modifies pending
      ensures Pending() == if IsSource(source) then old(Pending()) - {source} else old(Pending())
      ensures State() == R.Step(old(State()), R.Lower(source))
    {
      if 0 < source < MAX_SOURCES {
        WithoutBit(pending[..], source);
        pending[source / 32] := ClearBit(pending[source / 32], source % 32);
      }
    }

    method SetPriority(source: nat, value: u32)
      requires Valid()
      modifies priority
      ensures priority[..] == if source < MAX_SOURCES then old(priority[..])[source := value % 8] else old(priority[..])
    {
      if source < MAX_SOURCES {
        B.AndMask(value, 3);
        assert B.Pow2(3) == 8;
        priority[source] := B.And(value, 7);
      }
    }

    method SetEnable(words: array<u32>, source: nat, enabled: bool)
      requires Valid() && (words == enableM || words == enableS)
      modifies words
      ensures SourcesIn(words[..]) ==
        if !IsSource(source) then old(SourcesIn(words[..]))
        else if enabled then old(SourcesIn(words[..])) + {source}
        else old(SourcesIn(words[..])) - {source}
    {
      if 0 < source < MAX_SOURCES {
        var w := words[source / 32];
        if enabled {
          WithBit(words[..], source);
          words[source / 32] := SetBit(w, source % 32);
        } else {
          WithoutBit(words[..], source);
          words[source / 32] := ClearBit(w, source % 32);
        }
      }
    }

    /** Bit by bit through the pending words: the eligible source that goes before all others. */
    method BestPendingSource(supervisor: bool) returns (best: nat)
      requires Valid()
      ensures best == Claimed(priority[..], Pending(), ContextOf(supervisor))
      ensures IsBest(priority[..], Eligible(priority[..], Pending(), ContextOf(supervisor)), best)
    {
      ghost var e := Eligible(priority[..], Pending(), ContextOf(supervisor));
      best := 0;
      var word := 0;
      while word < WORDS
        invariant 0 <= word <= WORDS && best == Best(priority[..], e, word * 32) && best < MAX_SOURCES
      {
        best := ScanWord(word, supervisor, best, e);
        word := word + 1;
      }
      ClaimedIsBest(priority[..], Pending(), ContextOf(supervisor));
    }

    method IsEnabled(words: array<u32>, source: nat) returns (r: bool)
      requires words.Length == WORDS
      ensures r <==> source in SourcesIn(words[..])
    {
      if !(0 < source < MAX_SOURCES) { return false; }
      B.AndPow2(words[source / 32], source % 32);
      return B.And(words[source / 32], B.Pow2(source % 32)) != 0;
    }

    /** The set bits of one pending word, lowest first. */
    method ScanWord(word: nat, supervisor: bool, from: nat, ghost e: set<nat>) returns (best: nat)
      requires Valid() && word < WORDS && from == Best(priority[..], e, word * 32) && from < MAX_SOURCES
      requires e == Eligible(priority[..], Pending(), ContextOf(supervisor))
      ensures best == Best(priority[..], e, (word + 1) * 32) && best < MAX_SOURCES
    {
      best := from;
      var bestPriority := if best == 0 then 0 else priority[best];
      var bits: u32 := pending[word];
      ghost var next := 0;
      while bits != 0
        invariant next <= 32 && best == Best(priority[..], e, word * 32 + next)
        invariant best < MAX_SOURCES && bestPriority == (if best == 0 then 0 else priority[best])
        invariant LeftOf(bits, pending[word], next)
        decreases 32 - next
      {
        bits, next, best, bestPriority := ScanBit(word, supervisor, bits, next, best, bestPriority, e);
      }
      NoneLeft(pending[..], priority[..], e, word, next);
    }

    /** The lowest bit left: its source is considered and the bit cleared. */
    method ScanBit(word: nat, supervisor: bool, bits: u32, ghost next: nat, best: nat, bestPriority: nat,
                   ghost e: set<nat>)
        returns (rest: u32, ghost next': nat, best': nat, bestPriority': nat)
      requires Valid() && word < WORDS && bits != 0 && LeftOf(bits, pending[word], next)
      requires e == Eligible(priority[..], Pending(), ContextOf(supervisor))
      requires best == Best(priority[..], e, word * 32 + next)
      requires best < MAX_SOURCES && bestPriority == (if best == 0 then 0 else priority[best])
      ensures next < next' <= 32 && best' == Best(priority[..], e, word * 32 + next')
      ensures best' < MAX_SOURCES && bestPriority' == (if best' == 0 then 0 else priority[best'])
      ensures LeftOf(rest, pending[word], next')
    {
      var bit := B.TrailingZeros(bits);
      rest := B.And(bits, bits - 1);
      NextIn(pending[..], priority[..], e, word, bits, next, bit, rest);
      best', bestPriority' := Consider(word, bit, supervisor, best, bestPriority, e);
      next' := bit + 1;
    }

    /** A pending source replaces the best so far if it is enabled, above the threshold and stronger. */
    method Consider(word: nat, bit: nat, supervisor: bool, best: nat, bestPriority: nat, ghost e: set<nat>)
        returns (best': nat, bestPriority': nat)
      requires Valid() && word < WORDS && bit < 32 && B.Bit(pending[word], bit)
      requires e == Eligible(priority[..], Pending(), ContextOf(supervisor))
      requires best < MAX_SOURCES && bestPriority == (if best == 0 then 0 else priority[best])
      requires best == Best(priority[..], e, word * 32 + bit)
      ensures best' == Best(priority[..], e, word * 32 + bit + 1)
      ensures best' < MAX_SOURCES && bestPriority' == (if best' == 0 then 0 else priority[best'])
    {
      best', bestPriority' := best, bestPriority;
      var threshold := if supervisor then thresholdS else thresholdM;
      var source := word * 32 + bit;
      if source == 0 || source >= MAX_SOURCES { return; }
      assert source / 32 == word && source % 32 == bit;
      var enabled := IsEnabled(if supervisor then enableS else enableM, source);
      if !enabled { return; }
      var p := priority[source];
      if p > threshold && (p > bestPriority || best == 0) {
        best', bestPriority' := source, p;
      }
    }

    /** Claiming takes the chosen source, and only it, out of the pending set. */
    method ClaimIn(supervisor: bool) returns (source: nat)
      requires Valid()
      modifies pending, this`claimedM, this`claimedS
      ensures source == Claimed(priority[..], old(Pending()), ContextOf(supervisor))
      ensures Pending() == AfterClaim(priority[..], old(Pending()), ContextOf(supervisor))
      ensures source == R.Got(old(State()), R.Claim(supervisor))
      ensures State() == R.Step(old(State()), R.Claim(supervisor))
      ensures claimedM == if !supervisor && source != 0 then source else old(claimedM)
      ensures claimedS == if supervisor && source != 0 then source else old(claimedS)
    {
      source := BestPendingSource(supervisor);
      if source > 0 {
        ClearPending(source);
        if supervisor { claimedS := source; } else { claimedM := source; }
      }
    }

    method Complete(supervisor: bool, source: nat)
      requires Valid()
      modifies pending, this`claimedM, this`claimedS
      ensures Pending() == if IsSource(source) then old(Pending()) - {source} else old(Pending())
      ensures State() == R.Step(old(State()), R.Complete(supervisor, source))
      ensures claimedM == if !supervisor && IsSource(source) && old(claimedM) == source then 0 else old(claimedM)
      ensures claimedS == if supervisor && IsSource(source) && old(claimedS) == source then 0 else old(claimedS)
    {
      if 0 < source < MAX_SOURCES {
        if supervisor {
          if claimedS == source { claimedS := 0; }
        } else {
          if claimedM == source { claimedM := 0; }
        }
        ClearPending(source);
      }
    }
  }
}
