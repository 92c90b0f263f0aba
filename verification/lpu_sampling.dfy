/** Choosing the next token: ranking, greedy choice, top-k and nucleus sampling with integer weights.
    Weights and sums are 64-bit and saturate; the draw comes from a 32-bit generator. */
module LpuSampling {
  import opened Memory
  import B = Bits

  const MAX64: nat := 0xFFFF_FFFF_FFFF_FFFF

  datatype Candidate = Candidate(id: u32, score: u32)

  // ---- Ranking ----

  /** Higher scores first, and lower ids first among equal scores. */
  predicate Ahead(a: Candidate, b: Candidate) {
    a.score > b.score || (a.score == b.score && a.id <= b.id)
  }

  predicate Sorted(s: seq<Candidate>) {
    forall i, j :: 0 <= i < j < |s| ==> Ahead(s[i], s[j])
  }

  function Insert(c: Candidate, s: seq<Candidate>): (r: seq<Candidate>)
    ensures |r| == |s| + 1
  {
    if s == [] then [c]
    else if Ahead(c, s[0]) then [c] + s
    else [s[0]] + Insert(c, s[1..])
  }

  function Ranked(cs: seq<Candidate>): (r: seq<Candidate>)
    ensures |r| == |cs|
  {
    if cs == [] then [] else Insert(cs[0], Ranked(cs[1..]))
  }

  lemma {:induction false} InsertKeepsAll(c: Candidate, s: seq<Candidate>)
    ensures multiset(Insert(c, s)) == multiset(s) + multiset{c}
  {
    if s != [] {
      assert s == [s[0]] + s[1..];
      InsertKeepsAll(c, s[1..]);
    }
  }

  lemma {:induction false} InsertSorts(c: Candidate, s: seq<Candidate>)
    requires Sorted(s)
    ensures Sorted(Insert(c, s))
  {
    if s != [] && !Ahead(c, s[0]) {
      var rest := Insert(c, s[1..]);
      InsertSorts(c, s[1..]);
      AheadOfRest(c, s, rest);
    }
  }

  lemma AheadOfRest(c: Candidate, s: seq<Candidate>, rest: seq<Candidate>)
    requires s != [] && Sorted(s) && !Ahead(c, s[0]) && rest == Insert(c, s[1..])
    ensures forall j :: 0 <= j < |rest| ==> Ahead(s[0], rest[j])
  {
    InsertKeepsAll(c, s[1..]);
    forall j | 0 <= j < |rest|
      ensures Ahead(s[0], rest[j])
    {
      assert rest[j] in multiset(rest);
    }
  }

  lemma {:induction false} RankedSorts(cs: seq<Candidate>)
    ensures Sorted(Ranked(cs)) && multiset(Ranked(cs)) == multiset(cs)
  {
    if cs != [] {
      assert cs == [cs[0]] + cs[1..];
      RankedSorts(cs[1..]);
      InsertSorts(cs[0], Ranked(cs[1..]));
      InsertKeepsAll(cs[0], Ranked(cs[1..]));
    }
  }

  /** The first of a ranking is determined by what is ranked. */
  lemma SameFirst(s: seq<Candidate>, t: seq<Candidate>)
    requires s != [] && t != [] && Sorted(s) && Sorted(t) && multiset(s) == multiset(t)
    ensures s[0] == t[0]
  {
    assert s[0] in multiset(t) && t[0] in multiset(s);
    var i :| 0 <= i < |t| && t[i] == s[0];
    var j :| 0 <= j < |s| && s[j] == t[0];
  }

  lemma RestOf(s: seq<Candidate>)
    requires s != []
    ensures multiset(s[1..]) == multiset(s) - multiset{s[0]}
  {
    assert s == [s[0]] + s[1..];
  }

  /** Whatever the sorting algorithm, there is only one ranking. */
  lemma {:induction false} RankingIsUnique(s: seq<Candidate>, t: seq<Candidate>)
    requires Sorted(s) && Sorted(t) && multiset(s) == multiset(t)
    ensures s == t
  {
    assert |s| == |multiset(s)| == |multiset(t)| == |t|;
    if s != [] {
      SameFirst(s, t);
      RestOf(s);
      RestOf(t);
      RankingIsUnique(s[1..], t[1..]);
      assert s == [s[0]] + s[1..] && t == [t[0]] + t[1..];
    }
  }

  /** How many candidates are strictly ahead of `c`. */
  function CountAhead(s: seq<Candidate>, c: Candidate): nat {
    if s == [] then 0
    else (if Ahead(s[0], c) && s[0] != c then 1 else 0) + CountAhead(s[1..], c)
  }

  lemma {:induction false} CountInserted(x: Candidate, s: seq<Candidate>, c: Candidate)
    ensures CountAhead(Insert(x, s), c) == CountAhead([x] + s, c)
  {
    assert ([x] + s)[1..] == s;
    if s != [] && !Ahead(x, s[0]) {
      CountInserted(x, s[1..], c);
      assert ([s[0]] + Insert(x, s[1..]))[1..] == Insert(x, s[1..]);
      assert ([x] + s[1..])[1..] == s[1..];
    }
  }

  lemma {:induction false} CountRanked(cs: seq<Candidate>, c: Candidate)
    ensures CountAhead(Ranked(cs), c) == CountAhead(cs, c)
  {
    if cs != [] {
      CountRanked(cs[1..], c);
      CountInserted(cs[0], Ranked(cs[1..]), c);
      assert ([cs[0]] + Ranked(cs[1..]))[1..] == Ranked(cs[1..]);
    }
  }

  lemma {:induction false} CountAtMost(s: seq<Candidate>, i: nat)
    requires i < |s| && Sorted(s)
    ensures CountAhead(s, s[i]) <= i
  {
    if i == 0 {
      NoneAhead(s, s[0]);
    } else {
      CountAtMost(s[1..], i - 1);
    }
  }

  lemma {:induction false} NoneAhead(s: seq<Candidate>, c: Candidate)
    requires forall j :: 0 <= j < |s| ==> Ahead(c, s[j])
    ensures CountAhead(s, c) == 0
  {
    if s != [] { NoneAhead(s[1..], c); }
  }

  /** The candidate at rank `i` has at most `i` candidates ahead of it. */
  lemma RankBounds(cs: seq<Candidate>, i: nat)
    requires i < |cs|
    ensures Ranked(cs)[i] in cs && CountAhead(cs, Ranked(cs)[i]) <= i
  {
    RankedSorts(cs);
    CountRanked(cs, Ranked(cs)[i]);
    CountAtMost(Ranked(cs), i);
    assert Ranked(cs)[i] in multiset(Ranked(cs));
  }

  // ---- Greedy choice ----

  /** The place of the first maximum among the first `n` scores, as the decoder's loop keeps it. */
  function FirstMax(scores: seq<u32>, n: nat): (b: nat)
    requires n <= |scores|
    ensures b < n || b == 0
  {
    if n <= 1 then 0
    else
      var b := FirstMax(scores, n - 1);
      if scores[n - 1] > scores[b] then n - 1 else b
  }

  lemma {:induction false} FirstMaxIs(scores: seq<u32>, n: nat)
    requires 0 < n <= |scores|
    ensures var b := FirstMax(scores, n);
      b < n && (forall j :: 0 <= j < n ==> scores[j] <= scores[b]) && (forall j :: 0 <= j < b ==> scores[j] < scores[b])
  {
    if n > 1 { FirstMaxIs(scores, n - 1); }
  }

  /** The running maximum does not look ahead. */
  lemma {:induction false} SameFirstMax(s: seq<u32>, t: seq<u32>, n: nat)
    requires n <= |s| && n <= |t| && s[..n] == t[..n]
    ensures FirstMax(s, n) == FirstMax(t, n)
  {
    if n > 1 {
      assert s[..n - 1] == s[..n][..n - 1] == t[..n - 1];
      SameFirstMax(s, t, n - 1);
      assert forall i :: 0 <= i < n ==> s[..n][i] == s[i] && t[..n][i] == t[i];
    }
  }

  function Candidates(scores: seq<u32>): seq<Candidate>
    requires |scores| <= 0x1_0000_0000
  {
    seq(|scores|, i requires 0 <= i < |scores| => Candidate(i, scores[i]))
  }

  /** The best ranked candidate is the one the greedy decoder's loop finds. */
  lemma TopIsGreedy(scores: seq<u32>)
    requires 0 < |scores| <= 0x1_0000_0000
    ensures Ranked(Candidates(scores))[0].id == FirstMax(scores, |scores|)
  {
    var cs := Candidates(scores);
    var b := FirstMax(scores, |scores|);
    FirstMaxIs(scores, |scores|);
    RankedSorts(cs);
    var top := Ranked(cs)[0];
    assert top in multiset(Ranked(cs)) && top in multiset(cs);
    assert cs[b] in multiset(cs) && cs[b] in multiset(Ranked(cs));
    var i :| 0 <= i < |cs| && cs[i] == top;
    var j :| 0 <= j < |cs| && Ranked(cs)[j] == cs[b];
    assert j == 0 || Ahead(top, cs[b]);
  }

  // ---- Weights ----

  function SatAdd(a: nat, b: nat): nat { if a + b <= MAX64 then a + b else MAX64 }

  function Max1(x: nat): nat { if x == 0 then 1 else x }

  /** `1 + (score - min) * 1000 / temperature` */
  function Weight(score: nat, min: nat, temp: nat): (w: nat)
    ensures w >= 1
  {
    1 + (if score >= min then score - min else 0) * 1000 / Max1(temp)
  }

  /** The weights of ranked candidates, measured from the lowest score kept. */
  function Weights(kept: seq<Candidate>, temp: nat): (ws: seq<nat>)
    requires kept != []
    ensures |ws| == |kept| && forall i :: 0 <= i < |ws| ==> ws[i] >= 1
  {
    var min := kept[|kept| - 1].score;
    seq(|kept|, i requires 0 <= i < |kept| => Weight(kept[i].score, min, temp))
  }

  /** The first `n` weights together, without a limit. */
  function Prefix(ws: seq<nat>, n: nat): nat
    requires n <= |ws|
  {
    if n == 0 then 0 else Prefix(ws, n - 1) + ws[n - 1]
  }

  /** The same sum as the machine keeps it. */
  function SatPrefix(ws: seq<nat>, n: nat): nat
    requires n <= |ws|
  {
    if n == 0 then 0 else SatAdd(SatPrefix(ws, n - 1), ws[n - 1])
  }

  lemma {:induction false} SatPrefixIs(ws: seq<nat>, n: nat)
    requires n <= |ws|
    ensures SatPrefix(ws, n) == if Prefix(ws, n) <= MAX64 then Prefix(ws, n) else MAX64
  {
    if n > 0 { SatPrefixIs(ws, n - 1); }
  }

  lemma {:induction false} PrefixGrows(ws: seq<nat>, i: nat, j: nat)
    requires i <= j <= |ws| && forall k :: 0 <= k < |ws| ==> ws[k] >= 1
    ensures Prefix(ws, i) + (j - i) <= Prefix(ws, j)
    decreases j
  {
    if i < j { PrefixGrows(ws, i, j - 1); }
  }

  // ---- The draw ----

  /** The first place whose running sum exceeds the ticket; 0 if there were none. */
  function DrawFrom(ws: seq<nat>, ticket: nat, i: nat): (r: nat)
    requires i <= |ws|
    ensures r < |ws| || r == 0
    decreases |ws| - i
  {
    if i == |ws| then 0
    else if ticket < SatPrefix(ws, i + 1) then i
    else DrawFrom(ws, ticket, i + 1)
  }

  function Draw(ws: seq<nat>, ticket: nat): nat { DrawFrom(ws, ticket, 0) }

  lemma {:induction false} DrawFinds(ws: seq<nat>, ticket: nat, i: nat, owner: nat)
    requires i <= owner < |ws| && (forall k :: 0 <= k < |ws| ==> ws[k] >= 1)
    requires Prefix(ws, owner) <= ticket < Prefix(ws, owner + 1) && ticket < MAX64
    ensures DrawFrom(ws, ticket, i) == owner
    decreases owner - i
  {
    SatPrefixIs(ws, i + 1);
    if i < owner {
      PrefixGrows(ws, i + 1, owner);
      DrawFinds(ws, ticket, i + 1, owner);
    }
  }

  lemma {:induction false} OwnerExists(ws: seq<nat>, ticket: nat, n: nat) returns (owner: nat)
    requires n <= |ws| && ticket < Prefix(ws, n)
    ensures owner < n && Prefix(ws, owner) <= ticket < Prefix(ws, owner + 1)
    decreases n
  {
    if Prefix(ws, n - 1) <= ticket { owner := n - 1; } else { owner := OwnerExists(ws, ticket, n - 1); }
  }

  /** Each place is drawn by exactly the tickets from the sum before it to the sum after it; every ticket
      below the machine's total is owned, so the draw never falls through. */
  lemma TicketsOwned(ws: seq<nat>, ticket: nat, i: nat)
    requires i < |ws| && (forall k :: 0 <= k < |ws| ==> ws[k] >= 1) && ticket < SatPrefix(ws, |ws|)
    ensures Draw(ws, ticket) == i <==> Prefix(ws, i) <= ticket < Prefix(ws, i + 1)
    ensures ticket < SatPrefix(ws, Draw(ws, ticket) + 1)
  {
    SatPrefixIs(ws, |ws|);
    var owner := OwnerExists(ws, ticket, |ws|);
    DrawFinds(ws, ticket, 0, owner);
    SatPrefixIs(ws, owner + 1);
    if owner < i { PrefixGrows(ws, owner + 1, i); }
    if i < owner { PrefixGrows(ws, i + 1, owner); }
  }

  function Interval(lo: nat, hi: nat): (r: set<nat>)
    ensures forall t :: t in r <==> lo <= t < hi
    decreases hi - lo
  {
    if lo >= hi then {} else {lo} + Interval(lo + 1, hi)
  }

  lemma {:induction false} IntervalSize(lo: nat, hi: nat)
    ensures |Interval(lo, hi)| == if lo <= hi then hi - lo else 0
    decreases hi - lo
  {
    if lo < hi {
      IntervalSize(lo + 1, hi);
      assert lo !in Interval(lo + 1, hi);
    }
  }

  /** The tickets that exist and draw place `i`. */
  ghost function TicketsOf(ws: seq<nat>, i: nat): set<nat> {
    set t: nat | 0 <= t < SatPrefix(ws, |ws|) && Draw(ws, t) == i
  }

  lemma TicketsAre(ws: seq<nat>, i: nat)
    requires i < |ws| && forall k :: 0 <= k < |ws| ==> ws[k] >= 1
    ensures TicketsOf(ws, i) == Interval(Prefix(ws, i), Least(Prefix(ws, i + 1), MAX64))
  {
    SatPrefixIs(ws, |ws|);
    PrefixGrows(ws, i + 1, |ws|);
    forall t: nat
      ensures t in TicketsOf(ws, i) <==> Prefix(ws, i) <= t < Least(Prefix(ws, i + 1), MAX64)
    {
      if t < SatPrefix(ws, |ws|) { TicketsOwned(ws, t, i); }
    }
  }

  /** A place owns exactly as many tickets as its weight if and only if the sum up to it has not saturated;
      beyond that it owns what is left below the limit. */
  lemma TicketCount(ws: seq<nat>, i: nat)
    requires i < |ws| && forall k :: 0 <= k < |ws| ==> ws[k] >= 1
    ensures |TicketsOf(ws, i)| == ws[i] <==> Prefix(ws, i + 1) <= MAX64
    ensures Prefix(ws, i + 1) > MAX64 ==>
      |TicketsOf(ws, i)| == if Prefix(ws, i) <= MAX64 then MAX64 - Prefix(ws, i) else 0
  {
    TicketsAre(ws, i);
    IntervalSize(Prefix(ws, i), Least(Prefix(ws, i + 1), MAX64));
    assert Prefix(ws, i + 1) == Prefix(ws, i) + ws[i];
  }

  /** The generator's 32 bits reach a place exactly when its tickets start below 2^32. */
  lemma ReachableDraws(ws: seq<nat>, i: nat)
    requires i < |ws| && forall k :: 0 <= k < |ws| ==> ws[k] >= 1
    ensures SatPrefix(ws, |ws|) > 0
    ensures (exists r: u32 :: Draw(ws, r % SatPrefix(ws, |ws|)) == i) <==> Prefix(ws, i) < 0x1_0000_0000
  {
    var total := SatPrefix(ws, |ws|);
    TotalPositive(ws);
    if r: u32 :| Draw(ws, r % total) == i {
      DrawnTicket(ws, i, r, total);
    }
    if Prefix(ws, i) < 0x1_0000_0000 {
      FirstTicket(ws, i, Prefix(ws, i), total);
    }
  }

  lemma ModBounds(r: nat, d: nat)
    requires d > 0
    ensures r % d < d && r % d <= r && (r < d ==> r % d == r)
  {
    if r < d { B.ModUnique(r, 0, r, d); }
  }

  lemma DrawnTicket(ws: seq<nat>, i: nat, r: u32, total: nat)
    requires i < |ws| && total == SatPrefix(ws, |ws|) && forall k :: 0 <= k < |ws| ==> ws[k] >= 1
    requires total > 0 && Draw(ws, r % total) == i
    ensures Prefix(ws, i) < 0x1_0000_0000
  {
    ModBounds(r, total);
    var ticket := r % total;
    TicketsOwned(ws, ticket, i);
  }

  lemma FirstTicket(ws: seq<nat>, i: nat, r: u32, total: nat)
    requires i < |ws| && r == Prefix(ws, i) && total == SatPrefix(ws, |ws|)
    requires forall k :: 0 <= k < |ws| ==> ws[k] >= 1
    ensures total > 0 && Draw(ws, r % total) == i
  {
    SatPrefixIs(ws, |ws|);
    PrefixGrows(ws, i, i + 1);
    PrefixGrows(ws, i + 1, |ws|);
    ModBounds(r, total);
    TicketsOwned(ws, r, i);
  }

  lemma TotalPositive(ws: seq<nat>)
    requires ws != [] && forall k :: 0 <= k < |ws| ==> ws[k] >= 1
    ensures SatPrefix(ws, |ws|) > 0
  {
    SatPrefixIs(ws, |ws|);
    PrefixGrows(ws, 0, |ws|);
  }

  function NextSeed(seed: u32): u32 { (seed * 1664525 + 1013904223) % 0x1_0000_0000 }

  /** The seed before this one. */
  function PreviousSeed(seed: u32): u32 {
    (seed + 0x1_0000_0000 - 1013904223) * 4276115653 % 0x1_0000_0000
  }

  /** The generator is a permutation of the 32-bit numbers: every output comes from exactly one seed. */
  lemma SeedsPermute(seed: u32)
    ensures PreviousSeed(NextSeed(seed)) == seed && NextSeed(PreviousSeed(seed)) == seed
  {
    Inverse(seed);
    InverseBack(seed);
  }

  lemma Inverse(seed: u32)
    ensures PreviousSeed(NextSeed(seed)) == seed
  {
    var x := seed * 1664525 + 1013904223;
    var q, r := x / 0x1_0000_0000, x % 0x1_0000_0000;
    assert x == q * 0x1_0000_0000 + r;
    // 1664525 * 4276115653 == 1657219 * 2^32 + 1
    assert (r + 0x1_0000_0000 - 1013904223) * 4276115653 ==
      (1657219 * seed + 4276115653 - q * 4276115653) * 0x1_0000_0000 + seed;
    B.ModUnique((r + 0x1_0000_0000 - 1013904223) * 4276115653, 1657219 * seed + 4276115653 - q * 4276115653, seed,
                0x1_0000_0000);
  }

  lemma InverseBack(seed: u32)
    ensures NextSeed(PreviousSeed(seed)) == seed
  {
    var x := (seed + 0x1_0000_0000 - 1013904223) * 4276115653;
    var q, r := x / 0x1_0000_0000, x % 0x1_0000_0000;
    assert x == q * 0x1_0000_0000 + r;
    assert r * 1664525 + 1013904223 ==
      (1657219 * (seed + 0x1_0000_0000 - 1013904223) + 1 - q * 1664525) * 0x1_0000_0000 + seed;
    B.ModUnique(r * 1664525 + 1013904223, 1657219 * (seed + 0x1_0000_0000 - 1013904223) + 1 - q * 1664525, seed,
                0x1_0000_0000);
  }

  datatype Sampled = Sampled(token: u32, seed: u32)

  // ---- Top-k ----

  function Least(a: nat, b: nat): nat { if a <= b then a else b }

  function TopK(cs: seq<Candidate>, topK: nat): seq<Candidate> {
    Ranked(cs)[..Least(Max1(topK), |cs|)]
  }

  function DrawToken(kept: seq<Candidate>, ws: seq<nat>, seed: u32): Sampled
    requires kept != [] && |ws| == |kept| && SatPrefix(ws, |ws|) > 0
  {
    var next := NextSeed(seed);
    Sampled(kept[Draw(ws, next % SatPrefix(ws, |ws|))].id, next)
  }

  lemma DrawnPlace(kept: seq<Candidate>, ws: seq<nat>, seed: u32) returns (i: nat)
    requires kept != [] && |ws| == |kept| && SatPrefix(ws, |ws|) > 0
    ensures i < |kept| && kept[i].id == DrawToken(kept, ws, seed).token
  {
    i := Draw(ws, NextSeed(seed) % SatPrefix(ws, |ws|));
  }

  function SampleTopK(cs: seq<Candidate>, topK: nat, temp: nat, seed: u32): Sampled {
    if cs == [] then Sampled(0, seed)
    else
      var kept := TopK(cs, topK);
      if |kept| == 1 || temp <= 1 then Sampled(kept[0].id, seed)
      else
        TotalPositive(Weights(kept, temp));
        DrawToken(kept, Weights(kept, temp), seed)
  }

  /** The sampled token belongs to a candidate with fewer than `topK` candidates ahead of it. */
  lemma TopKBound(cs: seq<Candidate>, topK: nat, temp: nat, seed: u32)
    requires cs != []
    ensures exists c :: c in cs && c.id == SampleTopK(cs, topK, temp, seed).token && CountAhead(cs, c) < Max1(topK)
  {
    var kept := TopK(cs, topK);
    var i: nat := 0;
    if !(|kept| == 1 || temp <= 1) {
      TotalPositive(Weights(kept, temp));
      i := DrawnPlace(kept, Weights(kept, temp), seed);
    }
    RankBounds(cs, i);
    assert kept[i] == Ranked(cs)[i];
  }

  /** With a single candidate kept, or no temperature, sampling is the greedy choice and the generator
      is not touched. */
  lemma TopKIsGreedy(scores: seq<u32>, topK: nat, temp: nat, seed: u32)
    requires 0 < |scores| <= 0x1_0000_0000 && (topK <= 1 || temp <= 1)
    ensures SampleTopK(Candidates(scores), topK, temp, seed) == Sampled(FirstMax(scores, |scores|), seed)
  {
    TopIsGreedy(scores);
  }

  // ---- Nucleus ----

  function Clamp(p: nat): (r: nat)
    ensures 1 <= r <= 1000
  {
    if p < 1 then 1 else if p > 1000 then 1000 else p
  }

  function SatMul(a: nat, b: nat): nat { if a * b <= MAX64 then a * b else MAX64 }

  /** The weight to reach, as the machine computes it. */
  function Threshold(total: nat, p: nat): nat { SatAdd(SatMul(total, Clamp(p)), 999) / 1000 }

  /** `ceil(total * p / 1000)` */
  function Share(total: nat, p: nat): nat { (total * Clamp(p) + 999) / 1000 }

  const EXACT_LIMIT: nat := 18446744073709551000

  /** What the threshold sticks at once the product leaves 64 bits. */
  const STUCK: nat := MAX64 / 1000

  lemma ThresholdSticks(total: nat, p: nat)
    requires total * Clamp(p) > EXACT_LIMIT
    ensures Threshold(if total <= MAX64 then total else MAX64, p) == STUCK < Share(total, p)
  {
    if total > MAX64 {
      AtLeastItself(total, Clamp(p));
      AtLeastItself(MAX64, Clamp(p));
    }
  }

  lemma AtLeastItself(a: nat, q: nat)
    requires q >= 1
    ensures a * q >= a
  {
    assert a * q == a + a * (q - 1);
  }

  lemma ThresholdFits(total: nat, p: nat)
    requires total * Clamp(p) <= EXACT_LIMIT
    ensures total <= MAX64 && Threshold(total, p) == Share(total, p)
  {
    AtLeastItself(total, Clamp(p));
  }

  /** The computed threshold is the promised one exactly when the product stays below the limit. */
  lemma ThresholdExact(total: nat, p: nat)
    ensures Threshold(if total <= MAX64 then total else MAX64, p) == Share(total, p) <==>
      total * Clamp(p) <= EXACT_LIMIT
  {
    if total * Clamp(p) <= EXACT_LIMIT { ThresholdFits(total, p); } else { ThresholdSticks(total, p); }
  }

  lemma ThresholdReached(total: nat, p: nat)
    requires 0 < total <= MAX64
    ensures 1 <= Threshold(total, p) <= total
  {
    var q := Clamp(p);
    B.MultipleOutside(1000 - q, total);
    assert total * q + (1000 - q) * total == 1000 * total;
    assert total * q >= total by { B.MultipleOutside(q - 1, total); }
  }

  /** How many ranked candidates the loop keeps: it stops once the threshold is reached. */
  function KeepFrom(ws: seq<nat>, threshold: nat, i: nat): (n: nat)
    requires i <= |ws|
    ensures i <= n <= |ws|
    decreases |ws| - i
  {
    if i == |ws| then i
    else if SatPrefix(ws, i + 1) >= threshold then i + 1
    else KeepFrom(ws, threshold, i + 1)
  }

  lemma {:induction false} SatPrefixGrows(ws: seq<nat>, i: nat, j: nat)
    requires i <= j <= |ws|
    ensures SatPrefix(ws, i) <= SatPrefix(ws, j) <= MAX64
    decreases j
  {
    if j > 0 { SatPrefixGrows(ws, if i < j then i else j - 1, j - 1); }
  }

  lemma {:induction false} KeepIsLeast(ws: seq<nat>, threshold: nat, i: nat, n: nat)
    requires i <= |ws| && n <= |ws| && SatPrefix(ws, i) < threshold <= SatPrefix(ws, |ws|)
    ensures SatPrefix(ws, n) >= threshold <==> n >= KeepFrom(ws, threshold, i)
    decreases |ws| - i
  {
    if i < |ws| && SatPrefix(ws, i + 1) < threshold {
      KeepIsLeast(ws, threshold, i + 1, n);
    } else if i < |ws| {
      if n <= i { SatPrefixGrows(ws, n, i); } else { SatPrefixGrows(ws, i + 1, n); }
    }
  }

  function NucleusSize(ws: seq<nat>, p: nat): nat {
    KeepFrom(ws, Threshold(SatPrefix(ws, |ws|), p), 0)
  }

  /** The kept set is the shortest prefix of the ranking that reaches the threshold. */
  lemma NucleusIsShortest(ws: seq<nat>, p: nat, n: nat)
    requires ws != [] && n <= |ws| && forall k :: 0 <= k < |ws| ==> ws[k] >= 1
    ensures SatPrefix(ws, n) >= Threshold(SatPrefix(ws, |ws|), p) <==> n >= NucleusSize(ws, p)
    ensures NucleusSize(ws, p) >= 1
  {
    TotalPositive(ws);
    SatPrefixGrows(ws, 0, |ws|);
    ThresholdReached(SatPrefix(ws, |ws|), p);
    KeepIsLeast(ws, Threshold(SatPrefix(ws, |ws|), p), 0, n);
    KeepIsLeast(ws, Threshold(SatPrefix(ws, |ws|), p), 0, 0);
  }

  /** Below the limit that is the shortest prefix holding the promised share of the true total. */
  lemma NucleusHoldsShare(ws: seq<nat>, p: nat, n: nat)
    requires ws != [] && n <= |ws| && forall k :: 0 <= k < |ws| ==> ws[k] >= 1
    requires Prefix(ws, |ws|) * Clamp(p) <= EXACT_LIMIT
    ensures Prefix(ws, n) >= Share(Prefix(ws, |ws|), p) <==> n >= NucleusSize(ws, p)
  {
    NucleusIsShortest(ws, p, n);
    SatPrefixIs(ws, |ws|);
    SatPrefixIs(ws, n);
    ThresholdExact(Prefix(ws, |ws|), p);
    B.MultipleOutside(Clamp(p) - 1, Prefix(ws, |ws|));
    PrefixGrows(ws, n, |ws|);
  }

  /** Above the limit the kept set is the shortest prefix reaching the stuck threshold. */
  lemma StuckNucleus(ws: seq<nat>, p: nat, n: nat)
    requires ws != [] && n <= |ws| && forall k :: 0 <= k < |ws| ==> ws[k] >= 1
    requires Prefix(ws, |ws|) * Clamp(p) > EXACT_LIMIT
    ensures n >= NucleusSize(ws, p) <==> Prefix(ws, n) >= STUCK
  {
    NucleusIsShortest(ws, p, n);
    SatPrefixIs(ws, |ws|);
    SatPrefixIs(ws, n);
    ThresholdSticks(Prefix(ws, |ws|), p);
  }

  /** The kept set is the shortest prefix that holds the promised share. */
  ghost predicate KeepsShare(ws: seq<nat>, p: nat) {
    forall n: nat :: n <= |ws| ==> (Prefix(ws, n) >= Share(Prefix(ws, |ws|), p) <==> n >= NucleusSize(ws, p))
  }

  /** No prefix lies between the stuck threshold and the promised share. */
  ghost predicate NothingBetween(ws: seq<nat>, p: nat) {
    forall n: nat :: n <= |ws| && Prefix(ws, n) >= STUCK ==> Prefix(ws, n) >= Share(Prefix(ws, |ws|), p)
  }

  lemma KeptBeyondLimit(ws: seq<nat>, p: nat)
    requires ws != [] && forall k :: 0 <= k < |ws| ==> ws[k] >= 1
    requires Prefix(ws, |ws|) * Clamp(p) > EXACT_LIMIT
    ensures KeepsShare(ws, p) <==> NothingBetween(ws, p)
  {
    var share := Share(Prefix(ws, |ws|), p);
    ThresholdSticks(Prefix(ws, |ws|), p);
    if KeepsShare(ws, p) {
      forall n: nat | n <= |ws| && Prefix(ws, n) >= STUCK
        ensures Prefix(ws, n) >= share
      {
        StuckNucleus(ws, p, n);
        assert Prefix(ws, n) >= share <==> n >= NucleusSize(ws, p);
      }
    }
    if NothingBetween(ws, p) {
      forall n: nat | n <= |ws|
        ensures Prefix(ws, n) >= share <==> n >= NucleusSize(ws, p)
      {
        StuckNucleus(ws, p, n);
      }
    }
  }

  lemma KeptWithinLimit(ws: seq<nat>, p: nat)
    requires ws != [] && forall k :: 0 <= k < |ws| ==> ws[k] >= 1
    requires Prefix(ws, |ws|) * Clamp(p) <= EXACT_LIMIT
    ensures KeepsShare(ws, p)
  {
    forall n: nat | n <= |ws|
      ensures Prefix(ws, n) >= Share(Prefix(ws, |ws|), p) <==> n >= NucleusSize(ws, p)
    {
      NucleusHoldsShare(ws, p, n);
    }
  }

  /** Main result: the kept set is the promised one if and only if the product stays below the limit or no
      prefix lies between the stuck threshold and the promised share. */
  lemma NucleusExactlyWhen(ws: seq<nat>, p: nat)
    requires ws != [] && forall k :: 0 <= k < |ws| ==> ws[k] >= 1
    ensures KeepsShare(ws, p) <==> Prefix(ws, |ws|) * Clamp(p) <= EXACT_LIMIT || NothingBetween(ws, p)
  {
    if Prefix(ws, |ws|) * Clamp(p) <= EXACT_LIMIT { KeptWithinLimit(ws, p); } else { KeptBeyondLimit(ws, p); }
  }

  function SampleNucleus(cs: seq<Candidate>, p: nat, temp: nat, seed: u32): Sampled {
    if cs == [] then Sampled(0, seed)
    else
      var ranked := Ranked(cs);
      if |ranked| == 1 || temp <= 1 then Sampled(ranked[0].id, seed)
      else
        var ws := Weights(ranked, temp);
        var n := NucleusSize(ws, p);
        if n <= 1 then Sampled(ranked[0].id, seed)
        else
          TotalPositive(ws[..n]);
          DrawToken(ranked[..n], ws[..n], seed)
  }

  lemma NucleusIsGreedy(scores: seq<u32>, p: nat, temp: nat, seed: u32)
    requires 0 < |scores| <= 0x1_0000_0000 && temp <= 1
    ensures SampleNucleus(Candidates(scores), p, temp, seed) == Sampled(FirstMax(scores, |scores|), seed)
  {
    TopIsGreedy(scores);
  }

  /** The sampled token is one of the nucleus: its rank is below the nucleus size. */
  lemma NucleusBound(cs: seq<Candidate>, p: nat, temp: nat, seed: u32, ws: seq<nat>, n: nat) returns (rank: nat)
    requires |cs| > 1 && temp > 1 && ws == Weights(Ranked(cs), temp) && n == NucleusSize(ws, p)
    ensures rank < n <= |cs| && Ranked(cs)[rank].id == SampleNucleus(cs, p, temp, seed).token
  {
    NucleusIsShortest(ws, p, 0);
    if n <= 1 {
      rank := 0;
    } else {
      rank := NucleusPlace(Ranked(cs), ws, n, seed);
    }
  }

  lemma NucleusPlace(ranked: seq<Candidate>, ws: seq<nat>, n: nat, seed: u32) returns (rank: nat)
    requires 1 < n <= |ws| == |ranked| && forall k :: 0 <= k < |ws| ==> ws[k] >= 1
    ensures rank < n && SatPrefix(ws[..n], n) > 0 && ranked[rank].id == DrawToken(ranked[..n], ws[..n], seed).token
  {
    TotalPositive(ws[..n]);
    rank := DrawnPlace(ranked[..n], ws[..n], seed);
    assert ranked[..n][rank] == ranked[rank];
  }

  // ---- Beyond the limit ----

  /** `n - 1` candidates with the highest score and one with the lowest. */
  function Extreme(n: nat): seq<u32>
    requires n > 1
  {
    seq(n, i requires 0 <= i < n => if i + 1 < n then 0xFFFF_FFFF else 0)
  }

  lemma ExtremeRanking(n: nat)
    requires 1 < n <= 0x1_0000_0000
    ensures Ranked(Candidates(Extreme(n))) == Candidates(Extreme(n))
  {
    var cs := Candidates(Extreme(n));
    RankedSorts(cs);
    RankingIsUnique(cs, Ranked(cs));
  }

  lemma {:induction false} EqualWeights(ws: seq<nat>, w: nat, n: nat)
    requires n <= |ws| && forall k :: 0 <= k < n ==> ws[k] == w
    ensures Prefix(ws, n) == n * w
  {
    if n > 0 {
      EqualWeights(ws, w, n - 1);
      assert n * w == (n - 1) * w + w;
    }
  }

  /** Above the limit the kept set can be too small: with 20000 candidates at temperature 2 and the
      whole distribution asked for, fewer than half of them are kept. */
  lemma NucleusTooSmall()
    ensures var ws := Weights(Ranked(Candidates(Extreme(20000))), 2);
      NucleusSize(ws, 1000) <= 8590 < 20000 &&
      (forall n: nat :: n <= 20000 && Prefix(ws, n) >= Share(Prefix(ws, 20000), 1000) ==> n == 20000)
  {
    var n := 20000;
    ExtremeRanking(n);
    var ws := Weights(Candidates(Extreme(n)), 2);
    EqualWeights(ws, 2147483647501, n - 1);
    EqualWeights(ws, 2147483647501, 8590);
    SatPrefixIs(ws, n);
    SatPrefixIs(ws, 8590);
    NucleusIsShortest(ws, 1000, 8590);
    forall k: nat | k <= n && Prefix(ws, k) >= Share(Prefix(ws, n), 1000)
      ensures k == n
    {
      PrefixGrows(ws, k, n);
    }
  }

  // ---- Beyond the generator and beyond 64 bits ----

  const TOP_WEIGHT: nat := 2147483647501

  lemma ExtremeWeights(n: nat) returns (ws: seq<nat>)
    requires 1 < n <= 0x1_0000_0000
    ensures ws == Weights(Ranked(Candidates(Extreme(n))), 2) && |ws| == n
    ensures ws[n - 1] == 1 && Prefix(ws, n - 1) == (n - 1) * TOP_WEIGHT
  {
    ExtremeRanking(n);
    ws := Weights(Candidates(Extreme(n)), 2);
    EqualWeights(ws, TOP_WEIGHT, n - 1);
  }

  /** A candidate may have a weight and still never be drawn: with the highest score and the lowest at
      temperature 2, and however many of the former, no seed samples the last one. */
  lemma LastNeverSampled(n: nat, topK: nat, seed: u32)
    requires 1 < n <= 0x1_0000_0000 && topK >= n
    ensures SampleTopK(Candidates(Extreme(n)), topK, 2, seed).token != n - 1
    ensures Weights(TopK(Candidates(Extreme(n)), topK), 2)[n - 1] > 0
  {
    var ws := ExtremeWeights(n);
    var kept := Candidates(Extreme(n));
    ExtremeRanking(n);
    assert kept[..n] == kept;
    assert TopK(kept, topK) == kept;
    ReachableDraws(ws, n - 1);
    B.MultipleOutside(n - 1, TOP_WEIGHT);
    assert Draw(ws, NextSeed(seed) % SatPrefix(ws, n)) != n - 1;
    assert SampleTopK(kept, topK, 2, seed) == DrawToken(kept, ws, seed);
  }

  /** With 8589936 such candidates or more the sum of weights saturates before the last one, which owns no
      ticket at all. */
  lemma TicketsRunOut(n: nat)
    requires 8589935 < n <= 0x1_0000_0000
    ensures var ws := Weights(Ranked(Candidates(Extreme(n))), 2);
      ws[n - 1] == 1 && |TicketsOf(ws, n - 1)| == 0
  {
    var ws := ExtremeWeights(n);
    assert (n - 1) * TOP_WEIGHT >= 8589935 * TOP_WEIGHT;
    TicketCount(ws, n - 1);
  }
}
