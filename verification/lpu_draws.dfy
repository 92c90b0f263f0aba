/** What sampling returns, token and seed, in numbers. */
module LpuDraws {
  import opened Memory
  import opened LpuSampling

  /** The ranking of the candidates. */
  ghost predicate Ranks(cs: seq<Candidate>, r: seq<Candidate>) {
    |r| == |cs| && Sorted(r) && multiset(r) == multiset(cs)
  }

  /** The weights of the first `n` of the ranked candidates `r` together, measured from the last of the first `kept`. */
  function WeightOf(r: seq<Candidate>, kept: nat, temp: nat, n: nat): nat
    requires n <= kept <= |r| && kept > 0 && temp > 0
  {
    if n == 0 then 0
    else
      var above := r[n - 1].score - r[kept - 1].score;
      WeightOf(r, kept, temp, n - 1) + 1 + (if above > 0 then above * 1000 / temp else 0)
  }

  /** The weight of a score, from its distance above the least. */
  lemma WeightIs(score: nat, min: nat, temp: nat)
    requires temp > 0
    ensures Weight(score, min, temp) == 1 + if score - min > 0 then (score - min) * 1000 / temp else 0
  {
    assert Max1(temp) == temp;
    if score <= min { ModBounds(0, temp); }
  }

  lemma {:induction false} WeightOfIs(r: seq<Candidate>, kept: nat, temp: nat, n: nat, ws: seq<nat>)
    requires n <= kept <= |r| && kept > 0 && temp > 0 && ws == Weights(r[..kept], temp)
    ensures Prefix(ws, n) == WeightOf(r, kept, temp, n)
  {
    if n > 0 {
      WeightOfIs(r, kept, temp, n - 1, ws);
      WeightIs(r[n - 1].score, r[kept - 1].score, temp);
      assert ws[n - 1] == Weight(r[n - 1].score, r[kept - 1].score, temp);
    }
  }

  lemma RankingIs(cs: seq<Candidate>, r: seq<Candidate>)
    requires Ranks(cs, r)
    ensures r == Ranked(cs) && |r| == |cs|
  {
    RankedSorts(cs);
    RankingIsUnique(r, Ranked(cs));
  }

  /** The place whose weights the ticket falls into. */
  predicate FallsInto(r: seq<Candidate>, kept: nat, temp: nat, ticket: nat, i: nat)
    requires kept <= |r| && temp > 0
  {
    i < kept && WeightOf(r, kept, temp, i) <= ticket < WeightOf(r, kept, temp, i + 1)
  }

  lemma DrawFalls(r: seq<Candidate>, kept: nat, temp: nat, ws: seq<nat>, n: nat, total: nat, ticket: nat)
      returns (i: nat)
    requires 0 < n <= kept <= |r| && temp > 0 && ws == Weights(r[..kept], temp)
    requires total == SatPrefix(ws[..n], n) && ticket < total
    ensures i < n && i == Draw(ws[..n], ticket) && FallsInto(r, kept, temp, ticket, i)
  {
    i := Draw(ws[..n], ticket);
    TicketsOwned(ws[..n], ticket, i);
    PrefixOfStart(ws, n, i);
    PrefixOfStart(ws, n, i + 1);
    WeightOfIs(r, kept, temp, i, ws);
    WeightOfIs(r, kept, temp, i + 1, ws);
  }

  lemma {:induction false} PrefixOfStart(ws: seq<nat>, n: nat, i: nat)
    requires i <= n <= |ws|
    ensures Prefix(ws[..n], i) == Prefix(ws, i)
  {
    if i > 0 { PrefixOfStart(ws, n, i - 1); }
  }

  /** The weights together, kept below 2^64. */
  function Saturated(t: nat): nat { if t < 0x1_0000_0000_0000_0000 then t else 0xFFFF_FFFF_FFFF_FFFF }

  lemma TotalIs(r: seq<Candidate>, kept: nat, temp: nat, ws: seq<nat>, n: nat)
    requires 0 < n <= kept <= |r| && temp > 0 && ws == Weights(r[..kept], temp)
    ensures SatPrefix(ws[..n], n) > 0
    ensures SatPrefix(ws[..n], n) == Saturated(WeightOf(r, kept, temp, n))
  {
    TotalPositive(ws[..n]);
    SatPrefixIs(ws[..n], n);
    PrefixOfStart(ws, n, n);
    WeightOfIs(r, kept, temp, n, ws);
  }

  /** The generator's next number becomes the seed; its remainder by the weights of the first `n` is the ticket. */
  ghost predicate Drawn(r: seq<Candidate>, kept: nat, temp: nat, n: nat, seed: u32, i: nat, out: Sampled)
    requires 0 < n <= kept <= |r| && temp > 0
  {
    var next := (seed * 1664525 + 1013904223) % 0x1_0000_0000;
    var total := Saturated(WeightOf(r, kept, temp, n));
    i < n && total > 0 && FallsInto(r, kept, temp, next % total, i) && out == Sampled(r[i].id, next)
  }

  lemma TokenIsDrawn(r: seq<Candidate>, kept: nat, temp: nat, ws: seq<nat>, n: nat, seed: u32) returns (i: nat)
    requires 0 < n <= kept <= |r| && temp > 0 && ws == Weights(r[..kept], temp)
    ensures SatPrefix(ws[..n], n) > 0 && Drawn(r, kept, temp, n, seed, i, DrawToken(r[..n], ws[..n], seed))
  {
    TotalIs(r, kept, temp, ws, n);
    var next := (seed * 1664525 + 1013904223) % 0x1_0000_0000;
    var total := SatPrefix(ws[..n], n);
    ModBounds(next, total);
    i := DrawFalls(r, kept, temp, ws, n, total, next % total);
  }

  /** Main result: with more than one candidate kept and a temperature, top-k sampling returns the candidate whose
      weights the ticket falls into. */
  lemma TopKDraws(cs: seq<Candidate>, topK: nat, temp: nat, seed: u32, r: seq<Candidate>, kept: nat) returns (i: nat)
    requires |cs| > 1 && topK > 1 && temp > 1 && Ranks(cs, r)
    requires kept == if topK < |cs| then topK else |cs|
    ensures Drawn(r, kept, temp, kept, seed, i, SampleTopK(cs, topK, temp, seed))
  {
    RankingIs(cs, r);
    var ws := Weights(r[..kept], temp);
    assert ws[..kept] == ws;
    i := TokenIsDrawn(r, kept, temp, ws, kept, seed);
  }

  /** The `n` best hold `p` thousandths of all weights, and fewer do not. */
  ghost predicate HoldsShare(r: seq<Candidate>, temp: nat, p: nat, n: nat)
    requires |r| > 0 && temp > 0
  {
    forall k: nat :: k <= |r| ==>
      (1000 * WeightOf(r, |r|, temp, k) >= WeightOf(r, |r|, temp, |r|) * p <==> k >= n)
  }

  lemma AllWeightIs(r: seq<Candidate>, temp: nat, k: nat, ws: seq<nat>)
    requires |r| > 0 && temp > 0 && k <= |r| && ws == Weights(r, temp)
    ensures Prefix(ws, k) == WeightOf(r, |r|, temp, k)
  {
    assert r[..|r|] == r;
    WeightOfIs(r, |r|, temp, k, ws);
  }

  lemma AtLeastShare(x: nat, y: nat)
    ensures x >= (y + 999) / 1000 <==> 1000 * x >= y
  {
  }

  lemma SharePlaceIs(ws: seq<nat>, p: nat, k: nat, weight: nat, product: nat, n: nat)
    requires ws != [] && k <= |ws| && (forall i :: 0 <= i < |ws| ==> ws[i] >= 1) && 1 <= p <= 1000
    requires weight == Prefix(ws, k) && product == Prefix(ws, |ws|) * p <= 18446744073709551000
    requires n == NucleusSize(ws, p)
    ensures 1000 * weight >= product <==> k >= n
  {
    NucleusHoldsShare(ws, p, k);
    AtLeastShare(weight, product);
  }

  lemma NucleusIs(r: seq<Candidate>, temp: nat, p: nat, ws: seq<nat>, product: nat, n: nat)
    requires |r| > 0 && temp > 0 && ws == Weights(r, temp) && 1 <= p <= 1000 && n == NucleusSize(ws, p)
    requires product == WeightOf(r, |r|, temp, |r|) * p <= 18446744073709551000
    ensures 0 < n <= |r| && HoldsShare(r, temp, p, n)
  {
    NucleusIsShortest(ws, p, 0);
    AllWeightIs(r, temp, |r|, ws);
    forall k: nat | k <= |r|
      ensures 1000 * WeightOf(r, |r|, temp, k) >= product <==> k >= n
    {
      AllWeightIs(r, temp, k, ws);
      SharePlaceIs(ws, p, k, Prefix(ws, k), product, n);
    }
  }

  /** Main result: while the product of weights and share stays within the limit, nucleus sampling keeps the fewest
      best candidates that hold the share; one alone is returned without a draw, and otherwise the one whose weights
      the ticket falls into. */
  lemma NucleusDraws(cs: seq<Candidate>, p: nat, temp: nat, seed: u32, r: seq<Candidate>) returns (n: nat, i: nat)
    requires |cs| > 1 && temp > 1 && 1 <= p <= 1000 && Ranks(cs, r)
    requires WeightOf(r, |r|, temp, |r|) * p <= 18446744073709551000
    ensures 0 < n <= |r| && HoldsShare(r, temp, p, n)
    ensures var out := SampleNucleus(cs, p, temp, seed);
      if n == 1 then out == Sampled(r[0].id, seed) else Drawn(r, |r|, temp, n, seed, i, out)
  {
    RankingIs(cs, r);
    assert r[..|r|] == r;
    var ws := Weights(r, temp);
    n, i := NucleusSize(ws, p), 0;
    NucleusIs(r, temp, p, ws, WeightOf(r, |r|, temp, |r|) * p, n);
    if n > 1 { i := TokenIsDrawn(r, |r|, temp, ws, n, seed); }
  }
}
