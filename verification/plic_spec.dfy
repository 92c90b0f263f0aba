/** Interrupt arbitration by priority, then by lowest number, on sets of sources. */
module PlicSpec {
  const MAX_SOURCES: nat := 1024

  /** One hart context: which sources it takes, and above which priority. */
  datatype Context = Context(enabled: set<nat>, threshold: nat)

  predicate IsSource(s: nat) { 0 < s < MAX_SOURCES }

  function GetPriority(priority: seq<nat>, s: nat): nat {
    if s < |priority| then priority[s] else 0
  }

  ghost function Eligible(priority: seq<nat>, pending: set<nat>, ctx: Context): set<nat> {
    set s | s in pending && IsSource(s) && s in ctx.enabled && GetPriority(priority, s) > ctx.threshold
  }

  /** `s` goes before `t`: higher priority, or the same and a lower number. */
  predicate Before(priority: seq<nat>, s: nat, t: nat) {
    GetPriority(priority, s) > GetPriority(priority, t) ||
    (GetPriority(priority, s) == GetPriority(priority, t) && s < t)
  }

  /** `b` is the eligible source that goes before all others; 0 stands for none. */
  ghost predicate IsBest(priority: seq<nat>, e: set<nat>, b: nat) {
    if e == {} then b == 0 else b in e && forall s :: s in e && s != b ==> Before(priority, b, s)
  }

  lemma BestIsUnique(priority: seq<nat>, e: set<nat>, b: nat, c: nat)
    requires IsBest(priority, e, b) && IsBest(priority, e, c)
    ensures b == c
  {
  }

  /** What one look at the sources below `n`, in order, finds. */
  ghost function Best(priority: seq<nat>, e: set<nat>, n: nat): nat {
    if n == 0 then 0
    else
      var b := Best(priority, e, n - 1);
      if n - 1 in e && (b == 0 || GetPriority(priority, n - 1) > GetPriority(priority, b)) then n - 1 else b
  }

  ghost predicate BestBelow(priority: seq<nat>, e: set<nat>, n: nat, b: nat) {
    (b != 0 ==> b in e && b < n) &&
    (forall s :: s in e && s < n && s != b ==> b != 0 && Before(priority, b, s))
  }

  lemma {:induction false} BestSoFar(priority: seq<nat>, e: set<nat>, n: nat)
    requires 0 !in e
    ensures BestBelow(priority, e, n, Best(priority, e, n))
  {
    if n > 0 { BestSoFar(priority, e, n - 1); }
  }

  /** The scan over all sources finds the best. */
  lemma ScanFindsBest(priority: seq<nat>, e: set<nat>, n: nat)
    requires forall s :: s in e ==> 0 < s < n
    ensures IsBest(priority, e, Best(priority, e, n))
  {
    BestSoFar(priority, e, n);
  }

  lemma {:induction false} BestSkips(priority: seq<nat>, e: set<nat>, n: nat, k: nat)
    requires n <= k && forall s :: n <= s < k ==> s !in e
    ensures Best(priority, e, k) == Best(priority, e, n)
    decreases k - n
  {
    if n < k { BestSkips(priority, e, n, k - 1); }
  }

  // ---- Claims ----

  ghost function Claimed(priority: seq<nat>, pending: set<nat>, ctx: Context): nat {
    Best(priority, Eligible(priority, pending, ctx), MAX_SOURCES)
  }

  lemma ClaimedIsBest(priority: seq<nat>, pending: set<nat>, ctx: Context)
    ensures IsBest(priority, Eligible(priority, pending, ctx), Claimed(priority, pending, ctx))
  {
    ScanFindsBest(priority, Eligible(priority, pending, ctx), MAX_SOURCES);
  }

  /** A source from 1 to 1023 that is pending, enabled in the context and of a priority above its threshold. */
  predicate CanInterrupt(priority: seq<nat>, pending: set<nat>, ctx: Context, s: nat) {
    1 <= s <= 1023 && s in pending && s in ctx.enabled && s < |priority| && priority[s] > ctx.threshold
  }

  /** Main result: a claim answers the source of highest priority, and of lowest number among those, that can
      interrupt the context, and 0 if and only if none can. */
  lemma ClaimIs(priority: seq<nat>, pending: set<nat>, ctx: Context)
    ensures var b := Claimed(priority, pending, ctx);
      if b == 0 then forall s: nat :: !CanInterrupt(priority, pending, ctx, s)
      else
        CanInterrupt(priority, pending, ctx, b) &&
        forall s: nat :: CanInterrupt(priority, pending, ctx, s) ==>
          priority[s] < priority[b] || (priority[s] == priority[b] && b <= s)
  {
    ClaimedIsBest(priority, pending, ctx);
    assert forall s: nat :: CanInterrupt(priority, pending, ctx, s) <==> s in Eligible(priority, pending, ctx);
  }

  /** A claim takes the best source out of the pending set and nothing else. */
  ghost function AfterClaim(priority: seq<nat>, pending: set<nat>, ctx: Context): set<nat> {
    pending - {Claimed(priority, pending, ctx)}
  }

  /** The first `n` claims in one context. */
  ghost function Claims(priority: seq<nat>, pending: set<nat>, ctx: Context, n: nat): (cs: seq<nat>)
    ensures |cs| == n
    decreases n
  {
    if n == 0 then []
    else [Claimed(priority, pending, ctx)] + Claims(priority, AfterClaim(priority, pending, ctx), ctx, n - 1)
  }

  ghost function PendingAfter(priority: seq<nat>, pending: set<nat>, ctx: Context, n: nat): set<nat>
    decreases n
  {
    if n == 0 then pending else PendingAfter(priority, AfterClaim(priority, pending, ctx), ctx, n - 1)
  }

  lemma ClaimTakesOne(priority: seq<nat>, pending: set<nat>, ctx: Context)
    requires Eligible(priority, pending, ctx) != {}
    ensures var b := Claimed(priority, pending, ctx);
      b in Eligible(priority, pending, ctx) && IsBest(priority, Eligible(priority, pending, ctx), b) &&
      Eligible(priority, AfterClaim(priority, pending, ctx), ctx) == Eligible(priority, pending, ctx) - {b}
  {
    ClaimedIsBest(priority, pending, ctx);
  }

  /** `cs` lists the set `e`, each member once, best first. */
  ghost predicate InOrderOf(priority: seq<nat>, e: set<nat>, cs: seq<nat>) {
    |cs| == |e| && (forall s :: s in cs <==> s in e) &&
    (forall i, j :: 0 <= i < j < |cs| ==> Before(priority, cs[i], cs[j]))
  }

  /** Main result: as many claims as there are eligible sources return each of them once, in order of
      priority and then of number. */
  lemma {:induction false} ClaimsInOrder(priority: seq<nat>, pending: set<nat>, ctx: Context, n: nat)
    requires n == |Eligible(priority, pending, ctx)|
    ensures InOrderOf(priority, Eligible(priority, pending, ctx), Claims(priority, pending, ctx, n))
    decreases n
  {
    var e := Eligible(priority, pending, ctx);
    if n > 0 {
      var b, rest := Claimed(priority, pending, ctx), AfterClaim(priority, pending, ctx);
      ClaimTakesOne(priority, pending, ctx);
      ClaimsInOrder(priority, rest, ctx, n - 1);
      FirstThenRest(priority, e, b, Claims(priority, rest, ctx, n - 1));
    }
  }

  lemma FirstThenRest(priority: seq<nat>, e: set<nat>, b: nat, cs: seq<nat>)
    requires b in e && IsBest(priority, e, b) && InOrderOf(priority, e - {b}, cs)
    ensures InOrderOf(priority, e, [b] + cs)
  {
    var all := [b] + cs;
    forall i, j | 0 <= i < j < |all|
      ensures Before(priority, all[i], all[j])
    {
      assert all[j] == cs[j - 1] && cs[j - 1] in cs;
    }
  }

  /** Exactly the eligible sources have then left the pending set, and the next claim finds none. */
  lemma {:induction false} ClaimsWithdraw(priority: seq<nat>, pending: set<nat>, ctx: Context, n: nat)
    requires n == |Eligible(priority, pending, ctx)|
    ensures PendingAfter(priority, pending, ctx, n) == pending - Eligible(priority, pending, ctx)
    ensures Claimed(priority, PendingAfter(priority, pending, ctx, n), ctx) == 0
    decreases n
  {
    if n > 0 {
      ClaimTakesOne(priority, pending, ctx);
      ClaimsWithdraw(priority, AfterClaim(priority, pending, ctx), ctx, n - 1);
    } else {
      ClaimedIsBest(priority, pending, ctx);
    }
  }
}
