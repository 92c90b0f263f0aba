/** The interrupt controller over whole runs: what becomes of every request that is raised. */
module PlicRuns {
  import opened PlicSpec

  datatype Controller = Controller(priority: seq<nat>, machine: Context, supervisor: Context, pending: set<nat>)

  /** Devices raise and lower requests, software claims and completes them in either context, and may
      change priorities, enables and thresholds at any time. */
  datatype Event =
    | Raise(source: nat)
    | Lower(source: nat)
    | Claim(inSupervisor: bool)
    | Complete(inSupervisor: bool, source: nat)
    | Configure(priority: seq<nat>, machine: Context, supervisor: Context)

  function ContextOf(c: Controller, inSupervisor: bool): Context {
    if inSupervisor then c.supervisor else c.machine
  }

  /** What a claim returns; every other event returns nothing. */
  ghost function Got(c: Controller, e: Event): nat {
    if e.Claim? then Claimed(c.priority, c.pending, ContextOf(c, e.inSupervisor)) else 0
  }

  ghost function Step(c: Controller, e: Event): Controller {
    match e
    case Raise(s) => if IsSource(s) then c.(pending := c.pending + {s}) else c
    case Lower(s) => if IsSource(s) then c.(pending := c.pending - {s}) else c
    case Claim(sup) => c.(pending := AfterClaim(c.priority, c.pending, ContextOf(c, sup)))
    case Complete(_, s) => if IsSource(s) then c.(pending := c.pending - {s}) else c
    case Configure(p, m, s) => Controller(p, m, s, c.pending)
  }

  ghost function RunOf(c: Controller, es: seq<Event>): Controller
    decreases |es|
  {
    if es == [] then c else RunOf(Step(c, es[0]), es[1..])
  }

  // ---- Completion ----

  /** Completing a source also withdraws it: the pending set survives exactly when the number is no
      source or the source is not pending. */
  lemma CompleteKeepsPending(c: Controller, sup: bool, s: nat)
    ensures Step(c, Complete(sup, s)).pending == c.pending <==> !IsSource(s) || s !in c.pending
  {
  }

  /** Claim and completion of an interrupt, with the device raising it again between the two. */
  function Reraised(sup: bool, s: nat): seq<Event> {
    [Raise(s), Claim(sup), Raise(s), Complete(sup, s)]
  }

  /** Whenever a source is the next to be claimed, a request raised again while the first is handled is
      lost: no run without another raise ever delivers it, in either context. */
  lemma ReraisedIsLost(c: Controller, sup: bool, s: nat, after: seq<Event>)
    requires IsSource(s) && s !in c.pending
    requires Claimed(c.priority, c.pending + {s}, ContextOf(c, sup)) == s
    requires forall i :: 0 <= i < |after| ==> after[i] != Raise(s)
    ensures Got(Step(c, Raise(s)), Claim(sup)) == s
    ensures RunOf(c, Reraised(sup, s)) == c
    ensures Delivered(RunOf(c, Reraised(sup, s)), after, s) == 0
  {
    var es := Reraised(sup, s);
    var c1 := Step(c, Raise(s));
    var c2 := Step(c1, Claim(sup));
    var c3 := Step(c2, Raise(s));
    assert c2.pending == c.pending && c3.pending == c.pending + {s};
    assert Step(c3, Complete(sup, s)).pending == c.pending;
    assert es[1..] == [Claim(sup), Raise(s), Complete(sup, s)];
    assert es[1..][1..] == [Raise(s), Complete(sup, s)] && es[1..][1..][1..] == [Complete(sup, s)];
    assert RunOf(c3, [Complete(sup, s)]) == Step(c3, Complete(sup, s));
    assert RunOf(c2, es[1..][1..]) == RunOf(c3, es[1..][1..][1..]);
    assert RunOf(c1, es[1..]) == RunOf(c2, es[1..][1..]);
    NothingWithoutRaise(c, after, s);
  }

  /** A source that is not pending and not raised is never claimed. */
  lemma {:induction false} NothingWithoutRaise(c: Controller, es: seq<Event>, s: nat)
    requires IsSource(s) && s !in c.pending && forall i :: 0 <= i < |es| ==> es[i] != Raise(s)
    ensures s !in RunOf(c, es).pending && Delivered(c, es, s) == 0
    decreases |es|
  {
    if es != [] {
      GotIsPending(c, es[0]);
      NothingWithoutRaise(Step(c, es[0]), es[1..], s);
    }
  }

  /** A claim returns a pending source, or 0. */
  lemma GotIsPending(c: Controller, e: Event)
    ensures Got(c, e) != 0 ==> Got(c, e) in c.pending
  {
    if e.Claim? { ClaimedIsBest(c.priority, c.pending, ContextOf(c, e.inSupervisor)); }
  }

  // ---- Accounts of one source ----

  function One(b: bool): nat { if b then 1 else 0 }

  /** Raises that make a new request, rather than repeat one that is open. */
  ghost function Requested(c: Controller, es: seq<Event>, s: nat): nat
    decreases |es|
  {
    if es == [] then 0 else One(es[0] == Raise(s) && s !in c.pending) + Requested(Step(c, es[0]), es[1..], s)
  }

  /** Claims, in either context, that return the source. */
  ghost function Delivered(c: Controller, es: seq<Event>, s: nat): nat
    decreases |es|
  {
    if es == [] then 0 else One(Got(c, es[0]) == s) + Delivered(Step(c, es[0]), es[1..], s)
  }

  /** An open request is withdrawn without having been claimed. */
  predicate Drops(c: Controller, e: Event, s: nat) {
    (e.Complete? || e.Lower?) && e.source == s && s in c.pending
  }

  ghost function Dropped(c: Controller, es: seq<Event>, s: nat): nat
    decreases |es|
  {
    if es == [] then 0 else One(Drops(c, es[0], s)) + Dropped(Step(c, es[0]), es[1..], s)
  }

  lemma StepAccount(c: Controller, e: Event, s: nat)
    requires IsSource(s)
    ensures One(s in c.pending) + One(e == Raise(s) && s !in c.pending) ==
      One(Got(c, e) == s) + One(Drops(c, e, s)) + One(s in Step(c, e).pending)
  {
    GotIsPending(c, e);
  }

  /** Main result: over every run, with any configuration changes, each request of a source is delivered
      by exactly one claim in one context, dropped by a completion or by its device, or still open. */
  lemma {:induction false} RequestsAccounted(c: Controller, es: seq<Event>, s: nat)
    requires IsSource(s)
    ensures One(s in c.pending) + Requested(c, es, s) ==
      Delivered(c, es, s) + Dropped(c, es, s) + One(s in RunOf(c, es).pending)
    decreases |es|
  {
    if es != [] {
      StepAccount(c, es[0], s);
      RequestsAccounted(Step(c, es[0]), es[1..], s);
    }
  }

  ghost function StateAt(c: Controller, es: seq<Event>, k: nat): Controller
    requires k <= |es|
  {
    RunOf(c, es[..k])
  }

  lemma {:induction false} DroppedSomewhere(c: Controller, es: seq<Event>, s: nat)
    ensures Dropped(c, es, s) > 0 <==> exists k: nat :: k < |es| && Drops(StateAt(c, es, k), es[k], s)
    decreases |es|
  {
    if es != [] {
      var c', rest := Step(c, es[0]), es[1..];
      DroppedSomewhere(c', rest, s);
      assert StateAt(c, es, 0) == c;
      forall k: nat | k < |rest|
        ensures StateAt(c, es, k + 1) == StateAt(c', rest, k) && es[k + 1] == rest[k]
      {
        assert es[..k + 1][1..] == rest[..k] && es[..k + 1][0] == es[0];
      }
      if Dropped(c', rest, s) > 0 {
        var k: nat :| k < |rest| && Drops(StateAt(c', rest, k), rest[k], s);
        assert Drops(StateAt(c, es, k + 1), es[k + 1], s);
      }
      if k: nat :| k < |es| && Drops(StateAt(c, es, k), es[k], s) {
        if k > 0 { assert Drops(StateAt(c', rest, k - 1), rest[k - 1], s); }
      }
    }
  }

  /** Main result: a run delivers every request it does not leave open if and only if no completion and
      no lowering of the source ever meets it pending. */
  lemma DeliversAllExactlyWhen(c: Controller, es: seq<Event>, s: nat)
    requires IsSource(s)
    ensures Delivered(c, es, s) == One(s in c.pending) + Requested(c, es, s) - One(s in RunOf(c, es).pending) <==>
      forall k: nat :: k < |es| ==> !Drops(StateAt(c, es, k), es[k], s)
  {
    RequestsAccounted(c, es, s);
    DroppedSomewhere(c, es, s);
  }
}
