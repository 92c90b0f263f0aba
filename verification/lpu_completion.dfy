/** Which entries of a list the language unit counts as done, and which as errors. */
module LpuCompletion {
  import opened Memory
  import Bits
  import opened LpuSampling
  import opened LpuSpec
  import opened LpuMeaning

  lemma {:induction false} LastEntry(e: Engine, m: Mem, base: nat, len: nat, i: nat, f: EntriesFunction)
    requires IsEntries(f) && i <= len
    ensures var r := f(e, m, base, len, i); f(e, m, base, len + 1, i) == Entry(r.engine, r.mem, base + len * 16)
    decreases len - i
  {
    var r := Entry(e, m, base + i * 16);
    StepAlong(f, e, m, base, len + 1, i, r);
    if i == len {
      EntriesEnd(e, m, base, len);
      EntriesEnd(r.engine, r.mem, base, len + 1);
    } else {
      StepAlong(f, e, m, base, len, i, r);
      LastEntry(r.engine, r.mem, base, len, i + 1, f);
    }
  }

  /** The memory that the entry at place `i` meets: what the entries before it have left. */
  ghost function Reached(e: Engine, m: Mem, base: nat, i: nat): Mem { Entries(e, m, base, i, 0).mem }

  /** The entries among the first `n` that can be done when they are reached. */
  ghost function Doables(e: Engine, m: Mem, base: nat, n: nat): (places: set<nat>)
    ensures forall i: nat :: i in places <==> i < n && Doable(Reached(e, m, base, i), base + i * 16)
  {
    set i: nat | i < n && Doable(Reached(e, m, base, i), base + i * 16)
  }

  lemma NextDoable(places: set<nat>, places': set<nat>, n: nat, ok: bool)
    requires n !in places && forall i: nat :: i in places' <==> i in places || (i == n && ok)
    ensures |places'| == |places| + if ok then 1 else 0
  {
    assert places' == if ok then places + {n} else places;
  }

  /** `e'` has counted `done` more entries as done and `errs` more as errors. */
  predicate Counted(e: Engine, e': Engine, done: nat, errs: nat) {
    e'.done == (e.done + done) % 0x1_0000_0000 && e'.errs == (e.errs + errs) % 0x1_0000_0000
  }

  lemma CountedOn(e: Engine, e1: Engine, e2: Engine, done: nat, errs: nat, ok: bool)
    requires Counted(e, e1, done, errs) && CountsAs(e1, e2, ok)
    ensures if ok then Counted(e, e2, done + 1, errs) else Counted(e, e2, done, errs + 1)
  {
    Bits.WrapTwice(e.done + done, 1, 0x1_0000_0000);
    Bits.WrapTwice(e.errs + errs, 1, 0x1_0000_0000);
  }

  lemma EntriesNext(e: Engine, m: Mem, base: nat, n: nat, r: Ran)
    requires r == Entries(e, m, base, n, 0)
    ensures Entries(e, m, base, n + 1, 0) == Entry(r.engine, r.mem, base + n * 16)
  {
    var f := EntriesAsValue();
    LastEntry(e, m, base, n, 0, f);
    assert r == f(e, m, base, n, 0) && Entries(e, m, base, n + 1, 0) == f(e, m, base, n + 1, 0);
  }

  /** Each place of the trail is what the entry makes of the place before. */
  ghost predicate Follows(trail: nat -> Ran, base: nat, k: nat) {
    trail(k + 1) == Entry(trail(k).engine, trail(k).mem, base + k * 16)
  }

  /** The list, entry by entry. */
  lemma Trail(e: Engine, m: Mem, base: nat) returns (trail: nat -> Ran)
    ensures forall i: nat :: trail(i) == Entries(e, m, base, i, 0)
    ensures forall k: nat :: Follows(trail, base, k)
    ensures trail(0) == Ran(e, m)
  {
    trail := (i: nat) => Entries(e, m, base, i, 0);
    forall k: nat
      ensures Follows(trail, base, k)
    {
      EntriesNext(e, m, base, k, trail(k));
    }
    EntriesEnd(e, m, base, 0);
  }

  lemma NextCounts(e: Engine, m: Mem, base: nat, n: nat, r: Ran, r': Ran, ok: bool)
    requires r == Entries(e, m, base, n, 0) && r' == Entries(e, m, base, n + 1, 0) && ok == Doable(r.mem, base + n * 16)
    ensures CountsAs(r.engine, r'.engine, ok)
  {
    EntriesNext(e, m, base, n, r);
    EntryCountsAs(r.engine, r.mem, base + n * 16, r', ok);
  }

  /** Every step of the trail counts as it should. */
  ghost predicate Along(trail: nat -> Engine, ok: nat -> bool, n: nat) {
    forall i: nat :: i < n ==> CountsAs(trail(i), trail(i + 1), ok(i))
  }

  ghost function Places(ok: nat -> bool, n: nat): set<nat> { set i: nat | i < n && ok(i) }

  lemma {:induction false} CountsAlong(trail: nat -> Engine, ok: nat -> bool, n: nat, done: nat)
    requires Along(trail, ok, n) && done == |Places(ok, n)|
    ensures done <= n && Counted(trail(0), trail(n), done, n - done)
  {
    if n > 0 {
      var done1 := |Places(ok, n - 1)|;
      CountsAlong(trail, ok, n - 1, done1);
      NextDoable(Places(ok, n - 1), Places(ok, n), n - 1, ok(n - 1));
      CountedOn(trail(0), trail(n - 1), trail(n), done1, n - 1 - done1, ok(n - 1));
    }
  }

  /** Main result: a list counts as done the entries that can be done when they are reached, and as errors all the
      others. */
  lemma ListDoneExactly(e: Engine, m: Mem, base: nat, n: nat, r: Ran, done: nat)
    requires r == Entries(e, m, base, n, 0) && done == |Doables(e, m, base, n)|
    ensures done <= n && Counted(e, r.engine, done, n - done)
  {
    ghost var trail: nat -> Engine := (i: nat) => Entries(e, m, base, i, 0).engine;
    ghost var ok: nat -> bool := (i: nat) => Doable(Reached(e, m, base, i), base + i * 16);
    forall i: nat | i < n
      ensures CountsAs(trail(i), trail(i + 1), ok(i))
    {
      NextCounts(e, m, base, i, Entries(e, m, base, i, 0), Entries(e, m, base, i + 1, 0), ok(i));
    }
    assert Places(ok, n) == Doables(e, m, base, n);
    CountsAlong(trail, ok, n, done);
    EntriesEnd(e, m, base, 0);
  }

  // ---- Lists that leave themselves alone ----

  /** No entry of the list stores over the list. */
  ghost predicate LeavesItself(m: Mem, base: nat, n: nat) {
    forall i: nat, d: Words :: i < n ==> Spares(m, base, n, i, d)
  }

  predicate Spares(m: Mem, base: nat, n: nat, i: nat, d: Words) {
    StandAt(m, base + i * 16, d) ==> Apart(d.out, Span(d), base, n * 16)
  }

  /** The list reads as it did, and bytes can be read and stored where they could. */
  ghost predicate SameList(m: Mem, m': Mem, base: nat, n: nat) {
    SameRegions(m, m') && forall x :: base <= x < base + n * 16 && x in m.bytes ==> m'.bytes[x] == m.bytes[x]
  }

  lemma WordsStay(m: Mem, m': Mem, base: nat, n: nat, i: nat, d: Words)
    requires SameList(m, m', base, n) && i < n
    ensures StandAt(m, base + i * 16, d) <==> StandAt(m', base + i * 16, d)
  {
    var at := base + i * 16;
    assert at + 16 <= base + n * 16;
    ReadLEFrame(m, m', at, 4);
    ReadLEFrame(m, m', at + 4, 4);
    ReadLEFrame(m, m', at + 8, 4);
    ReadLEFrame(m, m', at + 12, 4);
  }

  lemma CanDoStays(m: Mem, m': Mem, d: Words)
    requires SameRegions(m, m')
    ensures CanDo(m, d) <==> CanDo(m', d)
  {
    SameAccess(m, m', d.a, d.n);
    SameAccess(m, m', d.a, d.n * 4);
    SameAccess(m, m', d.out, d.n * 4);
    SameAccess(m, m', d.out, 4);
  }

  lemma DoableStays(m: Mem, m': Mem, base: nat, n: nat, i: nat)
    requires SameList(m, m', base, n) && i < n
    ensures Doable(m, base + i * 16) <==> Doable(m', base + i * 16)
  {
    forall d: Words
      ensures StandAt(m, base + i * 16, d) && CanDo(m, d) <==> StandAt(m', base + i * 16, d) && CanDo(m', d)
    {
      WordsStay(m, m', base, n, i, d);
      CanDoStays(m, m', d);
    }
  }

  lemma StaysOutside(m: Mem, m1: Mem, m2: Mem, base: nat, n: nat, out: nat, k: nat)
    requires SameList(m, m1, base, n) && SameOutside(m1, m2, out, k) && Apart(out, k, base, n * 16)
    ensures SameList(m, m2, base, n)
  {
  }

  lemma EntryStores(e: Engine, m: Mem, m': Mem, base: nat, d: Words)
    requires StandAt(m, base, d) && m' == Entry(e, m, base).mem
    ensures SameOutside(m, m', d.out, Span(d))
  {
    ReadEntryCounts(e, m, base, d);
  }

  lemma EntryLeavesList(e: Engine, m: Mem, m1: Mem, m2: Mem, base: nat, n: nat, i: nat, at: nat)
    requires LeavesItself(m, base, n) && SameList(m, m1, base, n) && i < n
    requires at == base + i * 16 && m2 == Entry(e, m1, at).mem
    ensures SameList(m, m2, base, n)
  {
    var d := WordsOrNone(m1, at);
    if d.None? {
      EntryUnread(e, m1, at);
    } else {
      EntryStores(e, m1, m2, at, d.value);
      WordsStay(m, m1, base, n, i, d.value);
      assert Spares(m, base, n, i, d.value);
      StaysOutside(m, m1, m2, base, n, d.value.out, Span(d.value));
    }
  }

  lemma {:induction false} StaysAlong(trail: nat -> Ran, m: Mem, base: nat, n: nat, i: nat)
    requires LeavesItself(m, base, n) && i <= n && trail(0).mem == m
    requires forall k: nat :: k < n ==> Follows(trail, base, k)
    ensures SameList(m, trail(i).mem, base, n)
  {
    if i > 0 {
      StaysAlong(trail, m, base, n, i - 1);
      assert Follows(trail, base, i - 1);
      var at := base + (i - 1) * 16;
      EntryLeavesList(trail(i - 1).engine, m, trail(i - 1).mem, trail(i).mem, base, n, i - 1, at);
    }
  }

  lemma ListStays(e: Engine, m: Mem, base: nat, n: nat, i: nat, m1: Mem)
    requires LeavesItself(m, base, n) && i <= n && m1 == Reached(e, m, base, i)
    ensures SameList(m, m1, base, n)
  {
    var trail := Trail(e, m, base);
    StaysAlong(trail, m, base, n, i);
  }

  /** The entries that can be done in the memory the list starts from. */
  ghost function DoablesAtStart(m: Mem, base: nat, n: nat): (places: set<nat>)
    ensures forall i: nat :: i in places <==> i < n && Doable(m, base + i * 16)
  {
    set i: nat | i < n && Doable(m, base + i * 16)
  }

  /** Nothing an entry does decides whether a later one can be done. */
  lemma StartDecides(e: Engine, m: Mem, base: nat, n: nat)
    requires LeavesItself(m, base, n)
    ensures Doables(e, m, base, n) == DoablesAtStart(m, base, n)
  {
    forall i: nat | i < n
      ensures Doable(m, base + i * 16) <==> Doable(Reached(e, m, base, i), base + i * 16)
    {
      var m1 := Reached(e, m, base, i);
      ListStays(e, m, base, n, i, m1);
      DoableStays(m, m1, base, n, i);
    }
  }

  /** Main result: a list that does not store over itself counts as done exactly the entries that can be done in the
      memory it starts from. */
  lemma ListDoneFromStart(e: Engine, m: Mem, base: nat, n: nat, r: Ran, done: nat)
    requires LeavesItself(m, base, n)
    requires r == Entries(e, m, base, n, 0) && done == |DoablesAtStart(m, base, n)|
    ensures done <= n && Counted(e, r.engine, done, n - done)
  {
    StartDecides(e, m, base, n);
    ListDoneExactly(e, m, base, n, r, done);
  }
}
