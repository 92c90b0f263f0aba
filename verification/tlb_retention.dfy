/** How long the TLB keeps a translation. */
module TlbRetention {
  import opened Memory
  import opened Sv32
  import opened TlbSpec

  /** An address space and a virtual page. */
  type PageId = (nat, nat)

  predicate IsFor(e: Entry, p: PageId) { e.valid && e.asid == p.0 && e.vpn == p.1 }

  /** How many inserts it takes until slot `i` is the next to be overwritten. */
  function Turns(next: nat, i: nat): nat
    requires next < TLB_SIZE && i < TLB_SIZE
  {
    if i >= next then i - next else i + TLB_SIZE - next
  }

  lemma TurnsPass(next: nat, i: nat)
    requires next < TLB_SIZE && i < TLB_SIZE
    ensures var next' := (next + 1) % TLB_SIZE;
      Turns(next', i) == if i == next then TLB_SIZE - 1 else Turns(next, i) - 1
    ensures Turns(next, i) == 0 <==> i == next
  {
  }

  // ---- Inserts and fences ----

  datatype Op = Fill(va: u32, paddr: u32, asid: nat, rwxu: nat) | Clear(scope: Scope)

  function Apply(t: Tlb, op: Op): (r: Tlb)
    requires Shaped(t)
    ensures Shaped(r)
  {
    match op
    case Fill(va, paddr, asid, rwxu) => Insert(t, va, paddr, asid, rwxu)
    case Clear(scope) => Flush(t, scope)
  }

  function ApplyAll(t: Tlb, ops: seq<Op>): (r: Tlb)
    requires Shaped(t)
    ensures Shaped(r)
    decreases |ops|
  {
    if ops == [] then t else ApplyAll(Apply(t, ops[0]), ops[1..])
  }

  function Fills(ops: seq<Op>): nat {
    if ops == [] then 0 else (if ops[0].Fill? then 1 else 0) + Fills(ops[1..])
  }

  /** The fence is meant for this page: for all, for its address space, or for itself. */
  predicate MeantFor(scope: Scope, p: PageId) {
    match scope
    case All => true
    case Asid(asid) => asid == p.0
    case Page(va, asid) => asid == p.0 && va / 0x1000 == p.1
  }

  /** No fence of the run is meant for the page, and no insert is of it. */
  ghost predicate Others(ops: seq<Op>, p: PageId) {
    forall i :: 0 <= i < |ops| ==>
      match ops[i]
      case Fill(va, _, asid, _) => (asid, va / 0x1000) != p
      case Clear(scope) => !MeantFor(scope, p)
  }

  ghost predicate Spared(ops: seq<Op>, p: PageId) {
    forall i :: 0 <= i < |ops| && ops[i].Clear? ==> !MeantFor(ops[i].scope, p)
  }

  lemma FlushSpares(t: Tlb, scope: Scope, p: PageId, i: nat)
    requires Shaped(t) && i < TLB_SIZE && IsFor(t.entries[i], p) && !MeantFor(scope, p)
    ensures Flush(t, scope).entries[i] == t.entries[i] && Flush(t, scope).nextInsert == t.nextInsert
  {
  }

  /** An entry lasts as many inserts as it is away from the insertion pointer. */
  lemma {:induction false} EntryLasts(t: Tlb, ops: seq<Op>, p: PageId, i: nat)
    requires Shaped(t) && i < TLB_SIZE && IsFor(t.entries[i], p) && Spared(ops, p)
    requires Fills(ops) <= Turns(t.nextInsert, i)
    ensures ApplyAll(t, ops).entries[i] == t.entries[i]
    decreases |ops|
  {
    if ops != [] {
      TurnsPass(t.nextInsert, i);
      if ops[0].Clear? { FlushSpares(t, ops[0].scope, p, i); }
      EntryLasts(Apply(t, ops[0]), ops[1..], p, i);
    }
  }

  /** Every entry of the page is overwritten within the next `n` inserts. */
  ghost predicate Doomed(t: Tlb, p: PageId, n: nat)
    requires Shaped(t)
  {
    forall i :: 0 <= i < TLB_SIZE && IsFor(t.entries[i], p) ==> Turns(t.nextInsert, i) < n
  }

  lemma StepDooms(t: Tlb, op: Op, p: PageId, n: nat)
    requires Shaped(t) && Doomed(t, p, n) && Others([op], p)
    ensures Doomed(Apply(t, op), p, if op.Fill? && n > 0 then n - 1 else n)
  {
    assert [op][0] == op;
    forall i | 0 <= i < TLB_SIZE && IsFor(Apply(t, op).entries[i], p)
      ensures Turns(Apply(t, op).nextInsert, i) < if op.Fill? && n > 0 then n - 1 else n
    {
      TurnsPass(t.nextInsert, i);
      assert IsFor(t.entries[i], p);
    }
  }

  lemma {:induction false} EntriesGo(t: Tlb, ops: seq<Op>, p: PageId, n: nat)
    requires Shaped(t) && Doomed(t, p, n) && Others(ops, p) && Fills(ops) >= n
    ensures Doomed(ApplyAll(t, ops), p, 0)
    decreases |ops|
  {
    if ops != [] {
      StepDooms(t, ops[0], p, n);
      EntriesGo(Apply(t, ops[0]), ops[1..], p, if ops[0].Fill? && n > 0 then n - 1 else n);
    }
  }

  lemma FoundIfThere(t: Tlb, va: u32, asid: nat, i: nat)
    requires Shaped(t) && i < TLB_SIZE && IsFor(t.entries[i], (asid, va / 0x1000))
    ensures FirstMatch(t.entries, va, asid, 0).Some?
  {
  }

  /** A page just inserted is found after up to 31 further inserts of any pages, and any fences that are not meant
      for it. */
  lemma InsertedStays(t: Tlb, va: u32, paddr: u32, asid: nat, rwxu: nat, ops: seq<Op>)
    requires Shaped(t) && Spared(ops, (asid, va / 0x1000)) && Fills(ops) <= 31
    ensures FirstMatch(ApplyAll(Insert(t, va, paddr, asid, rwxu), ops).entries, va, asid, 0).Some?
  {
    var t1, i := Insert(t, va, paddr, asid, rwxu), t.nextInsert;
    TurnsPass(i, i);
    EntryLasts(t1, ops, (asid, va / 0x1000), i);
    FoundIfThere(ApplyAll(t1, ops), va, asid, i);
  }

  /** Main result: while other pages are inserted and no fence is meant for it, a page just inserted is found if and
      only if fewer than 32 of them have been. */
  lemma StaysExactly(t: Tlb, va: u32, paddr: u32, asid: nat, rwxu: nat, ops: seq<Op>)
    requires Shaped(t) && Others(ops, (asid, va / 0x1000))
    ensures FirstMatch(ApplyAll(Insert(t, va, paddr, asid, rwxu), ops).entries, va, asid, 0).Some? <==> Fills(ops) < 32
  {
    var t1, p := Insert(t, va, paddr, asid, rwxu), (asid, va / 0x1000);
    if Fills(ops) < 32 {
      InsertedStays(t, va, paddr, asid, rwxu, ops);
    } else {
      EntriesGo(t1, ops, p, 32);
    }
  }

  // ---- Working sets ----

  /** Every access of the run is translated through the page tables, and goes through. */
  ghost predicate AllTranslated(s: State, roots: nat -> u32, es: seq<Event>)
    requires Shaped(s.tlb)
    decreases |es|
  {
    es == [] ||
    (es[0].Access? && es[0].sv32 && !es[0].q.privilege.Machine? && Step(s, roots, es[0]).1.Some? &&
     AllTranslated(Step(s, roots, es[0]).0, roots, es[1..]))
  }

  function PageAsked(e: Event): PageId
    requires e.Access?
  {
    (e.asid, e.q.va / 0x1000)
  }

  /** The TLB holds these pages, each once and in this order, and nothing else. */
  ghost predicate HoldsJust(t: Tlb, held: seq<PageId>) {
    Shaped(t) && |held| <= TLB_SIZE && t.nextInsert == |held| % TLB_SIZE &&
    (forall i :: 0 <= i < |held| ==> IsFor(t.entries[i], held[i])) &&
    (forall i :: |held| <= i < TLB_SIZE ==> !t.entries[i].valid)
  }

  ghost predicate Distinct(held: seq<PageId>) { forall i, j :: 0 <= i < j < |held| ==> held[i] != held[j] }

  ghost function Asked(held: seq<PageId>): set<PageId> { set i | 0 <= i < |held| :: held[i] }

  lemma {:induction false} DistinctCount(held: seq<PageId>)
    requires Distinct(held)
    ensures |Asked(held)| == |held|
  {
    if held != [] {
      var rest, last := held[..|held| - 1], held[|held| - 1];
      DistinctCount(rest);
      assert Asked(held) == Asked(rest) + {last};
      assert last !in Asked(rest);
    }
  }

  lemma SmallerSet(a: set<PageId>, b: set<PageId>)
    requires a <= b
    ensures |a| <= |b|
  {
    assert b == a + (b - a);
  }

  /** An access that goes through leaves the TLB alone if its page is there, else inserts it. */
  lemma AccessInserts(s: State, roots: nat -> u32, e: Event) returns (paddr: u32, rwxu: nat)
    requires Coherent(s.tlb, s.mem, roots) && e.Access? && e.sv32 && !e.q.privilege.Machine?
    requires Step(s, roots, e).1.Some?
    ensures Step(s, roots, e).0.tlb ==
      if FirstMatch(s.tlb.entries, e.q.va, e.asid, 0).Some? then s.tlb else Insert(s.tlb, e.q.va, paddr, e.asid, rwxu)
  {
    LookupIsRight(s.tlb, s.mem, roots, e.asid, e.q);
    var out := Walk(s.mem, roots(e.asid), e.q).out;
    paddr, rwxu := 0, 0;
    if out.Some? { paddr, rwxu := out.value.paddr, out.value.rwxu; }
  }

  lemma FoundIsHeld(t: Tlb, held: seq<PageId>, va: u32, asid: nat)
    requires HoldsJust(t, held)
    ensures FirstMatch(t.entries, va, asid, 0).Some? <==> (asid, va / 0x1000) in held
  {
    var p := (asid, va / 0x1000);
    var found := FirstMatch(t.entries, va, asid, 0);
    if p in held {
      var i :| 0 <= i < |held| && held[i] == p;
      FoundIfThere(t, va, asid, i);
    }
    if found.Some? {
      assert IsFor(t.entries[found.value], p);
      assert found.value < |held| && held[found.value] == p;
    }
  }

  lemma InsertHolds(t: Tlb, held: seq<PageId>, va: u32, paddr: u32, asid: nat, rwxu: nat)
    requires HoldsJust(t, held) && |held| < TLB_SIZE
    ensures HoldsJust(Insert(t, va, paddr, asid, rwxu), held + [(asid, va / 0x1000)])
  {
  }

  /** The pages held after one more has been asked for. */
  function With(held: seq<PageId>, p: PageId): seq<PageId> { if p in held then held else held + [p] }

  lemma AccessHolds(s: State, roots: nat -> u32, e: Event, held: seq<PageId>)
    requires Coherent(s.tlb, s.mem, roots) && e.Access? && e.sv32 && !e.q.privilege.Machine?
    requires Step(s, roots, e).1.Some? && HoldsJust(s.tlb, held)
    requires |held| < TLB_SIZE || PageAsked(e) in held
    ensures HoldsJust(Step(s, roots, e).0.tlb, With(held, PageAsked(e)))
  {
    var paddr, rwxu := AccessInserts(s, roots, e);
    FoundIsHeld(s.tlb, held, e.q.va, e.asid);
    if PageAsked(e) !in held { InsertHolds(s.tlb, held, e.q.va, paddr, e.asid, rwxu); }
  }

  lemma WithinSet(held: seq<PageId>, p: PageId, pages: set<PageId>)
    requires Distinct(held) && Asked(held) <= pages && p in pages && |pages| <= TLB_SIZE
    ensures |held| < TLB_SIZE || p in held
    ensures Distinct(With(held, p)) && Asked(With(held, p)) <= pages && p in With(held, p)
  {
    DistinctCount(held);
    if p !in held {
      assert p !in Asked(held);
      SmallerSet(Asked(held) + {p}, pages);
    }
  }

  lemma {:induction false} SetHolds(s: State, m0: Mem, roots: nat -> u32, es: seq<Event>, held: seq<PageId>,
                                    pages: set<PageId>) returns (held': seq<PageId>)
    requires Coherent(s.tlb, s.mem, roots) && SameButAD(m0, s.mem) && AllTranslated(s, roots, es)
    requires HoldsJust(s.tlb, held) && Distinct(held) && Asked(held) <= pages && |pages| <= TLB_SIZE
    requires forall i :: 0 <= i < |es| ==> es[i].Access? && PageAsked(es[i]) in pages
    ensures HoldsJust(After(s, roots, es).tlb, held') && held <= held'
    ensures forall i :: 0 <= i < |es| ==> es[i].Access? && PageAsked(es[i]) in held'
    decreases |es|
  {
    held' := held;
    if es != [] {
      var next := With(held, PageAsked(es[0]));
      WithinSet(held, PageAsked(es[0]), pages);
      AccessHolds(s, roots, es[0], held);
      StepKeepsCoherence(s, m0, roots, es[0]);
      held' := SetHolds(Step(s, roots, es[0]).0, m0, roots, es[1..], next, pages);
      AllHeld(es, next, held');
    }
  }

  lemma AllHeld(es: seq<Event>, next: seq<PageId>, held: seq<PageId>)
    requires es != [] && es[0].Access? && PageAsked(es[0]) in next && next <= held
    requires forall i :: 0 <= i < |es[1..]| ==> es[1..][i].Access? && PageAsked(es[1..][i]) in held
    ensures forall i :: 0 <= i < |es| ==> es[i].Access? && PageAsked(es[i]) in held
  {
    forall i | 0 <= i < |es|
      ensures es[i].Access? && PageAsked(es[i]) in held
    {
      if i > 0 { assert es[i] == es[1..][i - 1]; }
    }
  }

  /** Main result: a run of translations from an empty TLB that asks for no more than 32 different pages, however
      often and in whatever order, leaves every one of them in it. */
  lemma WorkingSetStays(m0: Mem, roots: nat -> u32, es: seq<Event>, pages: set<PageId>)
    requires AllTranslated(State(NewTlb(), m0), roots, es) && |pages| <= 32
    requires forall i :: 0 <= i < |es| ==> es[i].Access? && PageAsked(es[i]) in pages
    ensures forall i :: 0 <= i < |es| ==>
      es[i].Access? &&
      FirstMatch(After(State(NewTlb(), m0), roots, es).tlb.entries, es[i].q.va, es[i].asid, 0).Some?
  {
    var s := State(NewTlb(), m0);
    assert SameButAD(m0, m0);
    var held := SetHolds(s, m0, roots, es, [], pages);
    forall i | 0 <= i < |es|
      ensures FirstMatch(After(s, roots, es).tlb.entries, es[i].q.va, es[i].asid, 0).Some?
    {
      var j :| 0 <= j < |held| && held[j] == PageAsked(es[i]);
      FoundIfThere(After(s, roots, es).tlb, es[i].q.va, es[i].asid, j);
    }
  }
}
