/** Page tables that change while the TLB is in use: what a fence is for. */
module TlbFences {
  import opened Memory
  import opened Sv32
  import opened TlbSpec

  /** An address space and a virtual page. */
  type PageId = (nat, nat)

  /** `stale` collects the pages whose mapping has changed since a fence last covered them. */
  datatype System = System(tlb: Tlb, mem: Mem, roots: nat -> u32, stale: iset<PageId>)

  /** Besides translating and fencing, software may rewrite memory and move table roots at will. */
  datatype Action =
    | Use(sv32: bool, asid: nat, q: Request)
    | Sfence(scope: Scope)
    | Rewrite(mem: Mem, roots: nat -> u32)

  predicate Covers(scope: Scope, p: PageId) {
    match scope
    case All => true
    case Asid(asid) => p.0 == asid
    case Page(va, asid) => p == (asid, va / 0x1000)
  }

  function MappingOf(m: Mem, roots: nat -> u32, p: PageId): Option<(nat, nat)> {
    if p.1 < 0x10_0000 then Mapping(m, roots(p.0), p.1 * 0x1000) else None
  }

  ghost function Changed(s: System, m: Mem, roots: nat -> u32): iset<PageId> {
    iset p: PageId | MappingOf(s.mem, s.roots, p) != MappingOf(m, roots, p)
  }

  ghost function Do(s: System, a: Action): (r: System)
    requires Shaped(s.tlb)
    ensures Shaped(r.tlb)
  {
    match a
    case Use(sv32, asid, q) =>
      var t := Translate(s.tlb, s.mem, sv32, s.roots(asid), asid, q);
      s.(tlb := t.tlb, mem := t.mem)
    case Sfence(scope) =>
      s.(tlb := Flush(s.tlb, scope), stale := iset p | p in s.stale && !Covers(scope, p))
    case Rewrite(m, roots) =>
      System(s.tlb, m, roots, s.stale + Changed(s, m, roots))
  }

  ghost function DoAll(s: System, actions: seq<Action>): (r: System)
    requires Shaped(s.tlb)
    ensures Shaped(r.tlb)
    decreases |actions|
  {
    if actions == [] then s else DoAll(Do(s, actions[0]), actions[1..])
  }

  function IdOf(e: Entry): PageId { (e.asid, e.vpn) }

  /** Every valid entry of a page that is not stale says what a fresh walk would say. */
  ghost predicate CoherentButStale(s: System) {
    Shaped(s.tlb) &&
    forall i :: 0 <= i < TLB_SIZE && s.tlb.entries[i].valid && IdOf(s.tlb.entries[i]) !in s.stale ==>
      MappingOf(s.mem, s.roots, IdOf(s.tlb.entries[i])) == Some((s.tlb.entries[i].ppn, s.tlb.entries[i].rwxu))
  }

  /** The TLB without its stale entries. */
  ghost function Trusted(s: System): (t: Tlb)
    requires Shaped(s.tlb)
    ensures Shaped(t)
  {
    s.tlb.(entries := seq(TLB_SIZE, i requires 0 <= i < TLB_SIZE =>
      if IdOf(s.tlb.entries[i]) in s.stale then NO_ENTRY else s.tlb.entries[i]))
  }

  lemma TrustedIsCoherent(s: System)
    requires CoherentButStale(s)
    ensures Coherent(Trusted(s), s.mem, s.roots)
  {
  }

  lemma {:induction false} SameMatch(s: System, va: u32, asid: nat, i: nat)
    requires Shaped(s.tlb) && (asid, va / 0x1000) !in s.stale && i <= TLB_SIZE
    ensures FirstMatch(Trusted(s).entries, va, asid, i) == FirstMatch(s.tlb.entries, va, asid, i)
    decreases TLB_SIZE - i
  {
    if i < TLB_SIZE { SameMatch(s, va, asid, i + 1); }
  }

  /** On a page that is not stale the stale entries are not noticed. */
  lemma SameTranslation(s: System, sv32: bool, asid: nat, q: Request)
    requires Shaped(s.tlb) && (asid, q.va / 0x1000) !in s.stale
    ensures Lookup(s.tlb, q.va, asid, q.access) == Lookup(Trusted(s), q.va, asid, q.access)
    ensures Translate(s.tlb, s.mem, sv32, s.roots(asid), asid, q).out ==
            Translate(Trusted(s), s.mem, sv32, s.roots(asid), asid, q).out
  {
    SameMatch(s, q.va, asid, 0);
  }

  lemma InsertStaysCoherent(s: System, asid: nat, q: Request)
    requires CoherentButStale(s) && !q.privilege.Machine? && Walk(s.mem, s.roots(asid), q).out.Some?
    ensures var fill := Walk(s.mem, s.roots(asid), q).out.value;
      CoherentButStale(s.(tlb := Insert(s.tlb, q.va, fill.paddr, asid, fill.rwxu)))
  {
    FillIsMapping(s.mem, s.roots(asid), q);
    var fill := Walk(s.mem, s.roots(asid), q).out.value;
    var t := Insert(s.tlb, q.va, fill.paddr, asid, fill.rwxu);
    forall i | 0 <= i < TLB_SIZE && t.entries[i].valid && IdOf(t.entries[i]) !in s.stale
      ensures MappingOf(s.mem, s.roots, IdOf(t.entries[i])) == Some((t.entries[i].ppn, t.entries[i].rwxu))
    {
      if i != s.tlb.nextInsert { assert t.entries[i] == s.tlb.entries[i]; }
    }
  }

  /** Accessed and Dirty bits make no page stale. */
  lemma ADStaysCoherent(s: System, m: Mem)
    requires CoherentButStale(s) && SameButAD(s.mem, m)
    ensures CoherentButStale(s.(mem := m))
  {
    forall p: PageId
      ensures MappingOf(m, s.roots, p) == MappingOf(s.mem, s.roots, p)
    {
      if p.1 < 0x10_0000 { SameMapping(s.mem, m, s.roots(p.0), p.1 * 0x1000); }
    }
  }

  lemma UseStaysCoherent(s: System, sv32: bool, asid: nat, q: Request)
    requires CoherentButStale(s)
    ensures CoherentButStale(Do(s, Use(sv32, asid, q)))
  {
    var w := Walk(s.mem, s.roots(asid), q);
    WalkIsAD(s.mem, s.roots(asid), q);
    ADStaysCoherent(s, w.mem);
    if w.out.Some? && !q.privilege.Machine? {
      InsertStaysCoherent(s, asid, q);
      ADStaysCoherent(s.(tlb := Insert(s.tlb, q.va, w.out.value.paddr, asid, w.out.value.rwxu)), w.mem);
    }
  }

  /** A fence removes the entries of the pages it covers, so nothing about them is stale any more. */
  lemma FenceStaysCoherent(s: System, scope: Scope)
    requires CoherentButStale(s)
    ensures CoherentButStale(Do(s, Sfence(scope)))
  {
    var t := Flush(s.tlb, scope);
    forall i | 0 <= i < TLB_SIZE && t.entries[i].valid
      ensures t.entries[i] == s.tlb.entries[i] && !Covers(scope, IdOf(t.entries[i]))
    {
    }
  }

  lemma RewriteStaysCoherent(s: System, m: Mem, roots: nat -> u32)
    requires CoherentButStale(s)
    ensures CoherentButStale(Do(s, Rewrite(m, roots)))
  {
  }

  lemma {:induction false} RunStaysCoherent(s: System, actions: seq<Action>)
    requires CoherentButStale(s)
    ensures CoherentButStale(DoAll(s, actions))
    decreases |actions|
  {
    if actions != [] {
      match actions[0] {
        case Use(sv32, asid, q) => UseStaysCoherent(s, sv32, asid, q);
        case Sfence(scope) => FenceStaysCoherent(s, scope);
        case Rewrite(m, roots) => RewriteStaysCoherent(s, m, roots);
      }
      RunStaysCoherent(Do(s, actions[0]), actions[1..]);
    }
  }

  /** Main result: after any run of translations, table rewrites and fences from an empty TLB, a
      translation gives what a walk of the tables as they are now would give, on every page that no
      rewrite has changed since a fence covered it, with the one exception of execute-only pages. */
  lemma FencedTranslationIsWalk(m0: Mem, roots0: nat -> u32, actions: seq<Action>, sv32: bool, asid: nat, q: Request,
                                s: System)
    requires s == DoAll(System(NewTlb(), m0, roots0, iset{}), actions) && (asid, q.va / 0x1000) !in s.stale
    ensures var hit := Lookup(s.tlb, q.va, asid, q.access);
      Translate(s.tlb, s.mem, sv32, s.roots(asid), asid, q).out == Reference(s.mem, sv32, s.roots(asid), q) <==>
        !(sv32 && hit.Some? && UserLoadOfExecuteOnly(q, hit.value.rwxu))
  {
    RunStaysCoherent(System(NewTlb(), m0, roots0, iset{}), actions);
    TrustedIsCoherent(s);
    SameTranslation(s, sv32, asid, q);
    TranslateIsWalk(State(Trusted(s), s.mem), s.roots, sv32, asid, q);
  }

  /** A fence that covers every page changed since the last one leaves nothing stale. */
  lemma FenceSettles(s: System, scope: Scope)
    requires CoherentButStale(s) && forall p :: p in s.stale ==> Covers(scope, p)
    ensures var s' := Do(s, Sfence(scope)); s'.stale == iset{} && Coherent(s'.tlb, s'.mem, s'.roots)
  {
    FenceStaysCoherent(s, scope);
    var s' := Do(s, Sfence(scope));
    forall i | 0 <= i < TLB_SIZE && s'.tlb.entries[i].valid
      ensures IdOf(s'.tlb.entries[i]) !in s'.stale
    {
    }
  }
}
