/** The translation lookaside buffer in front of the page walk, and what it may be trusted with.

    Replacement is round robin, so one page can sit in several entries; lookup takes the first. */
module TlbSpec {
  import opened Memory
  import opened Sv32
  import B = Bits

  const TLB_SIZE: nat := 32

  datatype Entry = Entry(valid: bool, asid: nat, vpn: nat, ppn: nat, rwxu: nat)

  const NO_ENTRY := Entry(false, 0, 0, 0, 0)

  datatype Hit = Hit(paddr: u32, rwxu: nat)

  datatype Tlb = Tlb(entries: seq<Entry>, nextInsert: nat)

  predicate Shaped(t: Tlb) {
    |t.entries| == TLB_SIZE && t.nextInsert < TLB_SIZE &&
    forall i :: 0 <= i < TLB_SIZE ==> t.entries[i].vpn < 0x10_0000 && t.entries[i].ppn < 0x10_0000
  }

  /** What a cached entry lets through; loads pass on R or X, the caller looks at MXR. */
  predicate CheckPermission(rwxu: nat, access: Access) {
    match access
    case Fetch => X4(rwxu)
    case Load => R4(rwxu) || X4(rwxu)
    case Store => W4(rwxu)
  }

  predicate Matches(e: Entry, va: u32, asid: nat) {
    e.valid && e.asid == asid && e.vpn == va / 0x1000
  }

  function FirstMatch(entries: seq<Entry>, va: u32, asid: nat, i: nat): (r: Option<nat>)
    requires i <= |entries|
    ensures r.Some? ==> i <= r.value < |entries| && Matches(entries[r.value], va, asid)
    ensures r.None? ==> forall j :: i <= j < |entries| ==> !Matches(entries[j], va, asid)
    decreases |entries| - i
  {
    if i == |entries| then None
    else if Matches(entries[i], va, asid) then Some(i)
    else FirstMatch(entries, va, asid, i + 1)
  }

  function Lookup(t: Tlb, va: u32, asid: nat, access: Access): (r: Option<Hit>)
    requires Shaped(t)
  {
    match FirstMatch(t.entries, va, asid, 0)
    case None => None
    case Some(i) =>
      var e := t.entries[i];
      if !CheckPermission(e.rwxu, access) then None
      else Some(Hit(e.ppn * 0x1000 + va % 0x1000, e.rwxu))
  }

  function Insert(t: Tlb, va: u32, paddr: u32, asid: nat, rwxu: nat): (r: Tlb)
    requires Shaped(t)
    ensures Shaped(r)
  {
    Tlb(t.entries[t.nextInsert := Entry(true, asid, va / 0x1000, paddr / 0x1000, rwxu)],
        (t.nextInsert + 1) % TLB_SIZE)
  }

  datatype Scope = All | Asid(asid: nat) | Page(va: u32, pageAsid: nat)

  predicate InScope(e: Entry, scope: Scope) {
    match scope
    case All => true
    case Asid(asid) => e.valid && e.asid == asid
    case Page(va, asid) => Matches(e, va, asid)
  }

  function Flush(t: Tlb, scope: Scope): (r: Tlb)
    requires Shaped(t)
    ensures Shaped(r)
  {
    t.(entries := seq(TLB_SIZE, i requires 0 <= i < TLB_SIZE =>
      if InScope(t.entries[i], scope) then NO_ENTRY else t.entries[i]))
  }

  // ---- Translation through the TLB ----

  /** The pipeline's own check on a hit: user mode looks at U only. */
  predicate CheckHit(rwxu: nat, q: Request) {
    match q.privilege
    case User => U4(rwxu)
    case Supervisor =>
      !(U4(rwxu) && q.access.Fetch?) &&
      !(U4(rwxu) && !q.sum && !q.access.Fetch?) &&
      (q.access.Load? ==> R4(rwxu) || (q.mxr && X4(rwxu)))
    case Machine => true
  }

  datatype Translated = Translated(out: Option<u32>, tlb: Tlb, mem: Mem)

  function Translate(t: Tlb, m: Mem, sv32: bool, root: u32, asid: nat, q: Request): (r: Translated)
    requires Shaped(t)
    ensures Shaped(r.tlb)
  {
    if q.privilege.Machine? || !sv32 then Translated(Some(q.va), t, m)
    else match Lookup(t, q.va, asid, q.access)
      case Some(hit) => Translated(if CheckHit(hit.rwxu, q) then Some(hit.paddr) else None, t, m)
      case None =>
        var w := Walk(m, root, q);
        match w.out
        case None => Translated(None, t, w.mem)
        case Some(fill) => Translated(Some(fill.paddr), Insert(t, q.va, fill.paddr, asid, fill.rwxu), w.mem)
  }

  /** The translation without a TLB. */
  function Reference(m: Mem, sv32: bool, root: u32, q: Request): Option<u32> {
    if q.privilege.Machine? || !sv32 then Some(q.va)
    else match Walk(m, root, q).out
      case None => None
      case Some(fill) => Some(fill.paddr)
  }

  // ---- Coherence ----

  /** The page and permissions a walk finds for a virtual page, whoever asks. */
  function Mapping(m: Mem, root: u32, va: u32): (r: Option<(nat, nat)>)
    ensures r.Some? ==> r.value.0 < 0x10_0000 && r.value.1 < 16
  {
    match FindLeaf(m, root, va, 1)
    case None => None
    case Some(leaf) => LeafMapping(leaf, va)
  }

  function LeafMapping(leaf: Leaf, va: u32): (r: Option<(nat, nat)>)
    ensures r.Some? ==> r.value.0 < 0x10_0000 && r.value.1 < 16
  {
    match PageOf(leaf, va)
    case None => None
    case Some(page) => Some((page, Rwxu(leaf.pte)))
  }

  /** Every valid entry, first match or not, says what a fresh walk would say. */
  ghost predicate Coherent(t: Tlb, m: Mem, roots: nat -> u32) {
    Shaped(t) &&
    forall i :: 0 <= i < TLB_SIZE && t.entries[i].valid ==>
      Mapping(m, roots(t.entries[i].asid), t.entries[i].vpn * 0x1000) == Some((t.entries[i].ppn, t.entries[i].rwxu))
  }

  /** All addresses of one 4 KiB page share their mapping, also inside a superpage. */
  lemma MappingOfPage(m: Mem, root: u32, va: u32)
    ensures Mapping(m, root, va / 0x1000 * 0x1000) == Mapping(m, root, va)
  {
    SameVpns(va);
    FindsByVpn(m, root, va / 0x1000 * 0x1000, va, 1);
  }

  lemma SameVpns(va: u32)
    ensures Vpn(va / 0x1000 * 0x1000, 0) == Vpn(va, 0) && Vpn(va / 0x1000 * 0x1000, 1) == Vpn(va, 1)
  {
    var base := va / 0x1000 * 0x1000;
    SumDiv(va / 0x1000, 0x1000, 0);
    B.DivDiv(va, 0x1000, 0x400);
    B.DivDiv(base, 0x1000, 0x400);
  }

  lemma {:induction false} FindsByVpn(m: Mem, table: u32, va: u32, va': u32, level: nat)
    requires Vpn(va, 0) == Vpn(va', 0) && Vpn(va, 1) == Vpn(va', 1) && level <= 1
    ensures FindLeaf(m, table, va, level) == FindLeaf(m, table, va', level)
    decreases level
  {
    assert PteAddr(table, va, level) == PteAddr(table, va', level);
    var p := ReadPte(m, PteAddr(table, va, level));
    if p.Some? && level > 0 { FindsByVpn(m, NextTable(p.value), va, va', level - 1); }
  }

  /** The walk's answer, from the mapping and the permission bits alone. */
  lemma WalkFromMapping(m: Mem, root: u32, q: Request)
    requires !q.privilege.Machine?
    ensures Answer(Walk(m, root, q)) ==
      match Mapping(m, root, q.va)
      case None => None
      case Some((page, rwxu)) => if Permits(rwxu, q) then Some((page * 0x1000 + q.va % 0x1000, rwxu)) else None
  {
  }

  /** The leaf permission check, on packed bits. */
  predicate Permits(rwxu: nat, q: Request) {
    (q.privilege.User? ==> U4(rwxu)) &&
    (q.privilege.Supervisor? && U4(rwxu) ==> q.sum && !q.access.Fetch?) &&
    match q.access
    case Fetch => X4(rwxu)
    case Load => R4(rwxu) || (q.mxr && X4(rwxu))
    case Store => W4(rwxu)
  }

  lemma SameMapping(m: Mem, m': Mem, root: u32, va: u32)
    requires SameButAD(m, m')
    ensures Mapping(m, root, va) == Mapping(m', root, va)
  {
    FindsSameLeaf(m, m', root, va, 1);
    var l, l' := FindLeaf(m, root, va, 1), FindLeaf(m', root, va, 1);
    if l.Some? { SameLeafMapping(l.value, l'.value, va); }
  }

  lemma SameLeafMapping(l: Leaf, l': Leaf, va: u32)
    requires l' == l.(pte := l'.pte) && SamePte(l.pte, l'.pte)
    ensures LeafMapping(l, va) == LeafMapping(l', va)
  {
    SamePteReads(l.pte, l'.pte);
  }

  lemma CoherentAcrossAD(t: Tlb, m: Mem, m': Mem, roots: nat -> u32)
    requires Coherent(t, m, roots) && SameButAD(m, m')
    ensures Coherent(t, m', roots)
  {
    forall i | 0 <= i < TLB_SIZE && t.entries[i].valid
      ensures Mapping(m', roots(t.entries[i].asid), t.entries[i].vpn * 0x1000) ==
        Some((t.entries[i].ppn, t.entries[i].rwxu))
    {
      SameMapping(m, m', roots(t.entries[i].asid), t.entries[i].vpn * 0x1000);
    }
  }

  /** What a hit says: frame, offset and permission bits of a fresh walk.  A permission miss means
      the walk itself would fault. */
  lemma LookupIsRight(t: Tlb, m: Mem, roots: nat -> u32, asid: nat, q: Request)
    requires Coherent(t, m, roots) && !q.privilege.Machine?
    ensures match Lookup(t, q.va, asid, q.access)
      case Some(hit) =>
        var map_ := Mapping(m, roots(asid), q.va);
        map_.Some? && hit.rwxu == map_.value.1 && hit.paddr == map_.value.0 * 0x1000 + q.va % 0x1000
      case None =>
        FirstMatch(t.entries, q.va, asid, 0).Some? ==> Walk(m, roots(asid), q).out.None?
  {
    var i := FirstMatch(t.entries, q.va, asid, 0);
    if i.Some? {
      MappingOfPage(m, roots(asid), q.va);
      WalkFromMapping(m, roots(asid), q);
    }
  }

  /** The fill a walk hands over, cut to a page number, is the mapping of its page. */
  lemma FillIsMapping(m: Mem, root: u32, q: Request)
    requires !q.privilege.Machine? && Walk(m, root, q).out.Some?
    ensures var fill := Walk(m, root, q).out.value;
      Mapping(m, root, q.va / 0x1000 * 0x1000) == Some((fill.paddr / 0x1000, fill.rwxu))
  {
    WalkFromMapping(m, root, q);
    MappingOfPage(m, root, q.va);
    FrameOf(Mapping(m, root, q.va).value.0, q.va % 0x1000);
  }

  lemma FrameOf(page: nat, offset: nat)
    requires offset < 0x1000
    ensures (page * 0x1000 + offset) / 0x1000 == page
  {
    SumDiv(page, 0x1000, offset);
  }

  lemma InsertKeepsCoherence(t: Tlb, m: Mem, roots: nat -> u32, asid: nat, q: Request)
    requires Coherent(t, m, roots) && !q.privilege.Machine? && Walk(m, roots(asid), q).out.Some?
    ensures var fill := Walk(m, roots(asid), q).out.value;
      Coherent(Insert(t, q.va, fill.paddr, asid, fill.rwxu), m, roots)
  {
    FillIsMapping(m, roots(asid), q);
    var fill := Walk(m, roots(asid), q).out.value;
    var t' := Insert(t, q.va, fill.paddr, asid, fill.rwxu);
    forall i | 0 <= i < TLB_SIZE && t'.entries[i].valid
      ensures Mapping(m, roots(t'.entries[i].asid), t'.entries[i].vpn * 0x1000) ==
        Some((t'.entries[i].ppn, t'.entries[i].rwxu))
    {
      if i != t.nextInsert { assert t'.entries[i] == t.entries[i]; }
    }
  }

  // ---- Runs ----

  datatype Event =
    | Access(sv32: bool, asid: nat, q: Request)
    | Fence(scope: Scope)

  datatype State = State(tlb: Tlb, mem: Mem)

  function Step(s: State, roots: nat -> u32, e: Event): (r: (State, Option<u32>))
    requires Shaped(s.tlb)
    ensures Shaped(r.0.tlb)
  {
    match e
    case Access(sv32, asid, q) =>
      var t := Translate(s.tlb, s.mem, sv32, roots(asid), asid, q);
      (State(t.tlb, t.mem), t.out)
    case Fence(scope) => (State(Flush(s.tlb, scope), s.mem), None)
  }

  function After(s: State, roots: nat -> u32, es: seq<Event>): (r: State)
    requires Shaped(s.tlb)
    ensures Shaped(r.tlb)
    decreases |es|
  {
    if es == [] then s else After(Step(s, roots, es[0]).0, roots, es[1..])
  }

  function NewTlb(): (t: Tlb)
    ensures Shaped(t)
  {
    Tlb(seq(TLB_SIZE, _ => NO_ENTRY), 0)
  }

  lemma StepKeepsCoherence(s: State, m0: Mem, roots: nat -> u32, e: Event)
    requires Coherent(s.tlb, s.mem, roots) && SameButAD(m0, s.mem)
    ensures var s' := Step(s, roots, e).0; Coherent(s'.tlb, s'.mem, roots) && SameButAD(m0, s'.mem)
  {
    match e
    case Access(sv32, asid, q) =>
      WalkIsAD(s.mem, roots(asid), q);
      var m' := Walk(s.mem, roots(asid), q).mem;
      CoherentAcrossAD(s.tlb, s.mem, m', roots);
      if Walk(s.mem, roots(asid), q).out.Some? && !q.privilege.Machine? {
        InsertKeepsCoherence(s.tlb, s.mem, roots, asid, q);
        var fill := Walk(s.mem, roots(asid), q).out.value;
        CoherentAcrossAD(Insert(s.tlb, q.va, fill.paddr, asid, fill.rwxu), s.mem, m', roots);
      }
    case Fence(scope) =>
  }

  lemma {:induction false} RunKeepsCoherence(s: State, m0: Mem, roots: nat -> u32, es: seq<Event>)
    requires Coherent(s.tlb, s.mem, roots) && SameButAD(m0, s.mem)
    ensures var s' := After(s, roots, es); Coherent(s'.tlb, s'.mem, roots) && SameButAD(m0, s'.mem)
    decreases |es|
  {
    if es != [] {
      StepKeepsCoherence(s, m0, roots, es[0]);
      RunKeepsCoherence(Step(s, roots, es[0]).0, m0, roots, es[1..]);
    }
  }

  /** The one kind of access where a hit is more permissive than the walk: a user-mode load, without
      MXR, of a user page that is executable but not readable. */
  predicate UserLoadOfExecuteOnly(q: Request, rwxu: nat) {
    q.privilege.User? && q.access.Load? && !q.mxr && U4(rwxu) && X4(rwxu) && !R4(rwxu)
  }

  /** In a coherent state, translation through the TLB is the bare walk, for every request, except
      exactly when such a page is hit. */
  lemma TranslateIsWalk(s: State, roots: nat -> u32, sv32: bool, asid: nat, q: Request)
    requires Coherent(s.tlb, s.mem, roots)
    ensures var hit := Lookup(s.tlb, q.va, asid, q.access);
      Translate(s.tlb, s.mem, sv32, roots(asid), asid, q).out == Reference(s.mem, sv32, roots(asid), q) <==>
        !(sv32 && hit.Some? && UserLoadOfExecuteOnly(q, hit.value.rwxu))
  {
    if !q.privilege.Machine? && sv32 {
      LookupIsRight(s.tlb, s.mem, roots, asid, q);
      WalkFromMapping(s.mem, roots(asid), q);
    }
  }

  /** Main result: after any run of translations and fences from an empty TLB, over any tables, any
      address spaces and any mix of requests, a translation through the TLB gives what a walk of
      the tables as they were before the run would give, with that one exception. */
  lemma TlbIsTransparent(m0: Mem, roots: nat -> u32, es: seq<Event>, sv32: bool, asid: nat, q: Request)
    ensures var s := After(State(NewTlb(), m0), roots, es);
      var hit := Lookup(s.tlb, q.va, asid, q.access);
      Translate(s.tlb, s.mem, sv32, roots(asid), asid, q).out == Reference(m0, sv32, roots(asid), q) <==>
        !(sv32 && hit.Some? && UserLoadOfExecuteOnly(q, hit.value.rwxu))
  {
    var s := After(State(NewTlb(), m0), roots, es);
    assert SameButAD(m0, m0);
    RunKeepsCoherence(State(NewTlb(), m0), m0, roots, es);
    TranslateIsWalk(s, roots, sv32, asid, q);
    SameAnswer(m0, s.mem, roots(asid), q);
  }

  /** The exception is reachable: fetch from a user page that is executable but not readable, and
      a user load from it goes through, which the walk refuses. */
  lemma ExecuteOnlyPageIsRead(m0: Mem, roots: nat -> u32, asid: nat, va: u32, rwxu: nat, page: nat)
    requires Mapping(m0, roots(asid), va) == Some((page, rwxu)) && U4(rwxu) && X4(rwxu) && !R4(rwxu)
    ensures var fetch := Request(va, Fetch, User, false, false);
      var load := fetch.(access := Load);
      var s := After(State(NewTlb(), m0), roots, [Event.Access(true, asid, fetch)]);
      Translate(s.tlb, s.mem, true, roots(asid), asid, load).out.Some? &&
      Reference(m0, true, roots(asid), load).None?
  {
    var fetch := Request(va, Fetch, User, false, false);
    var load := fetch.(access := Load);
    var s0 := State(NewTlb(), m0);
    var e := Event.Access(true, asid, fetch);
    var s := Step(s0, roots, e).0;
    assert After(s0, roots, [e]) == s by { assert [e][1..] == []; }
    WalkFromMapping(m0, roots(asid), fetch);
    WalkFromMapping(m0, roots(asid), load);
    assert FirstMatch(s0.tlb.entries, va, asid, 0).None?;
    assert Matches(s.tlb.entries[0], va, asid);
    assert FirstMatch(s.tlb.entries, va, asid, 0) == Some(0);
  }
}
