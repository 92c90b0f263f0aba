/** TLB and page walker as the pipeline uses them: entries change in place, the walk is a loop over
    levels that stores Accessed and Dirty bits through the bus. */
module MmuDevice {
  import opened Memory
  import opened SystemBus
  import opened Sv32
  import T = TlbSpec

  class Tlb {
    var entries: seq<T.Entry>
    var nextInsert: nat
    var lookups: nat
    var hits: nat
    var misses: nat
    var flushes: nat

    ghost function Contents(): T.Tlb
      reads this
    {
      T.Tlb(entries, nextInsert)
    }

    ghost predicate Valid()
      reads this
    {
      T.Shaped(Contents()) && hits + misses == lookups
    }

    constructor ()
      ensures Valid() && Contents() == T.NewTlb() && lookups == flushes == 0
    {
      entries := T.NewTlb().entries;
      nextInsert, lookups, hits, misses, flushes := 0, 0, 0, 0, 0;
    }

    method Lookup(va: u32, asid: nat, access: Access) returns (r: Option<T.Hit>)
      requires Valid()
      modifies this`lookups, this`hits, this`misses
      ensures Valid() && r == T.Lookup(Contents(), va, asid, access)
      ensures lookups == old(lookups) + 1 && hits == old(hits) + (if r.Some? then 1 else 0)
    {
      lookups := lookups + 1;
      var i := 0;
      while i < T.TLB_SIZE
        invariant 0 <= i <= T.TLB_SIZE
        invariant T.FirstMatch(entries, va, asid, 0) == T.FirstMatch(entries, va, asid, i)
      {
        var e := entries[i];
        if e.valid && e.asid == asid && e.vpn == va / 0x1000 {
          if !T.CheckPermission(e.rwxu, access) {
            misses := misses + 1;
            return None;
          }
          hits := hits + 1;
          return Some(T.Hit(e.ppn * 0x1000 + va % 0x1000, e.rwxu));
        }
        i := i + 1;
      }
      misses := misses + 1;
      return None;
    }

    method Insert(va: u32, paddr: u32, asid: nat, rwxu: nat)
      requires Valid()
      modifies this`entries, this`nextInsert
      ensures Valid() && Contents() == T.Insert(old(Contents()), va, paddr, asid, rwxu)
    {
      var index := nextInsert;
      nextInsert := (nextInsert + 1) % T.TLB_SIZE;
      entries := entries[index := T.Entry(true, asid, va / 0x1000, paddr / 0x1000, rwxu)];
    }

    method Flush(scope: T.Scope)
      requires Valid()
      modifies this`entries, this`flushes
      ensures Valid() && Contents() == T.Flush(old(Contents()), scope) && flushes == old(flushes) + 1
    {
      ghost var before := entries;
      var i := 0;
      while i < T.TLB_SIZE
        invariant 0 <= i <= T.TLB_SIZE && |entries| == T.TLB_SIZE && flushes == old(flushes)
        invariant forall j :: 0 <= j < i ==> entries[j] == if T.InScope(before[j], scope) then T.NO_ENTRY else before[j]
        invariant forall j :: i <= j < T.TLB_SIZE ==> entries[j] == before[j]
      {
        if T.InScope(entries[i], scope) { entries := entries[i := T.NO_ENTRY]; }
        i := i + 1;
      }
      flushes := flushes + 1;
      assert entries == T.Flush(old(Contents()), scope).entries;
    }

    method Reset()
      requires Valid()
      modifies this
      ensures Valid() && Contents() == T.NewTlb() && lookups == flushes == 0
    {
      entries := T.NewTlb().entries;
      nextInsert, lookups, hits, misses, flushes := 0, 0, 0, 0, 0;
    }
  }

  /** The walk: from the root table down, one page-table entry per level. */
  method TranslateSv32(bus: Bus, root: u32, q: Request) returns (r: Option<TlbFill>)
    modifies bus
    ensures Walk(old(bus.mem), root, q) == Walked(r, bus.mem)
  {
    var table: u32 := root;
    var level := 1;
    while true
      invariant 0 <= level <= 1 && bus.mem == old(bus.mem)
      invariant FindLeaf(bus.mem, root, q.va, 1) == FindLeaf(bus.mem, table, q.va, level)
      decreases level
    {
      var addr := (table + Vpn(q.va, level) * 4) % 0x1_0000_0000;
      var pte := bus.ReadWord(addr);
      if pte.None? || !IsPteValid(pte.value) { return None; }
      if IsLeaf(pte.value) {
        r := UseLeaf(bus, Leaf(level, addr, pte.value), q);
        return;
      }
      if level == 0 { return None; }
      table := NextTable(pte.value);
      level := level - 1;
    }
  }

  /** Check the leaf, store its Accessed and Dirty bits (a refused store is ignored), and answer. */
  method UseLeaf(bus: Bus, leaf: Leaf, q: Request) returns (r: Option<TlbFill>)
    requires ReadPte(bus.mem, leaf.addr) == Some(leaf.pte)
    modifies bus
    ensures WalkLeaf(old(bus.mem), leaf, q) == Walked(r, bus.mem)
  {
    if !CheckLeafPermission(leaf.pte, q) { return None; }
    var page := PageOf(leaf, q.va);
    if page.None? { return None; }
    var updated := leaf.pte;
    if !A(leaf.pte) { updated := updated + 64; }
    var dirty := q.access.Store? && !D(leaf.pte);
    if dirty { updated := updated + 128; }
    assert updated == UpdatedPte(leaf.pte, q.access);
    if updated != leaf.pte {
      UpdatedFits(bus.mem, leaf, q.access);
      var _ := bus.WriteWord(leaf.addr, updated);
    }
    return Some(TlbFill(page.value * 0x1000 + q.va % 0x1000, Rwxu(leaf.pte), !A(leaf.pte), dirty));
  }

  lemma UpdatedFits(m: Mem, leaf: Leaf, access: Access)
    requires ReadPte(m, leaf.addr) == Some(leaf.pte)
    ensures UpdatedPte(leaf.pte, access) < 0x1_0000_0000
  {
    WordParts(m, leaf.addr);
    UpdatedLowByte(leaf.pte, access);
  }

  /** Translation in the pipeline: bare mode and machine mode bypass everything, a hit is checked
      against the current privilege, a miss walks and fills. */
  method TranslateWithTlb(tlb: Tlb, bus: Bus, sv32: bool, root: u32, asid: nat, q: Request) returns (r: Option<u32>)
    requires tlb.Valid()
    modifies tlb, bus
    ensures tlb.Valid()
    ensures T.Translate(old(tlb.Contents()), old(bus.mem), sv32, root, asid, q) ==
      T.Translated(r, tlb.Contents(), bus.mem)
  {
    if q.privilege.Machine? || !sv32 { return Some(q.va); }
    var hit := tlb.Lookup(q.va, asid, q.access);
    if hit.Some? {
      if !T.CheckHit(hit.value.rwxu, q) { return None; }
      return Some(hit.value.paddr);
    }
    var fill := TranslateSv32(bus, root, q);
    if fill.None? { return None; }
    tlb.Insert(q.va, fill.value.paddr, asid, fill.value.rwxu);
    return Some(fill.value.paddr);
  }
}
