/** The Sv32 page walk: sections 4.3.1 and 4.3.2 of the RISC-V Privileged Architecture, version
    1.12, as the simulator implements them, with physical addresses cut to 32 bits.

    The walk sets the Accessed and Dirty bits of the leaf entry it uses.  Page tables may be shared
    or recursive, so that store can hit any entry of any later walk. */
module Sv32 {
  import opened Memory
  import B = Bits

  datatype Access = Fetch | Load | Store
  datatype Privilege = User | Supervisor | Machine

  /** Who accesses what, and how. */
  datatype Request = Request(va: u32, access: Access, privilege: Privilege, sum: bool, mxr: bool)

  // ---- Page-table entries ----

  predicate V(pte: nat) { pte % 2 == 1 }
  predicate R(pte: nat) { pte / 2 % 2 == 1 }
  predicate W(pte: nat) { pte / 4 % 2 == 1 }
  predicate X(pte: nat) { pte / 8 % 2 == 1 }
  predicate U(pte: nat) { pte / 16 % 2 == 1 }
  predicate A(pte: nat) { pte / 64 % 2 == 1 }
  predicate D(pte: nat) { pte / 128 % 2 == 1 }

  predicate IsLeaf(pte: nat) { R(pte) || X(pte) }
  predicate IsPteValid(pte: nat) { V(pte) && !(W(pte) && !R(pte)) }

  function Ppn(pte: nat): nat { pte / 1024 % 0x40_0000 }

  /** Permission bits as the TLB packs them: R, W, X, U from bit 0 up. */
  function Rwxu(pte: nat): (p: nat)
    ensures p < 16 && (R4(p) <==> R(pte)) && (W4(p) <==> W(pte)) && (X4(p) <==> X(pte)) && (U4(p) <==> U(pte))
  {
    (if R(pte) then 1 else 0) + (if W(pte) then 2 else 0) + (if X(pte) then 4 else 0) + (if U(pte) then 8 else 0)
  }

  predicate R4(p: nat) { p % 2 == 1 }
  predicate W4(p: nat) { p / 2 % 2 == 1 }
  predicate X4(p: nat) { p / 4 % 2 == 1 }
  predicate U4(p: nat) { p / 8 % 2 == 1 }

  // ---- Finding the leaf ----

  datatype Leaf = Leaf(level: nat, addr: u32, pte: nat)

  function Vpn(va: u32, level: nat): nat
    requires level <= 1
  {
    if level == 0 then va / 0x1000 % 0x400 else va / 0x40_0000
  }

  function ReadPte(m: Mem, addr: u32): Option<nat> {
    if addr % 4 == 0 then ReadLE(m, addr, 4) else None
  }

  function PteAddr(table: u32, va: u32, level: nat): u32
    requires level <= 1
  {
    (table + Vpn(va, level) * 4) % 0x1_0000_0000
  }

  function NextTable(pte: nat): u32 { Ppn(pte) * 0x1000 % 0x1_0000_0000 }

  /** Steps 2 to 4 of the walk: follow pointers from `table` down, level by level.  Nothing here
      depends on who asks or on the Accessed and Dirty bits. */
  function FindLeaf(m: Mem, table: u32, va: u32, level: nat): (r: Option<Leaf>)
    requires level <= 1
    ensures r.Some? ==> r.value.level <= level && ReadPte(m, r.value.addr) == Some(r.value.pte) && IsLeaf(r.value.pte)
    decreases m, level
  {
    var addr := PteAddr(table, va, level);
    match ReadPte(m, addr)
    case None => None
    case Some(pte) =>
      if !IsPteValid(pte) then None
      else if IsLeaf(pte) then Some(Leaf(level, addr, pte))
      else if level == 0 then None
      else FindLeaf(m, NextTable(pte), va, level - 1)
  }

  /** The 20-bit physical page a leaf gives a virtual page; none for a misaligned superpage. */
  function PageOf(leaf: Leaf, va: u32): (r: Option<nat>)
    ensures r.Some? ==> r.value < 0x10_0000
  {
    var ppn0, ppn1 := Ppn(leaf.pte) % 0x400, Ppn(leaf.pte) / 0x400 % 0x400;
    if leaf.level == 1 then
      if ppn0 != 0 then None else Some(ppn1 * 0x400 + Vpn(va, 0))
    else Some(ppn1 * 0x400 + ppn0)
  }

  function CheckLeafPermission(pte: nat, q: Request): bool {
    if q.privilege.User? && !U(pte) then false
    else if q.privilege.Supervisor? && U(pte) && !q.sum && !q.access.Fetch? then false
    else if q.privilege.Supervisor? && U(pte) && q.access.Fetch? then false
    else match q.access
      case Fetch => X(pte)
      case Load => R(pte) || (q.mxr && X(pte))
      case Store => W(pte)
  }

  // ---- The walk ----

  datatype TlbFill = TlbFill(paddr: u32, rwxu: nat, accessed: bool, dirty: bool)

  datatype Walked = Walked(out: Option<TlbFill>, mem: Mem)

  function UpdatedPte(pte: nat, access: Access): nat {
    pte + (if A(pte) then 0 else 64) + (if access.Store? && !D(pte) then 128 else 0)
  }

  function UpdateAD(m: Mem, leaf: Leaf, access: Access): Mem {
    if UpdatedPte(leaf.pte, access) == leaf.pte then m
    else WriteLE(m, leaf.addr, 4, UpdatedPte(leaf.pte, access)).mem
  }

  function Walk(m: Mem, root: u32, q: Request): Walked {
    match FindLeaf(m, root, q.va, 1)
    case None => Walked(None, m)
    case Some(leaf) => WalkLeaf(m, leaf, q)
  }

  /** Steps 5 to 8: permission, alignment of superpages, Accessed and Dirty, and the address. */
  function WalkLeaf(m: Mem, leaf: Leaf, q: Request): Walked {
    if !CheckLeafPermission(leaf.pte, q) then Walked(None, m)
    else match PageOf(leaf, q.va)
      case None => Walked(None, m)
      case Some(page) =>
        var fill := TlbFill(page * 0x1000 + q.va % 0x1000, Rwxu(leaf.pte),
          !A(leaf.pte), q.access.Store? && !D(leaf.pte));
        Walked(Some(fill), UpdateAD(m, leaf, q.access))
  }

  // ---- Words and bytes ----

  lemma WordBytes(m: Mem, a: int)
    ensures ReadLE(m, a, 4).Some? <==> forall x :: a <= x < a + 4 ==> CanRead(m, x)
    ensures ReadLE(m, a, 4).Some? ==>
      CanRead(m, a) && CanRead(m, a + 1) && CanRead(m, a + 2) && CanRead(m, a + 3) &&
      ReadLE(m, a, 4).value ==
        Word(m.bytes[a], m.bytes[a + 1], m.bytes[a + 2], m.bytes[a + 3])
  {
    ReadBlockSpec(m, a, 4);
    match ReadBlock(m, a, 4)
    case None =>
    case Some(bs) =>
      assert bs[0] == bs[a - a] && bs[1] == bs[(a + 1) - a] && bs[2] == bs[(a + 2) - a] && bs[3] == bs[(a + 3) - a];
      assert CanRead(m, a) && CanRead(m, a + 1) && CanRead(m, a + 2) && CanRead(m, a + 3);
      FromFour(bs);
  }

  function High(b1: nat, b2: nat, b3: nat): nat { b1 + 0x100 * (b2 + 0x100 * b3) }

  function Word(b0: nat, b1: nat, b2: nat, b3: nat): nat { b0 + 0x100 * High(b1, b2, b3) }

  lemma FromFour(bs: seq<byte>)
    requires |bs| == 4
    ensures FromLE(bs) == Word(bs[0], bs[1], bs[2], bs[3])
  {
    var b1, b2, b3 := bs[1..], bs[1..][1..], bs[1..][1..][1..];
    assert FromLE(b3[1..]) == 0;
    assert FromLE(b3) == bs[3];
    assert FromLE(b2) == bs[2] + 0x100 * FromLE(b3);
    assert FromLE(b1) == bs[1] + 0x100 * FromLE(b2);
  }

  // ---- Memories that differ in Accessed and Dirty bits only ----

  /** Bits 6 and 7 of the low byte of aligned words may differ; nothing else does. */
  ghost predicate SameButAD(m: Mem, m': Mem) {
    SameRegions(m, m') &&
    forall x :: x in m.bytes ==>
      if x % 4 == 0 then m.bytes[x] % 64 == m'.bytes[x] % 64 else m.bytes[x] == m'.bytes[x]
  }

  predicate SamePte(p: nat, p': nat) { p % 64 == p' % 64 && p / 256 == p' / 256 }

  lemma SumDiv(q: nat, c: nat, l: nat)
    requires c > 0
    ensures (q * c + l) / c == q + l / c && (q * c + l) % c == l % c
  {
    B.ModUnique(q * c + l, q + l / c, l % c, c);
  }

  lemma LowBits(p: nat)
    ensures p % 2 == p % 64 % 2 && p / 2 % 2 == p % 64 / 2 % 2 && p / 4 % 2 == p % 64 / 4 % 2
    ensures p / 8 % 2 == p % 64 / 8 % 2 && p / 16 % 2 == p % 64 / 16 % 2
    ensures p / 1024 == p / 256 / 4
  {
    var q, l := p / 64, p % 64;
    SumDiv(32 * q, 2, l);
    SumDiv(16 * q, 4, l);
    SumDiv(16 * q, 2, l / 2);
    SumDiv(8 * q, 8, l);
    SumDiv(8 * q, 2, l / 4);
    SumDiv(4 * q, 16, l);
    SumDiv(4 * q, 2, l / 8);
    SumDiv(2 * q, 2, l / 16);
    B.DivDiv(p, 256, 4);
  }

  lemma SamePteReads(p: nat, p': nat)
    requires SamePte(p, p')
    ensures V(p) == V(p') && R(p) == R(p') && W(p) == W(p') && X(p) == X(p') && U(p) == U(p')
    ensures Ppn(p) == Ppn(p')
  {
    LowBits(p);
    LowBits(p');
  }

  lemma WordLowByte(b0: nat, rest: nat)
    requires b0 < 256
    ensures (b0 + 0x100 * rest) % 64 == b0 % 64 && (b0 + 0x100 * rest) / 256 == rest
    ensures (b0 + 0x100 * rest) % 256 == b0
  {
    SumDiv(4 * rest, 64, b0);
    SumDiv(rest, 256, b0);
  }

  lemma WordParts(m: Mem, a: u32)
    requires ReadPte(m, a).Some?
    ensures CanRead(m, a) && CanRead(m, a + 1) && CanRead(m, a + 2) && CanRead(m, a + 3) && a % 4 == 0
    ensures var p := ReadPte(m, a).value;
      p % 256 == m.bytes[a] && p % 64 == m.bytes[a] % 64 &&
        p / 256 == High(m.bytes[a + 1], m.bytes[a + 2], m.bytes[a + 3])
    ensures ReadPte(m, a).value == Word(m.bytes[a], m.bytes[a + 1], m.bytes[a + 2], m.bytes[a + 3])
  {
    WordBytes(m, a);
    WordLowByte(m.bytes[a], High(m.bytes[a + 1], m.bytes[a + 2], m.bytes[a + 3]));
  }

  lemma ReadsSamePte(m: Mem, m': Mem, a: u32)
    requires SameButAD(m, m')
    ensures ReadPte(m, a).Some? == ReadPte(m', a).Some?
    ensures ReadPte(m, a).Some? ==> SamePte(ReadPte(m, a).value, ReadPte(m', a).value)
  {
    WordBytes(m, a);
    WordBytes(m', a);
    assert forall x :: CanRead(m, x) <==> CanRead(m', x);
    if ReadPte(m, a).Some? {
      WordParts(m, a);
      WordParts(m', a);
    }
  }

  /** Such memories lead every walk to the same leaf. */
  lemma {:induction false} FindsSameLeaf(m: Mem, m': Mem, table: u32, va: u32, level: nat)
    requires SameButAD(m, m') && level <= 1
    ensures var l, l' := FindLeaf(m, table, va, level), FindLeaf(m', table, va, level);
      l.Some? == l'.Some? &&
      (l.Some? ==> l'.value == l.value.(pte := l'.value.pte) && SamePte(l.value.pte, l'.value.pte))
    decreases level
  {
    var addr := PteAddr(table, va, level);
    ReadsSamePte(m, m', addr);
    var p := ReadPte(m, addr);
    if p.Some? {
      SamePteReads(p.value, ReadPte(m', addr).value);
      if level == 1 { FindsSameLeaf(m, m', NextTable(p.value), va, 0); }
    }
  }

  // ---- The store of the Accessed and Dirty bits ----

  lemma BitsOfSum(h: nat, d: nat, a: nat, l: nat)
    requires d < 2 && a < 2 && l < 64
    ensures var p := 256 * h + 128 * d + 64 * a + l;
      p / 256 == h && p / 128 % 2 == d && p / 64 % 2 == a && p % 64 == l && p % 256 == 128 * d + 64 * a + l
  {
    B.ModUnique(256 * h + 128 * d + 64 * a + l, h, 128 * d + 64 * a + l, 256);
    B.ModUnique(256 * h + 128 * d + 64 * a + l, 2 * h + d, 64 * a + l, 128);
    B.ModUnique(256 * h + 128 * d + 64 * a + l, 4 * h + 2 * d + a, l, 64);
    B.ModUnique(2 * h + d, h, d, 2);
    B.ModUnique(4 * h + 2 * d + a, 2 * h + d, a, 2);
  }

  lemma Split(p: nat)
    ensures p == 256 * (p / 256) + 128 * (p / 128 % 2) + 64 * (p / 64 % 2) + p % 64
  {
    B.DivDiv(p, 64, 2);
    B.DivDiv(p, 128, 2);
  }

  lemma UpdatedLowByte(pte: nat, access: Access)
    ensures SamePte(pte, UpdatedPte(pte, access))
    ensures var p := UpdatedPte(pte, access); A(p) && (D(p) <==> D(pte) || access.Store?)
    ensures UpdatedPte(pte, access) == UpdatedPte(pte, access) % 256 + 256 * (pte / 256)
    ensures UpdatedPte(pte, access) % 256 % 64 == pte % 64
  {
    var h, d, l := pte / 256, pte / 128 % 2, pte % 64;
    Split(pte);
    BitsOfSum(h, if access.Store? then 1 else d, 1, l);
    BitsOfSum(0, if access.Store? then 1 else d, 1, l);
  }

  /** Only the low byte of the entry changes, and only if the bus accepts it. */
  lemma UpdateEffect(m: Mem, leaf: Leaf, access: Access)
    requires ReadPte(m, leaf.addr) == Some(leaf.pte)
    ensures var m' := UpdateAD(m, leaf, access);
      SameRegions(m, m') && CanRead(m, leaf.addr) &&
      (forall x :: x in m.bytes && x != leaf.addr ==> m'.bytes[x] == m.bytes[x]) &&
      m'.bytes[leaf.addr] == if CanWrite(m, leaf.addr) then UpdatedPte(leaf.pte, access) % 256 else m.bytes[leaf.addr]
  {
    var p := UpdatedPte(leaf.pte, access);
    WordParts(m, leaf.addr);
    UpdatedLowByte(leaf.pte, access);
    if p != leaf.pte { WordRestored(m, leaf.addr, p); }
  }

  /** Storing a word that differs from the one in memory in its low byte only. */
  lemma WordRestored(m: Mem, a: u32, p: nat)
    requires ReadPte(m, a).Some? && p == p % 256 + 256 * (ReadPte(m, a).value / 256)
    ensures var m' := WriteLE(m, a, 4, p).mem;
      CanRead(m, a) && SameRegions(m, m') &&
      (forall x :: x in m.bytes && x != a ==> m'.bytes[x] == m.bytes[x]) &&
      m'.bytes[a] == if CanWrite(m, a) then p % 256 else m.bytes[a]
  {
    WordParts(m, a);
    FourBytes(p);
    BytesOf(m.bytes[a + 1], m.bytes[a + 2], m.bytes[a + 3], p % 256);
    OneByteStored(m, a, ToLE(p, 4));
  }

  lemma BytesOf(b1: byte, b2: byte, b3: byte, low: nat)
    requires low < 256
    ensures var p := Word(low, b1, b2, b3);
      p / 256 % 256 == b1 && p / 256 / 256 % 256 == b2 && p / 256 / 256 / 256 % 256 == b3
  {
    SumDiv(b1 + 0x100 * (b2 + 0x100 * b3), 256, low);
    SumDiv(b2 + 0x100 * b3, 256, b1);
    SumDiv(b3, 256, b2);
  }

  /** Storing a block whose bytes after the first are already there. */
  lemma OneByteStored(m: Mem, a: int, bs: seq<byte>)
    requires bs != [] && forall x :: a <= x < a + |bs| ==> CanRead(m, x) && (x > a ==> m.bytes[x] == bs[x - a])
    ensures var m' := WriteBlock(m, a, bs).mem;
      CanRead(m, a) && (forall x :: x in m.bytes && x != a ==> m'.bytes[x] == m.bytes[x]) &&
      m'.bytes[a] == if CanWrite(m, a) then bs[0] else m.bytes[a]
  {
    var r := WriteBlock(m, a, bs);
    WriteBlockSpec(m, a, bs);
    assert CanRead(m, a);
    assert r.count == 0 ==> !CanWrite(m, a);
    assert r.count > 0 ==> CanWrite(m, a);
  }

  lemma FourBytes(v: nat)
    ensures ToLE(v, 4) == [v % 256, v / 256 % 256, v / 256 / 256 % 256, v / 256 / 256 / 256 % 256]
  {
    assert ToLE(v / 256 / 256 / 256 / 256, 0) == [];
    assert ToLE(v / 256 / 256 / 256, 1) == [v / 256 / 256 / 256 % 256];
    assert ToLE(v / 256 / 256, 2) == [v / 256 / 256 % 256, v / 256 / 256 / 256 % 256];
    assert ToLE(v / 256, 3) == [v / 256 % 256] + ToLE(v / 256 / 256, 2);
  }

  lemma UpdateIsAD(m: Mem, leaf: Leaf, access: Access)
    requires ReadPte(m, leaf.addr) == Some(leaf.pte)
    ensures SameButAD(m, UpdateAD(m, leaf, access))
  {
    UpdateEffect(m, leaf, access);
    UpdatedLowByte(leaf.pte, access);
    WordParts(m, leaf.addr);
  }

  // ---- Main results ----

  /** What a walk tells its caller apart from whether it was the one to set A or D. */
  function Answer(w: Walked): Option<(u32, nat)> {
    if w.out.None? then None else Some((w.out.value.paddr, w.out.value.rwxu))
  }

  lemma LeafAnswers(m: Mem, m': Mem, l: Leaf, l': Leaf, q: Request)
    requires l' == l.(pte := l'.pte) && SamePte(l.pte, l'.pte)
    ensures Answer(WalkLeaf(m, l, q)) == Answer(WalkLeaf(m', l', q))
  {
    SamePteReads(l.pte, l'.pte);
  }

  lemma SameAnswer(m: Mem, m': Mem, root: u32, q: Request)
    requires SameButAD(m, m')
    ensures Answer(Walk(m, root, q)) == Answer(Walk(m', root, q))
  {
    FindsSameLeaf(m, m', root, q.va, 1);
    var l, l' := FindLeaf(m, root, q.va, 1), FindLeaf(m', root, q.va, 1);
    if l.Some? { LeafAnswers(m, m', l.value, l'.value, q); }
  }

  lemma WalkIsAD(m: Mem, root: u32, q: Request)
    ensures SameButAD(m, Walk(m, root, q).mem)
  {
    var l := FindLeaf(m, root, q.va, 1);
    if l.Some? { UpdateIsAD(m, l.value, q.access); }
  }

  /** The memory a walk leaves behind answers every walk as before: any table root, any address,
      any privilege, whichever entries are shared between levels or address spaces. */
  lemma ADUpdateInvisible(m: Mem, root: u32, q: Request, root': u32, q': Request)
    ensures Answer(Walk(Walk(m, root, q).mem, root', q')) == Answer(Walk(m, root', q'))
  {
    WalkIsAD(m, root, q);
    SameAnswer(m, Walk(m, root, q).mem, root', q');
  }

  /** A second identical walk gives the same answer and leaves memory exactly as it is. */
  lemma WalkIsIdempotent(m: Mem, root: u32, q: Request)
    ensures var w := Walk(m, root, q);
      var again := Walk(w.mem, root, q);
      Answer(again) == Answer(w) && again.mem == w.mem
  {
    var w := Walk(m, root, q);
    ADUpdateInvisible(m, root, q, root, q);
    if w.out.Some? {
      var l := FindLeaf(m, root, q.va, 1).value;
      WalkIsAD(m, root, q);
      FindsSameLeaf(m, w.mem, root, q.va, 1);
      var l' := FindLeaf(w.mem, root, q.va, 1).value;
      LeafAfterUpdate(m, l, q.access);
      RepeatedUpdate(w.mem, m, l, l', q.access);
    }
  }

  /** What the leaf entry holds once its update has been stored. */
  lemma LeafAfterUpdate(m: Mem, leaf: Leaf, access: Access)
    requires ReadPte(m, leaf.addr) == Some(leaf.pte)
    ensures ReadPte(UpdateAD(m, leaf, access), leaf.addr) ==
      Some(if CanWrite(m, leaf.addr) then UpdatedPte(leaf.pte, access) else leaf.pte)
  {
    var m', a := UpdateAD(m, leaf, access), leaf.addr;
    UpdateIsAD(m, leaf, access);
    ReadsSamePte(m, m', a);
    UpdateEffect(m, leaf, access);
    UpdatedLowByte(leaf.pte, access);
    WordParts(m, a);
    WordParts(m', a);
    WordIs(ReadPte(m', a).value);
    WordIs(leaf.pte);
  }

  lemma WordIs(p: nat)
    ensures p == p % 256 + 256 * (p / 256)
  {
  }

  lemma RepeatedUpdate(m': Mem, m: Mem, leaf: Leaf, leaf': Leaf, access: Access)
    requires ReadPte(m, leaf.addr) == Some(leaf.pte) && m' == UpdateAD(m, leaf, access)
    requires leaf'.addr == leaf.addr && ReadPte(m', leaf.addr) == Some(leaf'.pte)
    ensures UpdateAD(m', leaf', access) == m'
  {
    LeafAfterUpdate(m, leaf, access);
    UpdatedLowByte(leaf.pte, access);
    if !CanWrite(m, leaf.addr) {
      UpdateEffect(m, leaf, access);
      assert !CanWrite(m', leaf.addr);
      UpdateEffect(m', leaf', access);
      var m'' := UpdateAD(m', leaf', access);
      assert m''.bytes == m'.bytes;
    }
  }

  /** A successful walk through a writable table leaves A set, and D after a store, in the entry it
      used; every other bit of memory is untouched. */
  lemma WalkSetsAD(m: Mem, root: u32, q: Request)
    requires Walk(m, root, q).out.Some?
    ensures var l, m' := FindLeaf(m, root, q.va, 1), Walk(m, root, q).mem;
      l.Some? &&
      (forall x :: x in m.bytes && x != l.value.addr ==> m'.bytes[x] == m.bytes[x]) &&
      (CanWrite(m, l.value.addr) ==>
        ReadPte(m', l.value.addr).Some? &&
        var p := ReadPte(m', l.value.addr).value;
        A(p) && (D(p) <==> D(l.value.pte) || q.access.Store?) && SamePte(p, l.value.pte))
  {
    var l := FindLeaf(m, root, q.va, 1).value;
    UpdateEffect(m, l, q.access);
    LeafAfterUpdate(m, l, q.access);
    UpdatedLowByte(l.pte, q.access);
  }

  // ---- The walk without its loop ----

  /** Section 4.3.1: the access right, and who may use the page.  A supervisor never fetches from a user
      page, and loads and stores there only under SUM; MXR makes executable pages readable. */
  predicate Permitted(pte: nat, q: Request) {
    (match q.access
     case Fetch => X(pte)
     case Load => R(pte) || (X(pte) && q.mxr)
     case Store => W(pte)) &&
    (match q.privilege
     case User => U(pte)
     case Supervisor => !U(pte) || (q.sum && !q.access.Fetch?)
     case Machine => true)
  }

  predicate ValidLeaf(pte: Option<nat>) { pte.Some? && IsPteValid(pte.value) && IsLeaf(pte.value) }

  predicate ValidPointer(pte: Option<nat>) { pte.Some? && IsPteValid(pte.value) && !IsLeaf(pte.value) }

  predicate AnswersByTables(out: Option<TlbFill>, q: Request, p1: Option<nat>, p0: Option<nat>) {
    (out.Some? <==>
      (ValidLeaf(p1) && Ppn(p1.value) % 0x400 == 0 && Permitted(p1.value, q)) ||
        (ValidLeaf(p0) && Permitted(p0.value, q))) &&
    (out.Some? ==>
      if ValidLeaf(p1) then
        out.value.paddr == (Ppn(p1.value) * 0x1000 + q.va % 0x40_0000) % 0x1_0000_0000 &&
        out.value.rwxu == Rwxu(p1.value)
      else
        ValidLeaf(p0) && out.value.paddr == (Ppn(p0.value) * 0x1000 + q.va % 0x1000) % 0x1_0000_0000 &&
        out.value.rwxu == Rwxu(p0.value))
  }

  /** Section 4.3.2 without the loop: a translation is a permitted leaf in the root table whose low ten
      frame bits are zero, or a permitted leaf one table further down; it delivers frame and offset of a
      4 MiB or of a 4 KiB page, cut to 32 bits. */
  lemma WalkByTables(m: Mem, root: u32, q: Request, p1: Option<nat>, p0: Option<nat>)
    requires p1 == ReadPte(m, (root + q.va / 0x40_0000 * 4) % 0x1_0000_0000)
    requires p0 == if !ValidPointer(p1) then None
                   else ReadPte(m, (Ppn(p1.value) * 0x1000 + q.va / 0x1000 % 0x400 * 4) % 0x1_0000_0000)
    ensures AnswersByTables(Walk(m, root, q).out, q, p1, p0)
  {
    assert PteAddr(root, q.va, 1) == (root + q.va / 0x40_0000 * 4) % 0x1_0000_0000;
    if ValidPointer(p1) { SecondEntry(p1.value, q.va); }
    var l := LeafOfTables(m, root, q.va, p1, p0);
    if l.Some? { LeafByTable(m, l.value, q); }
  }

  lemma SecondEntry(p1: nat, va: u32)
    ensures PteAddr(NextTable(p1), va, 0) == (Ppn(p1) * 0x1000 + va / 0x1000 % 0x400 * 4) % 0x1_0000_0000
  {
    B.WrapTwice(Ppn(p1) * 0x1000, Vpn(va, 0) * 4, 0x1_0000_0000);
  }

  /** Which leaf the walk ends at, read off the two entries on its way. */
  lemma LeafOfTables(m: Mem, root: u32, va: u32, p1: Option<nat>, p0: Option<nat>) returns (l: Option<Leaf>)
    requires p1 == ReadPte(m, PteAddr(root, va, 1))
    requires p0 == if ValidPointer(p1) then ReadPte(m, PteAddr(NextTable(p1.value), va, 0)) else None
    ensures l == FindLeaf(m, root, va, 1) && (l.Some? <==> ValidLeaf(p1) || ValidLeaf(p0))
    ensures l.Some? && !ValidLeaf(p1) ==> ValidPointer(p1)
    ensures l.Some? ==>
      if ValidLeaf(p1) then l == Some(Leaf(1, PteAddr(root, va, 1), p1.value))
      else l == Some(Leaf(0, PteAddr(NextTable(p1.value), va, 0), p0.value))
  {
    l := FindLeaf(m, root, va, 1);
    if ValidPointer(p1) {
      assert l == FindLeaf(m, NextTable(p1.value), va, 0);
      LeafInTable(m, NextTable(p1.value), va, p0);
    }
  }

  lemma LeafInTable(m: Mem, table: u32, va: u32, p0: Option<nat>)
    requires p0 == ReadPte(m, PteAddr(table, va, 0))
    ensures var l := FindLeaf(m, table, va, 0);
      (l.Some? <==> ValidLeaf(p0)) && (l.Some? ==> l == Some(Leaf(0, PteAddr(table, va, 0), p0.value)))
  {
  }

  lemma LeafByTable(m: Mem, leaf: Leaf, q: Request)
    requires leaf.level <= 1
    ensures var out := WalkLeaf(m, leaf, q).out;
      (out.Some? <==> Permitted(leaf.pte, q) && (leaf.level == 1 ==> Ppn(leaf.pte) % 0x400 == 0)) &&
      (out.Some? ==>
        out.value.rwxu == Rwxu(leaf.pte) &&
        out.value.paddr ==
          (Ppn(leaf.pte) * 0x1000 + q.va % (if leaf.level == 1 then 0x40_0000 else 0x1000)) % 0x1_0000_0000)
  {
    var ppn := Ppn(leaf.pte);
    if leaf.level == 0 {
      PageAddress(ppn, q.va);
    } else if ppn % 0x400 == 0 {
      SuperpageAddress(ppn, q.va);
    }
  }

  lemma PageAddress(ppn: nat, va: u32)
    ensures (ppn / 0x400 % 0x400 * 0x400 + ppn % 0x400) * 0x1000 + va % 0x1000 ==
      (ppn * 0x1000 + va % 0x1000) % 0x1_0000_0000
  {
    var t, low, off := ppn / 0x400, ppn % 0x400, va % 0x1000;
    B.ModUnique(ppn * 0x1000 + off, t / 0x400, (t % 0x400 * 0x400 + low) * 0x1000 + off, 0x1_0000_0000);
  }

  lemma SuperpageAddress(ppn: nat, va: u32)
    requires ppn % 0x400 == 0
    ensures (ppn / 0x400 % 0x400 * 0x400 + Vpn(va, 0)) * 0x1000 + va % 0x1000 ==
      (ppn * 0x1000 + va % 0x40_0000) % 0x1_0000_0000
  {
    var t := ppn / 0x400;
    var n, off := va / 0x1000, va % 0x1000;
    B.ModUnique(va, n / 0x400, n % 0x400 * 0x1000 + off, 0x40_0000);
    B.ModUnique(ppn * 0x1000 + va % 0x40_0000, t / 0x400, (t % 0x400 * 0x400 + n % 0x400) * 0x1000 + off,
                0x1_0000_0000);
  }

  // ---- The walk in numbers ----

  /** The fields of an entry, from the highest down: frame number, two bits for software, then D A G U X W R V. */
  datatype Fields = Fields(ppn: nat, rsw: nat, d: nat, a: nat, g: nat, u: nat, x: nat, w: nat, r: nat, v: nat)

  /** Figure 4.18 of the Privileged Architecture. */
  predicate Holds(pte: nat, f: Fields) {
    f.ppn < 0x40_0000 && f.rsw < 4 && f.d < 2 && f.a < 2 && f.g < 2 && f.u < 2 && f.x < 2 && f.w < 2 && f.r < 2 &&
    f.v < 2 &&
    pte == 0x400 * f.ppn + 0x100 * f.rsw + 0x80 * f.d + 0x40 * f.a + 0x20 * f.g + 0x10 * f.u + 8 * f.x + 4 * f.w +
           2 * f.r + f.v
  }

  lemma NextDigit(high: nat, digit: nat, base: nat)
    requires base > 0 && digit < base
    ensures (high * base + digit) / base == high && (high * base + digit) % base == digit
  {
    B.ModUnique(high * base + digit, high, digit, base);
  }

  lemma LowFields(pte: nat, f: Fields)
    requires Holds(pte, f)
    ensures pte % 2 == f.v && pte / 2 % 2 == f.r && pte / 4 % 2 == f.w && pte / 8 % 2 == f.x && pte / 16 % 2 == f.u
  {
    var p5 := 32 * f.ppn + 8 * f.rsw + 4 * f.d + 2 * f.a + f.g;
    var p4 := 2 * p5 + f.u;
    var p3 := 2 * p4 + f.x;
    var p2 := 2 * p3 + f.w;
    var p1 := 2 * p2 + f.r;
    B.ModUnique(pte, p1, f.v, 2);
    B.ModUnique(pte, p2, 2 * f.r + f.v, 4);
    B.ModUnique(pte, p3, 4 * f.w + 2 * f.r + f.v, 8);
    B.ModUnique(pte, p4, 8 * f.x + 4 * f.w + 2 * f.r + f.v, 16);
    NextDigit(p2, f.r, 2);
    NextDigit(p3, f.w, 2);
    NextDigit(p4, f.x, 2);
    NextDigit(p5, f.u, 2);
  }

  lemma HighFields(pte: nat, f: Fields)
    requires Holds(pte, f)
    ensures pte / 64 % 2 == f.a && pte / 128 % 2 == f.d && pte / 1024 == f.ppn
  {
    var p8 := 4 * f.ppn + f.rsw;
    var p7 := 2 * p8 + f.d;
    var p6 := 2 * p7 + f.a;
    B.ModUnique(pte, p6, 0x20 * f.g + 0x10 * f.u + 8 * f.x + 4 * f.w + 2 * f.r + f.v, 64);
    B.ModUnique(pte, p7, pte - 128 * p7, 128);
    B.ModUnique(pte, f.ppn, pte - 1024 * f.ppn, 1024);
    NextDigit(p7, f.a, 2);
    NextDigit(p8, f.d, 2);
  }

  /** Halving an entry drops its fields one by one. */
  lemma FieldsShift(pte: nat, f: Fields)
    requires Holds(pte, f)
    ensures pte % 2 == f.v && pte / 2 % 2 == f.r && pte / 4 % 2 == f.w && pte / 8 % 2 == f.x && pte / 16 % 2 == f.u
    ensures pte / 64 % 2 == f.a && pte / 128 % 2 == f.d && pte / 1024 == f.ppn
  {
    LowFields(pte, f);
    HighFields(pte, f);
  }

  /** Where each bit and the frame number stand in an entry. */
  lemma EntryLayout(pte: nat, f: Fields)
    requires Holds(pte, f)
    ensures (V(pte) <==> f.v == 1) && (R(pte) <==> f.r == 1) && (W(pte) <==> f.w == 1) && (X(pte) <==> f.x == 1)
    ensures (U(pte) <==> f.u == 1) && (A(pte) <==> f.a == 1) && (D(pte) <==> f.d == 1) && Ppn(pte) == f.ppn
  {
    FieldsShift(pte, f);
    B.ModUnique(f.ppn, 0, f.ppn, 0x40_0000);
  }

  /** The word at this address holds these fields; none if it cannot be read. */
  predicate EntryAt(m: Mem, at: nat, f: Option<Fields>) {
    var word := if at % 4 == 0 then ReadLE(m, at, 4) else None;
    word.Some? == f.Some? && (f.Some? ==> Holds(word.value, f.value))
  }

  predicate Pointing(f: Fields) { f.v == 1 && f.r == 0 && f.w == 0 && f.x == 0 }

  predicate Leafy(f: Fields) { f.v == 1 && (f.r == 1 || (f.x == 1 && f.w == 0)) }

  /** Section 4.3.1 on the fields. */
  predicate Grants(f: Fields, q: Request) {
    (match q.access
     case Fetch => f.x == 1
     case Load => f.r == 1 || (f.x == 1 && q.mxr)
     case Store => f.w == 1) &&
    (match q.privilege
     case User => f.u == 1
     case Supervisor => f.u == 0 || (q.sum && !q.access.Fetch?)
     case Machine => true)
  }

  /** The entries on the way of a walk, where section 4.3.2 says they are: one in the root table, and one a
      table further down if the first points there. */
  predicate OnTheWay(m: Mem, root: u32, va: u32, a1: nat, f1: Option<Fields>, a0: nat, f0: Option<Fields>) {
    a1 == (root + va / 0x40_0000 * 4) % 0x1_0000_0000 && EntryAt(m, a1, f1) &&
    if f1.Some? && Pointing(f1.value) then
      a0 == (f1.value.ppn * 0x1000 + va / 0x1000 % 0x400 * 4) % 0x1_0000_0000 && EntryAt(m, a0, f0)
    else f0.None?
  }

  /** Every word has its fields. */
  lemma FieldsExist(pte: u32) returns (f: Fields)
    ensures Holds(pte, f)
  {
    var p1, p2, p3, p4, p5 := pte / 2, pte / 2 / 2, pte / 2 / 2 / 2, pte / 2 / 2 / 2 / 2, pte / 2 / 2 / 2 / 2 / 2;
    var p6, p7 := p5 / 2, p5 / 2 / 2;
    var p8 := p7 / 2;
    f := Fields(p8 / 4, p8 % 4, p7 % 2, p6 % 2, p5 % 2, p4 % 2, p3 % 2, p2 % 2, p1 % 2, pte % 2);
  }

  lemma EntryExists(m: Mem, at: nat) returns (f: Option<Fields>)
    ensures EntryAt(m, at, f)
  {
    f := None;
    if at % 4 == 0 && ReadLE(m, at, 4).Some? {
      assert Pow256(4) == 0x1_0000_0000;
      var g := FieldsExist(ReadLE(m, at, 4).value);
      f := Some(g);
    }
  }

  /** Every walk has its entries, so the results below are about all of them. */
  lemma WayExists(m: Mem, root: u32, va: u32) returns (a1: u32, f1: Option<Fields>, a0: u32, f0: Option<Fields>)
    ensures OnTheWay(m, root, va, a1, f1, a0, f0)
  {
    a1 := (root + va / 0x40_0000 * 4) % 0x1_0000_0000;
    f1 := EntryExists(m, a1);
    a0, f0 := 0, None;
    if f1.Some? && Pointing(f1.value) {
      a0 := (f1.value.ppn * 0x1000 + va / 0x1000 % 0x400 * 4) % 0x1_0000_0000;
      f0 := EntryExists(m, a0);
    }
  }

  predicate HasLeaf(f: Option<Fields>) { f.Some? && Leafy(f.value) }

  lemma FieldsDecide(pte: nat, f: Fields, q: Request)
    requires Holds(pte, f)
    ensures (ValidLeaf(Some(pte)) <==> Leafy(f)) && (ValidPointer(Some(pte)) <==> Pointing(f))
    ensures (Permitted(pte, q) <==> Grants(f, q)) && Ppn(pte) == f.ppn
    ensures Rwxu(pte) == f.r + 2 * f.w + 4 * f.x + 8 * f.u
  {
    EntryLayout(pte, f);
  }

  /** What has been read is what the fields say. */
  predicate Reads(p: Option<nat>, f: Option<Fields>, q: Request) {
    p.Some? == f.Some? && (ValidLeaf(p) <==> HasLeaf(f)) && (ValidPointer(p) <==> f.Some? && Pointing(f.value)) &&
    (p.Some? ==> Holds(p.value, f.value) && (Permitted(p.value, q) <==> Grants(f.value, q)) &&
                 Ppn(p.value) == f.value.ppn &&
                 Rwxu(p.value) == f.value.r + 2 * f.value.w + 4 * f.value.x + 8 * f.value.u)
  }

  lemma EntryRead(m: Mem, at: u32, f: Option<Fields>, q: Request) returns (p: Option<nat>)
    requires EntryAt(m, at, f)
    ensures p == ReadPte(m, at) && Reads(p, f, q)
  {
    p := ReadPte(m, at);
    if p.Some? { FieldsDecide(p.value, f.value, q); }
  }

  /** The two entries, read as the walk reads them. */
  lemma EntriesRead(m: Mem, root: u32, q: Request, a1: u32, f1: Option<Fields>, a0: u32, f0: Option<Fields>)
      returns (p1: Option<nat>, p0: Option<nat>)
    requires OnTheWay(m, root, q.va, a1, f1, a0, f0)
    ensures p1 == ReadPte(m, a1) && Reads(p1, f1, q) && Reads(p0, f0, q)
    ensures p0 == if ValidPointer(p1) then ReadPte(m, a0) else None
    ensures ValidPointer(p1) ==> a0 == (Ppn(p1.value) * 0x1000 + q.va / 0x1000 % 0x400 * 4) % 0x1_0000_0000
  {
    p1 := EntryRead(m, a1, f1, q);
    p0 := None;
    if ValidPointer(p1) { p0 := EntryRead(m, a0, f0, q); }
  }

  /** The answer for these two entries on the way. */
  predicate AnswersInNumbers(out: Option<TlbFill>, q: Request, f1: Option<Fields>, f0: Option<Fields>) {
    (out.Some? <==>
      (HasLeaf(f1) && f1.value.ppn % 0x400 == 0 && Grants(f1.value, q)) || (HasLeaf(f0) && Grants(f0.value, q))) &&
    (out.Some? ==>
      (HasLeaf(f1) || HasLeaf(f0)) &&
      var f := if HasLeaf(f1) then f1.value else f0.value;
      out.value.paddr == (f.ppn * 0x1000 + q.va % (if HasLeaf(f1) then 0x40_0000 else 0x1000)) % 0x1_0000_0000 &&
      out.value.rwxu == f.r + 2 * f.w + 4 * f.x + 8 * f.u)
  }

  lemma TablesInNumbers(out: Option<TlbFill>, q: Request, p1: Option<nat>, f1: Option<Fields>, p0: Option<nat>,
                        f0: Option<Fields>)
    requires Reads(p1, f1, q) && Reads(p0, f0, q) && AnswersByTables(out, q, p1, p0)
    ensures AnswersInNumbers(out, q, f1, f0)
  {
  }

  /** Main result: the walk in the numbers of section 4.3.1 of the RISC-V privileged manual.  It succeeds for a leaf in
      the root table whose low ten frame bits are zero, and for a leaf one table further down, if the leaf's bits grant
      the access; it delivers frame and offset of a 4 MiB or a 4 KiB page, cut to 32 bits, and the permission bits. */
  lemma WalkInNumbers(m: Mem, root: u32, q: Request, a1: u32, f1: Option<Fields>, a0: u32, f0: Option<Fields>)
    requires OnTheWay(m, root, q.va, a1, f1, a0, f0)
    ensures AnswersInNumbers(Walk(m, root, q).out, q, f1, f0)
  {
    var p1, p0 := EntriesRead(m, root, q, a1, f1, a0, f0);
    WalkByTables(m, root, q, p1, p0);
    TablesInNumbers(Walk(m, root, q).out, q, p1, f1, p0, f0);
  }

  /** Entries that agree but for A and D have the same fields but for those two. */
  lemma FieldsButAD(pte: nat, f: Fields, pte': nat, a: nat, d: nat)
    requires Holds(pte, f) && SamePte(pte, pte') && a < 2 && d < 2
    requires (A(pte') <==> a == 1) && (D(pte') <==> d == 1)
    ensures Holds(pte', f.(a := a, d := d))
  {
    Split(pte);
    Split(pte');
    FieldsShift(pte, f);
  }

  lemma WhichLeaf(p1: Option<nat>, f1: Option<Fields>, p0: Option<nat>, f0: Option<Fields>, q: Request)
    requires Reads(p1, f1, q) && Reads(p0, f0, q)
    ensures (HasLeaf(f1) <==> ValidLeaf(p1)) && (HasLeaf(f0) <==> ValidLeaf(p0))
    ensures ValidLeaf(p1) ==> Holds(p1.value, f1.value)
    ensures ValidLeaf(p0) ==> Holds(p0.value, f0.value)
  {
  }

  lemma WalkNeedsLeaf(m: Mem, root: u32, q: Request)
    ensures Walk(m, root, q).out.Some? ==> FindLeaf(m, root, q.va, 1).Some?
  {
  }

  /** The leaf among the two entries read at their addresses. */
  lemma LeafAt(m: Mem, root: u32, va: u32, a1: u32, p1: Option<nat>, a0: u32, p0: Option<nat>) returns (leaf: Leaf)
    requires a1 == (root + va / 0x40_0000 * 4) % 0x1_0000_0000 && p1 == ReadPte(m, a1)
    requires p0 == if ValidPointer(p1) then ReadPte(m, a0) else None
    requires ValidPointer(p1) ==> a0 == (Ppn(p1.value) * 0x1000 + va / 0x1000 % 0x400 * 4) % 0x1_0000_0000
    requires FindLeaf(m, root, va, 1).Some?
    ensures FindLeaf(m, root, va, 1) == Some(leaf) && (ValidLeaf(p1) || ValidLeaf(p0))
    ensures leaf.addr == (if ValidLeaf(p1) then a1 else a0) && ReadPte(m, leaf.addr) == Some(leaf.pte)
    ensures Some(leaf.pte) == if ValidLeaf(p1) then p1 else p0
  {
    assert PteAddr(root, va, 1) == a1;
    if ValidPointer(p1) { SecondEntry(p1.value, va); }
    var l := LeafOfTables(m, root, va, p1, p0);
    leaf := l.value;
  }

  /** Which leaf it is, and where. */
  lemma LeafInNumbers(m: Mem, root: u32, q: Request, a1: u32, f1: Option<Fields>, a0: u32, f0: Option<Fields>)
      returns (leaf: Leaf)
    requires OnTheWay(m, root, q.va, a1, f1, a0, f0) && Walk(m, root, q).out.Some?
    ensures FindLeaf(m, root, q.va, 1) == Some(leaf) && ReadPte(m, leaf.addr) == Some(leaf.pte)
    ensures leaf.addr == if HasLeaf(f1) then a1 else a0
    ensures HasLeaf(f1) || HasLeaf(f0)
    ensures Holds(leaf.pte, if HasLeaf(f1) then f1.value else f0.value)
  {
    var p1, p0 := EntriesRead(m, root, q, a1, f1, a0, f0);
    WalkNeedsLeaf(m, root, q);
    leaf := LeafAt(m, root, q.va, a1, p1, a0, p0);
    WhichLeaf(p1, f1, p0, f0, q);
  }

  /** What the walk leaves in its leaf. */
  function Marked(f: Fields, access: Access): Fields {
    f.(a := 1, d := if access.Store? then 1 else f.d)
  }

  /** The leaf of a walk that succeeds, marked, and what the walk says of it. */
  lemma LeafMarked(m: Mem, root: u32, q: Request, leaf: Leaf, f: Fields)
    requires FindLeaf(m, root, q.va, 1) == Some(leaf) && ReadPte(m, leaf.addr) == Some(leaf.pte)
    requires Holds(leaf.pte, f) && Walk(m, root, q).out.Some?
    ensures EntryAt(Walk(m, root, q).mem, leaf.addr, Some(if CanWrite(m, leaf.addr) then Marked(f, q.access) else f))
  {
    LeafAfterUpdate(m, leaf, q.access);
    UpdatedLowByte(leaf.pte, q.access);
    EntryLayout(leaf.pte, f);
    FieldsButAD(leaf.pte, f, UpdatedPte(leaf.pte, q.access), 1, Marked(f, q.access).d);
  }

  lemma LeafReported(m: Mem, root: u32, q: Request, leaf: Leaf, f: Fields)
    requires FindLeaf(m, root, q.va, 1) == Some(leaf) && Holds(leaf.pte, f) && Walk(m, root, q).out.Some?
    ensures var fill := Walk(m, root, q).out.value;
      (fill.accessed <==> f.a == 0) && (fill.dirty <==> q.access.Store? && f.d == 0)
  {
    EntryLayout(leaf.pte, f);
  }

  lemma OthersKept(m: Mem, root: u32, q: Request, leaf: Leaf)
    requires FindLeaf(m, root, q.va, 1) == Some(leaf) && Walk(m, root, q).out.Some?
    ensures SameRegions(m, Walk(m, root, q).mem)
    ensures forall x :: x in m.bytes && x != leaf.addr ==> Walk(m, root, q).mem.bytes[x] == m.bytes[x]
  {
    WalkSetsAD(m, root, q);
    WalkIsAD(m, root, q);
  }

  /** Main result: a walk that succeeds sets A, and D for a store, in the entry it ended at, if the first byte of that
      entry takes a store, and leaves every other field and every other byte alone; one that fails changes nothing. */
  lemma WalkMarksEntry(m: Mem, root: u32, q: Request, a1: u32, f1: Option<Fields>, a0: u32, f0: Option<Fields>)
    requires OnTheWay(m, root, q.va, a1, f1, a0, f0)
    ensures Walk(m, root, q).out.None? ==> Walk(m, root, q).mem == m
    ensures Walk(m, root, q).out.Some? ==>
      (HasLeaf(f1) || HasLeaf(f0)) &&
      var at, f := if HasLeaf(f1) then a1 else a0, if HasLeaf(f1) then f1.value else f0.value;
      var m' := Walk(m, root, q).mem;
      SameRegions(m, m') && (forall x :: x in m.bytes && !(at <= x < at + 4) ==> m'.bytes[x] == m.bytes[x]) &&
      EntryAt(m', at, Some(if CanWrite(m, at) then Marked(f, q.access) else f)) &&
      (Walk(m, root, q).out.value.accessed <==> f.a == 0) &&
      (Walk(m, root, q).out.value.dirty <==> q.access.Store? && f.d == 0)
  {
    if Walk(m, root, q).out.Some? {
      var leaf := LeafInNumbers(m, root, q, a1, f1, a0, f0);
      var f := if HasLeaf(f1) then f1.value else f0.value;
      OthersKept(m, root, q, leaf);
      LeafMarked(m, root, q, leaf, f);
      LeafReported(m, root, q, leaf, f);
    }
  }
}
