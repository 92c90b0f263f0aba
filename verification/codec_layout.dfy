/** Instruction words as the RISC-V manual draws them: six fields side by side, immediates cut across them. */
module CodecLayout {
  import opened Codec

  /** Opcode, rd, funct3, rs1, rs2 and funct7 from the lowest bit upwards, as in section 2.2 of the unprivileged
      RISC-V manual. */
  datatype Fields = Fields(op: bv32, rd: bv32, f3: bv32, rs1: bv32, rs2: bv32, f7: bv32)

  predicate Sized(f: Fields) { f.op < 128 && f.rd < 32 && f.f3 < 8 && f.rs1 < 32 && f.rs2 < 32 && f.f7 < 128 }

  function Word(f: Fields): bv32 {
    0x200_0000 * f.f7 + 0x10_0000 * f.rs2 + 0x8000 * f.rs1 + 0x1000 * f.f3 + 0x80 * f.rd + f.op
  }

  /** A number of so many bits, the upper half standing for negative ones. */
  function Signed(v: bv32, half: bv32): bv32 { if v < half then v else v - 2 * half }

  lemma FieldsOf(f: Fields, w: bv32)
    requires Sized(f) && w == Word(f)
    ensures Opcode(w) == f.op && Rd(w) == f.rd && Funct3(w) == f.f3
    ensures Rs1(w) == f.rs1 && Rs2(w) == f.rs2 && Funct7(w) == f.f7
  {
  }

  // ---- Signs ----

  lemma Extend12(v: bv32)
    requires v < 0x1000
    ensures SignExtend12(v) == Signed(v, 0x800)
  {
  }

  lemma Extend13(v: bv32)
    requires v < 0x2000
    ensures SignExtend13(v) == Signed(v, 0x1000)
  {
  }

  lemma Extend21(v: bv32)
    requires v < 0x20_0000
    ensures SignExtend21(v) == Signed(v, 0x10_0000)
  {
  }

  // ---- Immediates ----

  lemma TopTwelve(f: Fields, w: bv32)
    requires Sized(f) && w == Word(f)
    ensures w >> 20 == 32 * f.f7 + f.rs2 && (w >> 20) & 0xFFF == w >> 20 && w >> 20 < 0x1000
  {
  }

  lemma LoadImmediate(f: Fields, w: bv32)
    requires Sized(f) && w == Word(f)
    ensures ImmI(w) == Signed(32 * f.f7 + f.rs2, 0x800) && w >> 20 == 32 * f.f7 + f.rs2
  {
    TopTwelve(f, w);
    Extend12(w >> 20);
  }

  lemma JoinTwelve(high: bv32, low: bv32)
    requires high < 128 && low < 32
    ensures (high << 5) | low == 32 * high + low && 32 * high + low < 0x1000
  {
  }

  lemma StoreImmediate(f: Fields, w: bv32)
    requires Sized(f) && w == Word(f)
    ensures ImmS(w) == Signed(32 * f.f7 + f.rd, 0x800)
  {
    FieldsOf(f, w);
    JoinTwelve(f.f7, f.rd);
    Extend12(32 * f.f7 + f.rd);
  }

  /** The value of a branch offset: bits 12, 11, 10 to 5 and 4 to 1. */
  function Branch(a: bv32, b: bv32, c: bv32, d: bv32): bv32 { 0x1000 * a + 0x800 * b + 32 * c + 2 * d }

  lemma JoinBranch(a: bv32, b: bv32, c: bv32, d: bv32)
    requires a < 2 && b < 2 && c < 64 && d < 16
    ensures JoinB(a, b, c, d) == Branch(a, b, c, d) < 0x2000
  {
  }

  lemma BranchPieces(f: Fields, w: bv32)
    requires Sized(f) && w == Word(f)
    ensures (w >> 31) & 0x1 == f.f7 / 64 && (w >> 7) & 0x1 == f.rd % 2
    ensures (w >> 25) & 0x3F == f.f7 % 64 && (w >> 8) & 0xF == f.rd / 2
  {
  }

  lemma BranchImmediate(f: Fields, w: bv32)
    requires Sized(f) && w == Word(f)
    ensures ImmB(w) == Signed(Branch(f.f7 / 64, f.rd % 2, f.f7 % 64, f.rd / 2), 0x1000)
  {
    BranchPieces(f, w);
    JoinBranch(f.f7 / 64, f.rd % 2, f.f7 % 64, f.rd / 2);
    Extend13(Branch(f.f7 / 64, f.rd % 2, f.f7 % 64, f.rd / 2));
  }

  lemma UpperImmediate(f: Fields, w: bv32)
    requires Sized(f) && w == Word(f)
    ensures ImmU(w) == 0x200_0000 * f.f7 + 0x10_0000 * f.rs2 + 0x8000 * f.rs1 + 0x1000 * f.f3
  {
  }

  /** The value of a jump offset: bits 20, 19 to 12, 11 and 10 to 1. */
  function Jump(a: bv32, b: bv32, c: bv32, d: bv32): bv32 { 0x10_0000 * a + 0x1000 * b + 0x800 * c + 2 * d }

  lemma JoinJump(a: bv32, b: bv32, c: bv32, d: bv32)
    requires a < 2 && b < 256 && c < 2 && d < 1024
    ensures JoinJ(a, b, c, d) == Jump(a, b, c, d) < 0x20_0000
  {
  }

  lemma JumpPieces(f: Fields, w: bv32)
    requires Sized(f) && w == Word(f)
    ensures (w >> 31) & 0x1 == f.f7 / 64 && (w >> 12) & 0xFF == 8 * f.rs1 + f.f3
    ensures (w >> 20) & 0x1 == f.rs2 % 2 && (w >> 21) & 0x3FF == 16 * (f.f7 % 64) + f.rs2 / 2
  {
  }

  lemma JumpJoined(a: bv32, b: bv32, c: bv32, d: bv32)
    requires a < 2 && b < 256 && c < 2 && d < 1024
    ensures SignExtend21(JoinJ(a, b, c, d)) == Signed(Jump(a, b, c, d), 0x10_0000)
  {
    JoinJump(a, b, c, d);
    Extend21(Jump(a, b, c, d));
  }

  lemma JumpOf(w: bv32, a: bv32, b: bv32, c: bv32, d: bv32)
    requires a == (w >> 31) & 0x1 && b == (w >> 12) & 0xFF && c == (w >> 20) & 0x1 && d == (w >> 21) & 0x3FF
    ensures ImmJ(w) == SignExtend21(JoinJ(a, b, c, d)) && a < 2 && b < 256 && c < 2 && d < 1024
  {
  }

  lemma JumpImmediate(f: Fields, w: bv32)
    requires Sized(f) && w == Word(f)
    ensures ImmJ(w) ==
      Signed(Jump(f.f7 / 64, 8 * f.rs1 + f.f3, f.rs2 % 2, 16 * (f.f7 % 64) + f.rs2 / 2), 0x10_0000)
  {
    JumpPieces(f, w);
    JumpOf(w, f.f7 / 64, 8 * f.rs1 + f.f3, f.rs2 % 2, 16 * (f.f7 % 64) + f.rs2 / 2);
    JumpJoined(f.f7 / 64, 8 * f.rs1 + f.f3, f.rs2 % 2, 16 * (f.f7 % 64) + f.rs2 / 2);
  }

  // ---- The decoder ----

  /** What a word of these fields says, by the base opcodes of the manual: `i`, `s`, `b`, `u` and `j` are the
      immediates of those forms and `top` the highest twelve bits. */
  function Says(f: Fields, i: bv32, s: bv32, b: bv32, u: bv32, j: bv32, top: bv32): Decoded {
    if f.op == 0x33 then R(f.rd, f.rs1, f.rs2, f.f3, f.f7)
    else if f.op == 0x13 then I(f.rd, f.rs1, i, f.f3)
    else if f.op == 0x03 then Load(f.rd, f.rs1, i, f.f3)
    else if f.op == 0x67 then Jalr(f.rd, f.rs1, i, f.f3)
    else if f.op == 0x23 then S(f.rs1, f.rs2, s, f.f3)
    else if f.op == 0x63 then B(f.rs1, f.rs2, b, f.f3)
    else if f.op == 0x37 || f.op == 0x17 then U(f.rd, u)
    else if f.op == 0x6F then J(f.rd, j)
    else if f.op == 0x73 || f.op == 0x0F then System(f.op, f.rd, f.rs1, f.f3, top)
    else Unknown(f.op)
  }

  predicate Reads(w: bv32, f: Fields) {
    f == Fields(Opcode(w), Rd(w), Funct3(w), Rs1(w), Rs2(w), Funct7(w))
  }

  lemma ReadsSay(w: bv32, f: Fields, i: bv32, s: bv32, b: bv32, u: bv32, j: bv32, top: bv32)
    requires Reads(w, f) && top == w >> 20
    requires i == ImmI(w) && s == ImmS(w) && b == ImmB(w) && u == ImmU(w) && j == ImmJ(w)
    ensures Decode(w) == Says(f, i, s, b, u, j, top)
  {
  }

  /** Main result: any word is its six fields side by side, and decodes to what they say, with every immediate cut from
      the fields as the manual draws it. */
  lemma DecodesAsDrawn(w: bv32, f: Fields, i: bv32, s: bv32, b: bv32, u: bv32, j: bv32, top: bv32)
    requires Sized(f) && w == Word(f)
    requires top == 32 * f.f7 + f.rs2 && i == Signed(top, 0x800) && s == Signed(32 * f.f7 + f.rd, 0x800)
    requires b == Signed(Branch(f.f7 / 64, f.rd % 2, f.f7 % 64, f.rd / 2), 0x1000)
    requires u == 0x200_0000 * f.f7 + 0x10_0000 * f.rs2 + 0x8000 * f.rs1 + 0x1000 * f.f3
    requires j == Signed(Jump(f.f7 / 64, 8 * f.rs1 + f.f3, f.rs2 % 2, 16 * (f.f7 % 64) + f.rs2 / 2), 0x10_0000)
    ensures Decode(w) == Says(f, i, s, b, u, j, top)
  {
    FieldsOf(f, w);
    LoadImmediate(f, w);
    StoreImmediate(f, w);
    BranchImmediate(f, w);
    UpperImmediate(f, w);
    JumpImmediate(f, w);
    ReadsSay(w, f, i, s, b, u, j, top);
  }

  /** Every word is six fields side by side. */
  lemma SixFields(w: bv32, f: Fields)
    requires Reads(w, f)
    ensures Sized(f) && w == Word(f)
  {
  }

  /** Two ways of cutting a word are one. */
  lemma FieldsAreUnique(f: Fields, f': Fields)
    requires Sized(f) && Sized(f') && Word(f) == Word(f')
    ensures f == f'
  {
    FieldsOf(f, Word(f));
    FieldsOf(f', Word(f));
  }
}
