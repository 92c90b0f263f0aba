/** RV32 instruction words: the encoders of the framebuffer program against the decoder.
    Words, registers and immediates are 32-bit patterns; immediates are in two's complement. */
module Codec {
  datatype Decoded =
    | R(rd: bv32, rs1: bv32, rs2: bv32, funct3: bv32, funct7: bv32)
    | I(rd: bv32, rs1: bv32, imm: bv32, funct3: bv32)
    | Load(rd: bv32, rs1: bv32, imm: bv32, funct3: bv32)
    | Jalr(rd: bv32, rs1: bv32, imm: bv32, funct3: bv32)
    | S(rs1: bv32, rs2: bv32, imm: bv32, funct3: bv32)
    | B(rs1: bv32, rs2: bv32, imm: bv32, funct3: bv32)
    | U(rd: bv32, imm: bv32)
    | J(rd: bv32, imm: bv32)
    | System(opcode: bv32, rd: bv32, rs1: bv32, funct3: bv32, imm: bv32)
    | Unknown(opcode: bv32)

  // ---- Fields ----

  function Opcode(w: bv32): bv32 { w & 0x7F }
  function Rd(w: bv32): bv32 { (w >> 7) & 0x1F }
  function Funct3(w: bv32): bv32 { (w >> 12) & 0x7 }
  function Rs1(w: bv32): bv32 { (w >> 15) & 0x1F }
  function Rs2(w: bv32): bv32 { (w >> 20) & 0x1F }
  function Funct7(w: bv32): bv32 { (w >> 25) & 0x7F }

  function SignExtend12(v: bv32): bv32 { if v & 0x800 != 0 then v | 0xFFFF_F000 else v }
  function SignExtend13(v: bv32): bv32 { if v & 0x1000 != 0 then v | 0xFFFF_E000 else v }
  function SignExtend21(v: bv32): bv32 { if v & 0x10_0000 != 0 then v | 0xFFF0_0000 else v }

  function ImmI(w: bv32): bv32 { SignExtend12((w >> 20) & 0xFFF) }

  function ImmS(w: bv32): bv32 {
    SignExtend12((((w >> 25) & 0x7F) << 5) | ((w >> 7) & 0x1F))
  }

  function ImmB(w: bv32): bv32 {
    SignExtend13(JoinB((w >> 31) & 0x1, (w >> 7) & 0x1, (w >> 25) & 0x3F, (w >> 8) & 0xF))
  }

  /** The pieces of a branch offset in their places: bits 12, 11, 10-5 and 4-1. */
  function JoinB(a: bv32, b: bv32, c: bv32, d: bv32): bv32 { (a << 12) | (b << 11) | (c << 5) | (d << 1) }

  function ImmU(w: bv32): bv32 { w & 0xFFFF_F000 }

  function ImmJ(w: bv32): bv32 {
    SignExtend21(JoinJ((w >> 31) & 0x1, (w >> 12) & 0xFF, (w >> 20) & 0x1, (w >> 21) & 0x3FF))
  }

  /** The pieces of a jump offset in their places: bits 20, 19-12, 11 and 10-1. */
  function JoinJ(a: bv32, b: bv32, c: bv32, d: bv32): bv32 { (a << 20) | (b << 12) | (c << 11) | (d << 1) }

  function Decode(w: bv32): Decoded {
    var opcode := Opcode(w);
    if opcode == 0x33 then R(Rd(w), Rs1(w), Rs2(w), Funct3(w), Funct7(w))
    else if opcode == 0x13 then I(Rd(w), Rs1(w), ImmI(w), Funct3(w))
    else if opcode == 0x03 then Load(Rd(w), Rs1(w), ImmI(w), Funct3(w))
    else if opcode == 0x67 then Jalr(Rd(w), Rs1(w), ImmI(w), Funct3(w))
    else if opcode == 0x23 then S(Rs1(w), Rs2(w), ImmS(w), Funct3(w))
    else if opcode == 0x63 then B(Rs1(w), Rs2(w), ImmB(w), Funct3(w))
    else if opcode == 0x37 || opcode == 0x17 then U(Rd(w), ImmU(w))
    else if opcode == 0x6F then J(Rd(w), ImmJ(w))
    else if opcode == 0x73 || opcode == 0x0F then System(opcode, Rd(w), Rs1(w), Funct3(w), w >> 20)
    else Unknown(opcode)
  }

  // ---- Encoders ----

  function EncodeLui(rd: bv32, imm20: bv32): bv32 { (imm20 << 12) | (rd << 7) | 0x37 }

  function EncodeAddi(rd: bv32, rs1: bv32, imm: bv32): bv32 {
    ((imm & 0xFFF) << 20) | (rs1 << 15) | (rd << 7) | 0x13
  }

  function EncodeSh(rs2: bv32, rs1: bv32, imm: bv32): bv32 {
    var imm12 := imm & 0xFFF;
    (((imm12 >> 5) & 0x7F) << 25) | (rs2 << 20) | (rs1 << 15) | (1 << 12) | ((imm12 & 0x1F) << 7) | 0x23
  }

  function EncodeBne(rs1: bv32, rs2: bv32, imm: bv32): bv32 {
    var imm13 := imm & 0x1FFF;
    (((imm13 >> 12) & 0x1) << 31) | (((imm13 >> 5) & 0x3F) << 25) | (rs2 << 20) | (rs1 << 15) | (1 << 12) |
    (((imm13 >> 1) & 0xF) << 8) | (((imm13 >> 11) & 0x1) << 7) | 0x63
  }

  function EncodeJal(rd: bv32, imm: bv32): bv32 {
    var imm21 := imm & 0x1F_FFFF;
    (((imm21 >> 20) & 0x1) << 31) | (((imm21 >> 12) & 0xFF) << 12) | (((imm21 >> 11) & 0x1) << 20) |
    (((imm21 >> 1) & 0x3FF) << 21) | (rd << 7) | 0x6F
  }

  // ---- Ranges, in two's complement ----

  predicate Register(r: bv32) { r < 32 }

  /** -2048 to 2047 */
  predicate Signed12(imm: bv32) { imm + 0x800 < 0x1000 }

  /** -4096 to 4094, even */
  predicate Even13(imm: bv32) { imm + 0x1000 < 0x2000 && imm & 1 == 0 }

  /** -1048576 to 1048574, even */
  predicate Even21(imm: bv32) { imm + 0x10_0000 < 0x20_0000 && imm & 1 == 0 }

  // ---- Decoding what was encoded ----

  lemma LuiFields(rd: bv32, imm20: bv32)
    requires Register(rd)
    ensures var w := EncodeLui(rd, imm20); Opcode(w) == 0x37 && Rd(w) == rd && ImmU(w) == imm20 << 12
  {
  }

  lemma TopBitsDrop(imm20: bv32)
    ensures (imm20 << 12) >> 12 == imm20 <==> imm20 < 0x10_0000
  {
  }

  /** The upper immediate is delivered shifted into place; it is all there exactly when it fits 20 bits. */
  lemma LuiRoundTrip(rd: bv32, imm20: bv32)
    requires Register(rd)
    ensures Decode(EncodeLui(rd, imm20)) == U(rd, imm20 << 12)
    ensures Decode(EncodeLui(rd, imm20)).imm >> 12 == imm20 <==> imm20 < 0x10_0000
  {
    LuiFields(rd, imm20);
    TopBitsDrop(imm20);
    MeansLui(EncodeLui(rd, imm20), rd, imm20 << 12);
  }

  lemma MeansLui(w: bv32, rd: bv32, imm: bv32)
    requires Opcode(w) == 0x37 && Rd(w) == rd && ImmU(w) == imm
    ensures Decode(w) == U(rd, imm)
  {
  }

  /** The bits from the sign bit up are all alike. */
  predicate Alike(imm: bv32, mask: bv32) { imm & mask == 0 || imm & mask == mask }

  lemma Range12(imm: bv32)
    ensures Signed12(imm) <==> Alike(imm, 0xFFFF_F800)
  {
  }

  lemma Extended12(imm: bv32)
    ensures SignExtend12(imm & 0xFFF) == imm <==> Alike(imm, 0xFFFF_F800)
  {
  }

  lemma Range13(imm: bv32)
    ensures imm + 0x1000 < 0x2000 <==> Alike(imm, 0xFFFF_F000)
  {
  }

  lemma Extended13(imm: bv32)
    ensures SignExtend13(imm & 0x1FFE) == imm <==> imm & 1 == 0 && Alike(imm, 0xFFFF_F000)
  {
  }

  lemma Range21(imm: bv32)
    ensures imm + 0x10_0000 < 0x20_0000 <==> Alike(imm, 0xFFF0_0000)
  {
    if 0x10_0000 <= imm < 0xFFF0_0000 {
      assert imm + 0x10_0000 >= 0x20_0000;
    }
  }

  lemma Negative21(imm: bv32)
    requires imm & 0x10_0000 != 0
    ensures (imm & 0x1F_FFFE) | 0xFFF0_0000 == imm <==> imm & 1 == 0 && imm & 0xFFF0_0000 == 0xFFF0_0000
  {
  }

  lemma Positive21(imm: bv32)
    requires imm & 0x10_0000 == 0
    ensures imm & 0x1F_FFFE == imm <==> imm & 1 == 0 && imm & 0xFFF0_0000 == 0
  {
  }

  lemma SameSign21(imm: bv32)
    ensures (imm & 0x1F_FFFE) & 0x10_0000 == imm & 0x10_0000
    ensures imm & 0xFFF0_0000 == 0 ==> imm & 0x10_0000 == 0
    ensures imm & 0xFFF0_0000 == 0xFFF0_0000 ==> imm & 0x10_0000 != 0
  {
  }

  lemma Extended21(imm: bv32)
    ensures SignExtend21(imm & 0x1F_FFFE) == imm <==> imm & 1 == 0 && Alike(imm, 0xFFF0_0000)
  {
    SameSign21(imm);
    if imm & 0x10_0000 != 0 { Negative21(imm); } else { Positive21(imm); }
  }

  // What a word with given fields decodes to, and when that is what was meant.

  lemma MeansAddi(w: bv32, rd: bv32, rs1: bv32, imm: bv32)
    requires Opcode(w) == 0x13 && Rd(w) == rd && Rs1(w) == rs1 && Funct3(w) == 0 && (w >> 20) & 0xFFF == imm & 0xFFF
    ensures Decode(w) == I(rd, rs1, imm, 0) <==> Signed12(imm)
  {
    assert Decode(w) == I(rd, rs1, SignExtend12(imm & 0xFFF), 0);
    Extended12(imm);
    Range12(imm);
  }

  lemma MeansSh(w: bv32, rs1: bv32, rs2: bv32, imm: bv32)
    requires Opcode(w) == 0x23 && Rs1(w) == rs1 && Rs2(w) == rs2 && Funct3(w) == 1 &&
      ImmS(w) == SignExtend12(imm & 0xFFF)
    ensures Decode(w) == S(rs1, rs2, imm, 1) <==> Signed12(imm)
  {
    assert Decode(w) == S(rs1, rs2, SignExtend12(imm & 0xFFF), 1);
    Extended12(imm);
    Range12(imm);
  }

  lemma MeansBne(w: bv32, rs1: bv32, rs2: bv32, imm: bv32)
    requires Opcode(w) == 0x63 && Rs1(w) == rs1 && Rs2(w) == rs2 && Funct3(w) == 1 &&
      ImmB(w) == SignExtend13(imm & 0x1FFE)
    ensures Decode(w) == B(rs1, rs2, imm, 1) <==> Even13(imm)
  {
    assert Decode(w) == B(rs1, rs2, SignExtend13(imm & 0x1FFE), 1);
    Extended13(imm);
    Range13(imm);
  }

  lemma MeansJal(w: bv32, rd: bv32, imm: bv32)
    requires Opcode(w) == 0x6F && Rd(w) == rd && ImmJ(w) == SignExtend21(imm & 0x1F_FFFE)
    ensures Decode(w) == J(rd, imm) <==> Even21(imm)
  {
    assert Decode(w) == J(rd, SignExtend21(imm & 0x1F_FFFE));
    Extended21(imm);
    Range21(imm);
  }

  lemma AddiFields(rd: bv32, rs1: bv32, imm: bv32)
    requires Register(rd) && Register(rs1)
    ensures var w := EncodeAddi(rd, rs1, imm);
      Opcode(w) == 0x13 && Rd(w) == rd && Rs1(w) == rs1 && Funct3(w) == 0 && (w >> 20) & 0xFFF == imm & 0xFFF
  {
  }

  /** The word holds the immediate exactly when it fits 12 bits. */
  lemma AddiRoundTrip(rd: bv32, rs1: bv32, imm: bv32)
    requires Register(rd) && Register(rs1)
    ensures Decode(EncodeAddi(rd, rs1, imm)) == I(rd, rs1, imm, 0) <==> Signed12(imm)
  {
    AddiFields(rd, rs1, imm);
    MeansAddi(EncodeAddi(rd, rs1, imm), rd, rs1, imm);
  }

  lemma ShFields(rs2: bv32, rs1: bv32, imm: bv32)
    requires Register(rs1) && Register(rs2)
    ensures var w := EncodeSh(rs2, rs1, imm); Opcode(w) == 0x23 && Rs1(w) == rs1 && Rs2(w) == rs2 && Funct3(w) == 1
  {
  }

  lemma ShImm(rs2: bv32, rs1: bv32, imm: bv32)
    requires Register(rs1) && Register(rs2)
    ensures ImmS(EncodeSh(rs2, rs1, imm)) == SignExtend12(imm & 0xFFF)
  {
    var w := EncodeSh(rs2, rs1, imm);
    assert (w >> 25) & 0x7F == (imm >> 5) & 0x7F && (w >> 7) & 0x1F == imm & 0x1F;
    assert (((imm >> 5) & 0x7F) << 5) | (imm & 0x1F) == imm & 0xFFF;
  }

  lemma ShRoundTrip(rs2: bv32, rs1: bv32, imm: bv32)
    requires Register(rs1) && Register(rs2)
    ensures Decode(EncodeSh(rs2, rs1, imm)) == S(rs1, rs2, imm, 1) <==> Signed12(imm)
  {
    ShFields(rs2, rs1, imm);
    ShImm(rs2, rs1, imm);
    MeansSh(EncodeSh(rs2, rs1, imm), rs1, rs2, imm);
  }

  lemma BneFields(rs1: bv32, rs2: bv32, imm: bv32)
    requires Register(rs1) && Register(rs2)
    ensures var w := EncodeBne(rs1, rs2, imm); Opcode(w) == 0x63 && Rs1(w) == rs1 && Rs2(w) == rs2 && Funct3(w) == 1
  {
  }

  lemma BnePieces(rs1: bv32, rs2: bv32, imm: bv32)
    requires Register(rs1) && Register(rs2)
    ensures var w := EncodeBne(rs1, rs2, imm);
      (w >> 31) & 0x1 == (imm >> 12) & 0x1 && (w >> 7) & 0x1 == (imm >> 11) & 0x1 &&
      (w >> 25) & 0x3F == (imm >> 5) & 0x3F && (w >> 8) & 0xF == (imm >> 1) & 0xF
  {
  }

  lemma JoinedB(imm: bv32)
    ensures JoinB((imm >> 12) & 0x1, (imm >> 11) & 0x1, (imm >> 5) & 0x3F, (imm >> 1) & 0xF) == imm & 0x1FFE
  {
  }

  lemma BneImm(rs1: bv32, rs2: bv32, imm: bv32)
    requires Register(rs1) && Register(rs2)
    ensures ImmB(EncodeBne(rs1, rs2, imm)) == SignExtend13(imm & 0x1FFE)
  {
    BnePieces(rs1, rs2, imm);
    JoinedB(imm);
  }

  lemma BneRoundTrip(rs1: bv32, rs2: bv32, imm: bv32)
    requires Register(rs1) && Register(rs2)
    ensures Decode(EncodeBne(rs1, rs2, imm)) == B(rs1, rs2, imm, 1) <==> Even13(imm)
  {
    BneFields(rs1, rs2, imm);
    BneImm(rs1, rs2, imm);
    MeansBne(EncodeBne(rs1, rs2, imm), rs1, rs2, imm);
  }

  lemma JalFields(rd: bv32, imm: bv32)
    requires Register(rd)
    ensures var w := EncodeJal(rd, imm); Opcode(w) == 0x6F && Rd(w) == rd
  {
  }

  lemma JalPieces(rd: bv32, imm: bv32)
    requires Register(rd)
    ensures var w := EncodeJal(rd, imm);
      (w >> 31) & 0x1 == (imm >> 20) & 0x1 && (w >> 12) & 0xFF == (imm >> 12) & 0xFF &&
      (w >> 20) & 0x1 == (imm >> 11) & 0x1 && (w >> 21) & 0x3FF == (imm >> 1) & 0x3FF
  {
  }

  lemma JoinedJ(imm: bv32)
    ensures JoinJ((imm >> 20) & 0x1, (imm >> 12) & 0xFF, (imm >> 11) & 0x1, (imm >> 1) & 0x3FF) == imm & 0x1F_FFFE
  {
  }

  lemma JalImm(rd: bv32, imm: bv32)
    requires Register(rd)
    ensures ImmJ(EncodeJal(rd, imm)) == SignExtend21(imm & 0x1F_FFFE)
  {
    JalPieces(rd, imm);
    JoinedJ(imm);
  }

  lemma JalRoundTrip(rd: bv32, imm: bv32)
    requires Register(rd)
    ensures Decode(EncodeJal(rd, imm)) == J(rd, imm) <==> Even21(imm)
  {
    JalFields(rd, imm);
    JalImm(rd, imm);
    MeansJal(EncodeJal(rd, imm), rd, imm);
  }

  // ---- Encoding what was decoded ----

  lemma LuiBack(w: bv32)
    ensures Opcode(w) == 0x37 ==> EncodeLui(Rd(w), ImmU(w) >> 12) == w
  {
  }

  lemma AddiBack(w: bv32)
    ensures Opcode(w) == 0x13 && Funct3(w) == 0 ==> EncodeAddi(Rd(w), Rs1(w), ImmI(w)) == w
  {
  }

  lemma ShBack(w: bv32)
    ensures Opcode(w) == 0x23 && Funct3(w) == 1 ==> EncodeSh(Rs2(w), Rs1(w), ImmS(w)) == w
  {
  }

  lemma BneBack(w: bv32)
    ensures Opcode(w) == 0x63 && Funct3(w) == 1 ==> EncodeBne(Rs1(w), Rs2(w), ImmB(w)) == w
  {
  }

  lemma UnextendedNegative(v: bv32)
    requires v & 0xFFE0_0000 == 0 && v & 0x10_0000 != 0
    ensures (v | 0xFFF0_0000) & 0x1F_FFFF == v
  {
  }

  lemma UnextendedPositive(v: bv32)
    requires v & 0xFFE0_0000 == 0 && v & 0x10_0000 == 0
    ensures v & 0x1F_FFFF == v
  {
  }

  lemma Unextended21(v: bv32)
    requires v & 0xFFE0_0000 == 0
    ensures SignExtend21(v) & 0x1F_FFFF == v
  {
    if v & 0x10_0000 != 0 { UnextendedNegative(v); } else { UnextendedPositive(v); }
  }

  lemma PiecesOfJ(a: bv32, b: bv32, c: bv32, d: bv32)
    requires a < 2 && b < 0x100 && c < 2 && d < 0x400
    ensures var v := JoinJ(a, b, c, d);
      v & 0xFFE0_0000 == 0 && (v >> 20) & 0x1 == a && (v >> 12) & 0xFF == b && (v >> 11) & 0x1 == c &&
        (v >> 1) & 0x3FF == d
  {
  }

  /** The fields of a jump and its opcode make up the whole word. */
  lemma WordOfJ(w: bv32)
    requires Opcode(w) == 0x6F
    ensures (((w >> 31) & 0x1) << 31) | (((w >> 12) & 0xFF) << 12) | (((w >> 20) & 0x1) << 20) |
      (((w >> 21) & 0x3FF) << 21) | (Rd(w) << 7) | 0x6F == w
  {
  }

  lemma SmallPieces(w: bv32)
    ensures (w >> 31) & 0x1 < 2 && (w >> 12) & 0xFF < 0x100 && (w >> 20) & 0x1 < 2 && (w >> 21) & 0x3FF < 0x400
  {
  }

  lemma JalBack(w: bv32)
    ensures Opcode(w) == 0x6F ==> EncodeJal(Rd(w), ImmJ(w)) == w
  {
    SmallPieces(w);
    PiecesOfJ((w >> 31) & 0x1, (w >> 12) & 0xFF, (w >> 20) & 0x1, (w >> 21) & 0x3FF);
    Unextended21(JoinJ((w >> 31) & 0x1, (w >> 12) & 0xFF, (w >> 20) & 0x1, (w >> 21) & 0x3FF));
    if Opcode(w) == 0x6F { WordOfJ(w); }
  }

  /** Re-encodes a decoded instruction of the encoders' five forms. */
  function Encode(d: Decoded): bv32
    requires d.U? || d.I? || d.S? || d.B? || d.J?
  {
    match d
    case U(rd, imm) => EncodeLui(rd, imm >> 12)
    case I(rd, rs1, imm, _) => EncodeAddi(rd, rs1, imm)
    case S(rs1, rs2, imm, _) => EncodeSh(rs2, rs1, imm)
    case B(rs1, rs2, imm, _) => EncodeBne(rs1, rs2, imm)
    case J(rd, imm) => EncodeJal(rd, imm)
  }

  /** Every word of one of the five instructions is what its encoder makes of its decoded fields, so
      encoders and decoder are inverse to each other. */
  lemma DecodeThenEncode(w: bv32)
    requires Opcode(w) == 0x37 || (Opcode(w) == 0x13 && Funct3(w) == 0) || (Opcode(w) == 0x23 && Funct3(w) == 1) ||
      (Opcode(w) == 0x63 && Funct3(w) == 1) || Opcode(w) == 0x6F
    ensures var d := Decode(w); (d.U? || d.I? || d.S? || d.B? || d.J?) && Encode(d) == w
  {
    LuiBack(w);
    AddiBack(w);
    ShBack(w);
    BneBack(w);
    JalBack(w);
  }
}
