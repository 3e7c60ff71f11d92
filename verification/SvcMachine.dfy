/** The AArch64 instructions the packager admits or emits, and what they do. */
module SvcMachine {
  import opened Base

  // ---- words in an image ----

  /** The little-endian word at `at`. */
  function Word(code: seq<byte>, at: nat): (w: nat)
    requires at + 4 <= |code|
    ensures w < U32_LIMIT
  {
    code[at] as nat + 0x100 * code[at + 1] as nat + 0x1_0000 * code[at + 2] as nat + 0x100_0000 * code[at + 3] as nat
  }

  lemma FourBytes(w: nat)
    requires w < U32_LIMIT
    ensures w == w % 0x100 + 0x100 * (w / 0x100 % 0x100) + 0x1_0000 * (w / 0x1_0000 % 0x100)
            + 0x100_0000 * (w / 0x100_0000)
    ensures w / 0x100_0000 < 0x100
  {
    var a, b, c := w / 0x100, w / 0x1_0000, w / 0x100_0000;
    assert w == 0x100 * a + w % 0x100;
    assert a == 0x100 * b + a % 0x100 by { assert a / 0x100 == b; }
    assert b == 0x100 * c + b % 0x100 by { assert b / 0x100 == c; }
  }

  function Pack(w: nat): (b: seq<byte>)
    requires w < U32_LIMIT
    ensures |b| == 4 && Word(b, 0) == w
  {
    FourBytes(w);
    [(w % 0x100) as byte, (w / 0x100 % 0x100) as byte, (w / 0x1_0000 % 0x100) as byte, (w / 0x100_0000) as byte]
  }

  // ---- decoding ----

  datatype Inst =
    | Svc
    | Nop
    | MovImm(inverted: bool, rd: nat, imm: nat, hw: nat)
    | MovReg(rd: nat, rm: nat)
    | CmpImm(rn: nat, imm: nat)
    | CmpReg(rn: nat, rm: nat)
    | Adr(rd: nat, offset: int)
    | B(offset: int)
    | BCond(cond: nat, offset: int)
    | CompareBranch(wide: bool, nonzero: bool, rt: nat, offset: int)
    | Ldr(rt: nat, rn: nat, offset: int)
    | Str(rt: nat, rn: nat, offset: int)
    | StpPre(rt: nat, rt2: nat, rn: nat, offset: int)
    | Stp(rt: nat, rt2: nat, rn: nat, offset: int)
    | Ldp(rt: nat, rt2: nat, rn: nat, offset: int)
    | LdpPost(rt: nat, rt2: nat, rn: nat, offset: int)
    | MrsFlags(rt: nat)
    | MsrFlags(rt: nat)
    | Blr(rn: nat)

  /** Bits `lo` and up, `span` being two to the power of the field's width. */
  function Field(w: nat, lo: nat, span: nat): (f: nat)
    requires lo > 0 && span > 0
    ensures f < span
  {
    w / lo % span
  }

  /** Two's complement: `limit` is two to the power of the width. */
  function Signed(value: nat, limit: nat): int {
    if value < limit / 2 then value else value - limit
  }

  function Pair(w: nat): (nat, nat, nat, int) {
    (w % 32, Field(w, 0x400, 32), Field(w, 0x20, 32), Signed(Field(w, 0x8000, 128), 128) * 8)
  }

  function Decode(w: nat): Option<Inst> {
    var rd := w % 32;
    var rn := Field(w, 0x20, 32);
    var rm := Field(w, 0x1_0000, 32);
    if w == 0xd400_0001 then Some(Svc)
    else if w == 0xd503_201f then Some(Nop)
    else if w / 0x80_0000 == 0x1a5 then Some(MovImm(false, rd, Field(w, 0x20, 0x1_0000), Field(w, 0x20_0000, 4)))
    else if w / 0x80_0000 == 0x125 then Some(MovImm(true, rd, Field(w, 0x20, 0x1_0000), Field(w, 0x20_0000, 4)))
    else if w / 0x20_0000 == 0x550 && Field(w, 0x20, 0x800) == 31 then Some(MovReg(rd, rm))
    else if w / 0x40_0000 == 0x3c4 && rd == 31 then Some(CmpImm(rn, Field(w, 0x400, 0x1000)))
    else if w / 0x20_0000 == 0x758 && Field(w, 0x400, 64) == 0 && rd == 31 then Some(CmpReg(rn, rm))
    else if w / 0x8000_0000 == 0 && Field(w, 0x100_0000, 32) == 16 then
      Some(Adr(rd, Signed(Field(w, 0x20, 0x8_0000) * 4 + Field(w, 0x2000_0000, 4), 0x20_0000)))
    else if w / 0x400_0000 == 5 then Some(B(Signed(w % 0x400_0000, 0x400_0000) * 4))
    else if w / 0x100_0000 == 0x54 && Field(w, 16, 2) == 0
        then Some(BCond(w % 16, Signed(Field(w, 0x20, 0x8_0000), 0x8_0000) * 4))
    else if Field(w, 0x200_0000, 64) == 0x1a then
      Some(CompareBranch(w / 0x8000_0000 == 1, Field(w, 0x100_0000, 2) == 1, rd,
          Signed(Field(w, 0x20, 0x8_0000), 0x8_0000) * 4))
    else if w / 0x40_0000 == 0x3e5 then Some(Ldr(rd, rn, Field(w, 0x400, 0x1000) * 8))
    else if w / 0x40_0000 == 0x3e4 then Some(Str(rd, rn, Field(w, 0x400, 0x1000) * 8))
    else if w / 0x40_0000 == 0x2a6 then Some(StpPre(Pair(w).0, Pair(w).1, Pair(w).2, Pair(w).3))
    else if w / 0x40_0000 == 0x2a4 then Some(Stp(Pair(w).0, Pair(w).1, Pair(w).2, Pair(w).3))
    else if w / 0x40_0000 == 0x2a5 then Some(Ldp(Pair(w).0, Pair(w).1, Pair(w).2, Pair(w).3))
    else if w / 0x40_0000 == 0x2a3 then Some(LdpPost(Pair(w).0, Pair(w).1, Pair(w).2, Pair(w).3))
    else if w / 0x20 == 0x6a9_da10 then Some(MrsFlags(rd))
    else if w / 0x20 == 0x6a8_da10 then Some(MsrFlags(rd))
    else if w / 0x400 == 0x35_8fc0 && rd == 0 then Some(Blr(rn))
    else None
  }

  // ---- decoding inverts the architecture's encodings ----

  /** Two's complement in a field of `limit` values. */
  function Wrap(v: int, limit: nat): (f: nat)
    requires v + limit >= 0 && v < limit
    ensures f < limit
  {
    if v < 0 then v + limit else v
  }

  lemma SignedWrap(v: int, limit: nat)
    requires limit % 2 == 0 && -(limit / 2) <= v < limit / 2
    ensures Signed(Wrap(v, limit), limit) == v
  {
  }

  /** The fields are in range and offsets are multiples of what the encoding scales by. */
  predicate Encodable(i: Inst) {
    match i
    case Svc | Nop => true
    case MovImm(_, rd, imm, hw) => rd < 32 && imm < 0x1_0000 && hw < 4
    case MovReg(rd, rm) => rd < 32 && rm < 32
    case CmpImm(rn, imm) => rn < 32 && imm < 0x1000
    case CmpReg(rn, rm) => rn < 32 && rm < 32
    case Adr(rd, offset) => rd < 32 && -0x10_0000 <= offset < 0x10_0000
    case B(offset) => offset % 4 == 0 && -0x800_0000 <= offset < 0x800_0000
    case BCond(cond, offset) => cond < 16 && offset % 4 == 0 && -0x10_0000 <= offset < 0x10_0000
    case CompareBranch(_, _, rt, offset) => rt < 32 && offset % 4 == 0 && -0x10_0000 <= offset < 0x10_0000
    case Ldr(rt, rn, offset) => rt < 32 && rn < 32 && offset % 8 == 0 && 0 <= offset < 0x8000
    case Str(rt, rn, offset) => rt < 32 && rn < 32 && offset % 8 == 0 && 0 <= offset < 0x8000
    case _ => false
  }

  /** The word the architecture gives an instruction, field by field. */
  function Encode(i: Inst): nat
    requires Encodable(i)
  {
    match i
    case Svc => 0xd400_0001
    case Nop => 0xd503_201f
    case MovImm(inverted, rd, imm, hw) =>
      (if inverted then 0x9280_0000 else 0xd280_0000) + hw * 0x20_0000 + imm * 0x20 + rd
    case MovReg(rd, rm) => 0xaa00_03e0 + rm * 0x1_0000 + rd
    case CmpImm(rn, imm) => 0xf100_001f + imm * 0x400 + rn * 0x20
    case CmpReg(rn, rm) => 0xeb00_001f + rm * 0x1_0000 + rn * 0x20
    case Adr(rd, offset) =>
      var field := Wrap(offset, 0x20_0000);
      0x1000_0000 + field % 4 * 0x2000_0000 + field / 4 * 0x20 + rd
    case B(offset) => 0x1400_0000 + Wrap(offset / 4, 0x400_0000)
    case BCond(cond, offset) => 0x5400_0000 + Wrap(offset / 4, 0x8_0000) * 0x20 + cond
    case CompareBranch(wide, nonzero, rt, offset) =>
      0x3400_0000 + (if wide then 0x8000_0000 else 0) + (if nonzero then 0x100_0000 else 0)
      + Wrap(offset / 4, 0x8_0000) * 0x20 + rt
    case Ldr(rt, rn, offset) => 0xf940_0000 + Wrap(offset / 8, 0x1000) * 0x400 + rn * 0x20 + rt
    case Str(rt, rn, offset) => 0xf900_0000 + Wrap(offset / 8, 0x1000) * 0x400 + rn * 0x20 + rt
  }

  lemma MovDecodes(i: Inst)
    requires Encodable(i) && (i.MovImm? || i.MovReg?)
    ensures Decode(Encode(i)) == Some(i)
  {
    match i
    case MovImm(inverted, rd, imm, hw) => MovImmDecodes(inverted, rd, imm, hw);
    case MovReg(rd, rm) => MovRegDecodes(rd, rm);
  }

  lemma MovImmParts(w: nat, top: nat, hw: nat, imm: nat, rd: nat)
    requires w == top * 0x80_0000 + hw * 0x20_0000 + imm * 0x20 + rd && rd < 32 && imm < 0x1_0000 && hw < 4
    ensures w % 32 == rd && w / 0x80_0000 == top
    ensures Field(w, 0x20, 0x1_0000) == imm && Field(w, 0x20_0000, 4) == hw
  {
    assert w / 0x20 == top * 0x4_0000 + hw * 0x1_0000 + imm && w / 0x20_0000 == top * 4 + hw;
    hide Decode, Encode;
  }

  lemma MovImmDecodes(inverted: bool, rd: nat, imm: nat, hw: nat)
    requires rd < 32 && imm < 0x1_0000 && hw < 4
    ensures Decode(Encode(MovImm(inverted, rd, imm, hw))) == Some(MovImm(inverted, rd, imm, hw))
  {
    hide Field;
    MovImmParts(Encode(MovImm(inverted, rd, imm, hw)), if inverted then 0x125 else 0x1a5, hw, imm, rd);
  }

  lemma MovRegParts(w: nat, rm: nat, rd: nat)
    requires w == 0xaa00_03e0 + rm * 0x1_0000 + rd && rd < 32 && rm < 32
    ensures w % 32 == rd && w / 0x80_0000 == 0x154 && w / 0x20_0000 == 0x550
    ensures Field(w, 0x1_0000, 32) == rm && Field(w, 0x20, 0x800) == 31
  {
    assert w / 0x1_0000 == 0xaa00 + rm && w / 0x20 == 0x550_0000 + rm * 0x800 + 31;
  }

  lemma MovRegDecodes(rd: nat, rm: nat)
    requires rd < 32 && rm < 32
    ensures Decode(Encode(MovReg(rd, rm))) == Some(MovReg(rd, rm))
  {
    MovRegParts(Encode(MovReg(rd, rm)), rm, rd);
    hide Field;
  }

  lemma CmpImmParts(w: nat, imm: nat, rn: nat)
    requires w == 0xf100_001f + imm * 0x400 + rn * 0x20 && rn < 32 && imm < 0x1000
    ensures w % 32 == 31 && w / 0x40_0000 == 0x3c4 && w / 0x80_0000 == 0x1e2 && w / 0x20_0000 == 0x788 + imm / 0x800
    ensures Field(w, 0x20, 32) == rn && Field(w, 0x400, 0x1000) == imm
  {
    assert w / 0x20 == 0x788_0000 + imm * 32 + rn && w / 0x400 == 0x3c_4000 + imm;
    hide Decode, Encode;
  }

  lemma CmpImmDecodes(rn: nat, imm: nat)
    requires rn < 32 && imm < 0x1000
    ensures Decode(Encode(CmpImm(rn, imm))) == Some(CmpImm(rn, imm))
  {
    hide Field;
    CmpImmParts(Encode(CmpImm(rn, imm)), imm, rn);
  }

  lemma CmpRegParts(w: nat, rm: nat, rn: nat)
    requires w == 0xeb00_001f + rm * 0x1_0000 + rn * 0x20 && rm < 32 && rn < 32
    ensures w % 32 == 31 && w / 0x20_0000 == 0x758 && w / 0x80_0000 == 0x1d6 && w / 0x40_0000 == 0x3ac
    ensures Field(w, 0x20, 32) == rn && Field(w, 0x1_0000, 32) == rm && Field(w, 0x400, 64) == 0
  {
    assert w / 0x20 == 0x758_0000 + rm * 0x800 + rn && w / 0x400 == 0x3a_c000 + rm * 64 && w / 0x1_0000 == 0xeb00 + rm;
  }

  lemma CmpRegDecodes(rn: nat, rm: nat)
    requires rn < 32 && rm < 32
    ensures Decode(Encode(CmpReg(rn, rm))) == Some(CmpReg(rn, rm))
  {
    hide Field;
    CmpRegParts(Encode(CmpReg(rn, rm)), rm, rn);
  }

  lemma AdrParts(w: nat, lo: nat, hi: nat, rd: nat)
    requires w == 0x1000_0000 + lo * 0x2000_0000 + hi * 0x20 + rd && lo < 4 && hi < 0x8_0000 && rd < 32
    ensures w % 32 == rd && w / 0x20 == 0x80_0000 + lo * 0x100_0000 + hi && w / 0x8000_0000 == 0
    ensures w / 0x2000_0000 == lo && w / 0x100_0000 == 16 + lo * 32 + hi / 0x8_0000
    ensures w / 0x20_0000 == 0x80 + lo * 0x100 + hi / 0x1_0000 && w / 0x80_0000 == 0x20 + lo * 0x40 + hi / 0x4_0000
    ensures w / 0x40_0000 == 0x40 + lo * 0x80 + hi / 0x2_0000
    ensures Field(w, 0x20, 0x8_0000) == hi && Field(w, 0x2000_0000, 4) == lo && Field(w, 0x100_0000, 32) == 16
  {
    hide Decode, Encode;
  }

  lemma AdrDecodes(rd: nat, offset: int)
    requires rd < 32 && -0x10_0000 <= offset < 0x10_0000
    ensures Decode(Encode(Adr(rd, offset))) == Some(Adr(rd, offset))
  {
    var field := Wrap(offset, 0x20_0000);
    SignedWrap(offset, 0x20_0000);
    var hi, lo := field / 4, field % 4;
    var w := Encode(Adr(rd, offset));
    hide Wrap, Signed;
    hide Field;
    AdrParts(w, lo, hi, rd);
    hide Encode;
  }

  lemma BranchWordDecodes(offset: int)
    requires offset % 4 == 0 && -0x800_0000 <= offset < 0x800_0000
    ensures Decode(Encode(B(offset))) == Some(B(offset))
  {
    var field := Wrap(offset / 4, 0x400_0000);
    SignedWrap(offset / 4, 0x400_0000);
    var w := Encode(B(offset));
    assert w == 0x1400_0000 + field;
    assert w / 0x400_0000 == 5 && w % 0x400_0000 == field;
    assert w / 0x80_0000 == 40 + field / 0x80_0000 && w / 0x20_0000 == 160 + field / 0x20_0000;
    assert w / 0x40_0000 == 80 + field / 0x40_0000 && w / 0x100_0000 == 20 + field / 0x100_0000;
    hide Encode, Wrap, Signed;
  }

  lemma BCondParts(w: nat, field: nat, cond: nat)
    requires w == 0x5400_0000 + field * 0x20 + cond && field < 0x8_0000 && cond < 16
    ensures w % 16 == cond && w / 16 == 0x540_0000 + field * 2 && w / 0x20 == 0x2a0_0000 + field
    ensures w / 0x100_0000 == 0x54 && w / 0x400_0000 == 0x15 && w / 0x8000_0000 == 0
    ensures w / 0x80_0000 == 0xa8 + field / 0x4_0000 && w / 0x20_0000 == 0x2a0 + field / 0x1_0000
    ensures w / 0x40_0000 == 0x150 + field / 0x2_0000
    ensures Field(w, 16, 2) == 0 && Field(w, 0x20, 0x8_0000) == field && Field(w, 0x100_0000, 32) == 20
  {
    hide Decode, Encode;
  }

  lemma BCondDecodes(cond: nat, offset: int)
    requires cond < 16 && offset % 4 == 0 && -0x10_0000 <= offset < 0x10_0000
    ensures Decode(Encode(BCond(cond, offset))) == Some(BCond(cond, offset))
  {
    var field := Wrap(offset / 4, 0x8_0000);
    SignedWrap(offset / 4, 0x8_0000);
    var w := Encode(BCond(cond, offset));
    hide Wrap, Signed;
    hide Field;
    BCondParts(w, field, cond);
    hide Encode;
  }

  lemma CompareParts(w: nat, a: nat, n: nat, field: nat, rt: nat)
    requires w == 0x3400_0000 + a * 0x8000_0000 + n * 0x100_0000 + field * 0x20 + rt
    requires a < 2 && n < 2 && field < 0x8_0000 && rt < 32
    ensures w % 32 == rt && w / 0x20 == 0x1a0_0000 + a * 0x400_0000 + n * 0x8_0000 + field
    ensures w / 0x100_0000 == 0x34 + a * 0x80 + n && w / 0x200_0000 == 0x1a + a * 0x40 && w / 0x8000_0000 == a
    ensures w / 0x400_0000 == 0xd + a * 0x20
    ensures w / 0x80_0000 == 0x68 + a * 0x100 + n * 2 + field / 0x4_0000
    ensures w / 0x20_0000 == 0x1a0 + a * 0x400 + n * 8 + field / 0x1_0000
    ensures w / 0x40_0000 == 0xd0 + a * 0x200 + n * 4 + field / 0x2_0000
    ensures Field(w, 0x200_0000, 64) == 0x1a && Field(w, 0x100_0000, 2) == n && Field(w, 0x20, 0x8_0000) == field
            && Field(w, 0x100_0000, 32) == 20 + n
  {
    hide Decode, Encode;
  }

  lemma CompareBranchDecodes(wide: bool, nonzero: bool, rt: nat, offset: int)
    requires rt < 32 && offset % 4 == 0 && -0x10_0000 <= offset < 0x10_0000
    ensures Decode(Encode(CompareBranch(wide, nonzero, rt, offset))) == Some(CompareBranch(wide, nonzero, rt, offset))
  {
    var field := Wrap(offset / 4, 0x8_0000);
    SignedWrap(offset / 4, 0x8_0000);
    var a, n := if wide then 1 else 0, if nonzero then 1 else 0;
    var w := Encode(CompareBranch(wide, nonzero, rt, offset));
    hide Wrap, Signed;
    hide Field;
    CompareParts(w, a, n, field, rt);
    hide Encode;
  }

  lemma LoadStoreParts(w: nat, n: nat, field: nat, rn: nat, rt: nat)
    requires w == 0xf900_0000 + n * 0x40_0000 + field * 0x400 + rn * 0x20 + rt
    requires n < 2 && field < 0x1000 && rn < 32 && rt < 32
    ensures w % 32 == rt && w / 0x20 == 0x7c8_0000 + n * 0x2_0000 + field * 0x20 + rn
    ensures w / 0x400 == 0x3e_4000 + n * 0x1000 + field && w / 0x40_0000 == 0x3e4 + n
    ensures w / 0x20_0000 == 0x7c8 + n * 2 + field / 0x800 && w / 0x80_0000 == 0x1f2 && w / 0x100_0000 == 0xf9
    ensures w / 0x200_0000 == 0x7c && w / 0x400_0000 == 0x3e && w / 0x8000_0000 == 1
    ensures Field(w, 0x20, 32) == rn && Field(w, 0x400, 0x1000) == field && Field(w, 0x200_0000, 64) == 0x3c
  {
    hide Decode, Encode;
  }

  lemma LoadStoreDecodes(load: bool, rt: nat, rn: nat, offset: int)
    requires rt < 32 && rn < 32 && offset % 8 == 0 && 0 <= offset < 0x8000
    ensures var i := if load then Ldr(rt, rn, offset) else Str(rt, rn, offset); Decode(Encode(i)) == Some(i)
  {
    var field, n := offset / 8, if load then 1 else 0;
    assert Wrap(field, 0x1000) == field;
    var w := Encode(if load then Ldr(rt, rn, offset) else Str(rt, rn, offset));
    hide Wrap;
    hide Field;
    LoadStoreParts(w, n, field, rn, rt);
    hide Encode;
  }

  /** Every plain instruction the packager audits is read back from its encoding. */
  lemma DecodeInverts(i: Inst)
    requires Encodable(i)
    ensures Decode(Encode(i)) == Some(i)
  {
    match i
    case Svc =>
    case Nop =>
    case MovImm(_, _, _, _) => MovDecodes(i);
    case MovReg(_, _) => MovDecodes(i);
    case CmpImm(rn, imm) => CmpImmDecodes(rn, imm);
    case CmpReg(rn, rm) => CmpRegDecodes(rn, rm);
    case Adr(rd, offset) => AdrDecodes(rd, offset);
    case B(offset) => BranchWordDecodes(offset);
    case BCond(cond, offset) => BCondDecodes(cond, offset);
    case CompareBranch(wide, nonzero, rt, offset) => CompareBranchDecodes(wide, nonzero, rt, offset);
    case Ldr(rt, rn, offset) => LoadStoreDecodes(true, rt, rn, offset);
    case Str(rt, rn, offset) => LoadStoreDecodes(false, rt, rn, offset);
  }

  // ---- memory ----

  type Memory = map<nat, nat>

  function Load(m: Memory, a: nat): (b: nat)
    ensures b < 256
  {
    if a in m then m[a] % 256 else 0
  }

  /** `n` bytes at `a`, low byte first. */
  function Read(m: Memory, a: nat, n: nat): (v: nat)
    decreases n
  {
    if n == 0 then 0 else Load(m, a) + 256 * Read(m, a + 1, n - 1)
  }

  function WriteBytes(m: Memory, a: nat, v: nat, n: nat): Memory
    decreases n
  {
    if n == 0 then m else WriteBytes(m[a := v % 256], a + 1, v / 256, n - 1)
  }

  function Write(m: Memory, a: nat, v: nat): Memory {
    WriteBytes(m, a, v, 8)
  }

  lemma {:induction false} ReadBounded(m: Memory, a: nat, n: nat)
    ensures Read(m, a, n) < Power(n)
    decreases n
  {
    if n > 0 { ReadBounded(m, a + 1, n - 1); }
  }

  lemma {:induction false} WriteElsewhere(m: Memory, a: nat, v: nat, n: nat, b: nat)
    requires b < a || a + n <= b
    ensures Load(WriteBytes(m, a, v, n), b) == Load(m, b)
    decreases n
  {
    if n > 0 { WriteElsewhere(m[a := v % 256], a + 1, v / 256, n - 1, b); }
  }

  lemma {:induction false} WriteReadBytes(m: Memory, a: nat, v: nat, n: nat)
    requires v < Power(n)
    ensures Read(WriteBytes(m, a, v, n), a, n) == v
    decreases n
  {
    if n > 0 {
      var m' := m[a := v % 256];
      WriteElsewhere(m', a + 1, v / 256, n - 1, a);
      WriteReadBytes(m', a + 1, v / 256, n - 1);
    }
  }

  lemma {:induction false} ReadSame(m: Memory, m': Memory, a: nat, n: nat)
    requires forall b {:trigger Load(m', b)} :: a <= b < a + n ==> Load(m', b) == Load(m, b)
    ensures Read(m', a, n) == Read(m, a, n)
    decreases n
  {
    if n > 0 {
      ReadSame(m, m', a + 1, n - 1);
    }
  }

  /** The same bytes written on both sides keep two memories as equal as they were. */
  lemma {:induction false} WriteAlike(m: Memory, m': Memory, a: nat, v: nat, n: nat, b: nat)
    requires Load(m, b) == Load(m', b)
    ensures Load(WriteBytes(m, a, v, n), b) == Load(WriteBytes(m', a, v, n), b)
    decreases n
  {
    if n > 0 { WriteAlike(m[a := v % 256], m'[a := v % 256], a + 1, v / 256, n - 1, b); }
  }

  lemma ReadWord(m: Memory, a: nat)
    ensures Read(m, a, 8) < U64_LIMIT
  {
    ReadBounded(m, a, 8);
    Power4And8();
  }

  /** A stored register reads back, and other places are untouched. */
  lemma WriteRead(m: Memory, a: nat, v: nat, b: nat)
    requires v < U64_LIMIT
    ensures Read(Write(m, a, v), a, 8) == v
    ensures b + 8 <= a || a + 8 <= b ==> Read(Write(m, a, v), b, 8) == Read(m, b, 8)
  {
    Power4And8();
    WriteReadBytes(m, a, v, 8);
    if b + 8 <= a || a + 8 <= b {
      forall c | b <= c < b + 8 ensures Load(Write(m, a, v), c) == Load(m, c) { WriteElsewhere(m, a, v, 8, c); }
      ReadSame(m, Write(m, a, v), b, 8);
    }
  }

  // ---- executing ----

  /** A system call as the dispatcher sees it. */
  datatype Event = Call(number: nat, arguments: seq<nat>)

  /** What the dispatcher answers, and the guest memory it fills in. */
  datatype Response = Response(result: nat, writes: Memory)

  /** What an AAPCS64 callee may leave in the registers it need not preserve and below its stack pointer. */
  datatype Clobber = Clobber(x: seq<nat>, flags: nat, writes: Memory)

  datatype State = State(x: seq<nat>, sp: nat, flags: nat, pc: int, mem: Memory, trace: seq<Event>)

  /** The machine around a guest: where its image lies, its stack's lower end, and the dispatcher, which answers from
      the calls so far, this call and the guest's memory, and may leave anything behind. */
  datatype Host = Host(base: nat, low: nat, entry: nat, context: nat,
                       respond: (seq<Event>, Event, Memory) -> Response, clobber: State -> Clobber)

  predicate Valid(s: State) {
    |s.x| == 31 && s.flags < 16 && s.sp < U64_LIMIT && forall r {:trigger s.x[r]} :: 0 <= r < 31 ==> s.x[r] < U64_LIMIT
  }

  /** Register 31 reads as zero, or as the stack pointer when it is a base. */
  function Get(s: State, r: nat): nat
    requires |s.x| == 31 && r < 32
  {
    if r == 31 then 0 else s.x[r]
  }

  function GetBase(s: State, r: nat): nat
    requires |s.x| == 31 && r < 32
  {
    if r == 31 then s.sp else s.x[r]
  }

  function Set(s: State, r: nat, v: nat): State
    requires |s.x| == 31 && r < 32
  {
    if r == 31 then s else s.(x := s.x[r := v])
  }

  function SetBase(s: State, r: nat, v: nat): State
    requires |s.x| == 31 && r < 32
  {
    if r == 31 then s.(sp := v) else s.(x := s.x[r := v])
  }

  function Shift(hw: nat): nat {
    if hw == 0 then 1 else if hw == 1 then 0x1_0000 else if hw == 2 then 0x1_0000_0000 else 0x1_0000_0000_0000
  }

  /** NZCV after subtracting `b` from `a`. */
  function Compare(a: nat, b: nat): (f: nat)
    ensures f < 16
  {
    var difference := (a - b) % U64_LIMIT;
    var half := U64_LIMIT / 2;
    (if difference >= half then 8 else 0) + (if difference == 0 then 4 else 0) + (if a >= b then 2 else 0)
    + if (a >= half) != (b >= half) && (difference >= half) != (a >= half) then 1 else 0
  }

  predicate Met(cond: nat, flags: nat) {
    var n, z, c, v := flags / 8 % 2 == 1, flags / 4 % 2 == 1, flags / 2 % 2 == 1, flags % 2 == 1;
    var base := match cond / 2 case 0 => z case 1 => c case 2 => n case 3 => v case 4 => c
        && !z case 5 => n == v case 6 => n == v && !z case _ => true;
    if cond % 2 == 1 && cond != 15 then !base else base
  }

  function Forward(s: State): State {
    s.(pc := s.pc + 4)
  }

  /** A store or load of two registers at `a`. */
  function StorePair(s: State, rt: nat, rt2: nat, a: nat): State
    requires |s.x| == 31 && rt < 32 && rt2 < 32
  {
    s.(mem := Write(Write(s.mem, a, Get(s, rt)), a + 8, Get(s, rt2)))
  }

  function LoadPair(s: State, rt: nat, rt2: nat, a: nat): State
    requires |s.x| == 31 && rt < 32 && rt2 < 32
  {
    Set(Set(s, rt, Read(s.mem, a, 8)), rt2, Read(s.mem, a + 8, 8))
  }

  /** The memory a callee may change is the stack below its caller's stack pointer. */
  function Below(writes: Memory, low: nat, sp: nat): Memory {
    map a | a in writes && low <= a < sp :: writes[a]
  }

  function ClobberedRegister(s: State, r: Response, c: Clobber, i: nat): nat
    requires |s.x| == 31 && i < 31
  {
    if i == 0 then r.result
    else if 19 <= i <= 29 then s.x[i]
    else if i < |c.x| then c.x[i] % U64_LIMIT else 0
  }

  /** The host function reached through `BLR`, seen as one step. */
  function CallHost(h: Host, s: State): State
    requires |s.x| == 31
  {
    var call := Call(s.x[1], s.x[2..8]);
    var r, c := h.respond(s.trace, call, s.mem), h.clobber(s);
    s.(x := seq(31, i requires 0 <= i < 31 => ClobberedRegister(s, r, c, i)), flags := c.flags % 16, pc := s.pc + 4,
       mem := s.mem + Below(c.writes, h.low, s.sp) + r.writes, trace := s.trace + [call])
  }

  /** The call a guest about to execute SVC makes: its number is in x8, its arguments in x0 to x5. */
  function Wanted(s: State): Event
    requires |s.x| == 31
  {
    Call(s.x[8], s.x[0..6])
  }

  function Asked(h: Host, s: State): Response
    requires |s.x| == 31
  {
    h.respond(s.trace, Wanted(s), s.mem)
  }

  /** A Linux system call: only x0 and memory change. */
  function CallKernel(h: Host, s: State): State
    requires |s.x| == 31
  {
    var r := Asked(h, s);
    s.(x := s.x[0 := r.result], pc := s.pc + 4, mem := s.mem + r.writes, trace := s.trace + [Wanted(s)])
  }

  predicate Registers(i: Inst) {
    match i
    case MovImm(_, rd, _, hw) => rd < 32 && hw < 4
    case MovReg(rd, rm) => rd < 32 && rm < 32
    case CmpImm(rn, _) => rn < 32
    case CmpReg(rn, rm) => rn < 32 && rm < 32
    case Adr(rd, _) => rd < 32
    case CompareBranch(_, _, rt, _) => rt < 32
    case Ldr(rt, rn, _) => rt < 32 && rn < 32
    case Str(rt, rn, _) => rt < 32 && rn < 32
    case StpPre(rt, rt2, rn, _) => rt < 32 && rt2 < 32 && rn < 32
    case Stp(rt, rt2, rn, _) => rt < 32 && rt2 < 32 && rn < 32
    case Ldp(rt, rt2, rn, _) => rt < 32 && rt2 < 32 && rn < 32
    case LdpPost(rt, rt2, rn, _) => rt < 32 && rt2 < 32 && rn < 32
    case MrsFlags(rt) => rt < 32
    case MsrFlags(rt) => rt < 32
    case Blr(rn) => rn < 32
    case _ => true
  }

  lemma DecodeRegisters(w: nat)
    ensures Decode(w).Some? ==> Registers(Decode(w).value)
  {
    hide Signed;
  }

  function Address(base: nat, offset: int): nat {
    (base + offset) % U64_LIMIT
  }

  function Execute(h: Host, s: State, i: Inst): Option<State>
    requires |s.x| == 31 && Registers(i)
  {
    match i
    case Svc => Some(CallKernel(h, s))
    case Nop => Some(Forward(s))
    case MovImm(inverted, rd, imm, hw) => Some(Forward(Set(s, rd,
        if inverted then (U64_LIMIT - 1 - imm * Shift(hw)) % U64_LIMIT else imm * Shift(hw) % U64_LIMIT)))
    case MovReg(rd, rm) => Some(Forward(Set(s, rd, Get(s, rm))))
    case CmpImm(rn, imm) => Some(Forward(s.(flags := Compare(GetBase(s, rn), imm))))
    case CmpReg(rn, rm) => Some(Forward(s.(flags := Compare(Get(s, rn), Get(s, rm)))))
    case Adr(rd, offset) => Some(Forward(Set(s, rd, (h.base + s.pc + offset) % U64_LIMIT)))
    case B(offset) => Some(s.(pc := s.pc + offset))
    case BCond(cond, offset) => Some(if Met(cond, s.flags) then s.(pc := s.pc + offset) else Forward(s))
    case CompareBranch(wide, nonzero, rt, offset) =>
      var value := if wide then Get(s, rt) else Get(s, rt) % U32_LIMIT;
      Some(if (value != 0) == nonzero then s.(pc := s.pc + offset) else Forward(s))
    case Ldr(rt, rn, offset) => Some(Forward(Set(s, rt, Read(s.mem, Address(GetBase(s, rn), offset), 8))))
    case Str(rt, rn, offset) => Some(Forward(s.(mem := Write(s.mem, Address(GetBase(s, rn), offset), Get(s, rt)))))
    case StpPre(rt, rt2, rn, offset) =>
      var a := Address(GetBase(s, rn), offset);
      Some(Forward(SetBase(StorePair(s, rt, rt2, a), rn, a)))
    case Stp(rt, rt2, rn, offset) => Some(Forward(StorePair(s, rt, rt2, Address(GetBase(s, rn), offset))))
    case Ldp(rt, rt2, rn, offset) => Some(Forward(LoadPair(s, rt, rt2, Address(GetBase(s, rn), offset))))
    case LdpPost(rt, rt2, rn, offset) =>
      var a := GetBase(s, rn);
      Some(Forward(SetBase(LoadPair(s, rt, rt2, a), rn, Address(a, offset))))
    case MrsFlags(rt) => Some(Forward(Set(s, rt, s.flags * 0x1000_0000)))
    case MsrFlags(rt) => Some(Forward(s.(flags := Get(s, rt) / 0x1000_0000 % 16)))
    case Blr(rn) => if Get(s, rn) == h.entry && s.x[0] == h.context then Some(CallHost(h, s)) else None
  }

  /** One instruction from the first `limit` bytes of `code`; stuck outside them and on words it does not know. */
  function Step(code: seq<byte>, limit: nat, h: Host, s: State): Option<State>
    requires limit <= |code| && |s.x| == 31
  {
    if s.pc < 0 || s.pc % 4 != 0 || s.pc + 4 > limit then None
    else
      var i := Decode(Word(code, s.pc));
      DecodeRegisters(Word(code, s.pc));
      if i.None? then None else Execute(h, s, i.value)
  }

  lemma ExecuteRegisters(h: Host, s: State, i: Inst)
    requires |s.x| == 31 && Registers(i)
    ensures Execute(h, s, i).Some? ==> |Execute(h, s, i).value.x| == 31
  {
    hide Read, Write, Compare, Met, Below;
  }

  lemma StepRegisters(code: seq<byte>, limit: nat, h: Host, s: State)
    requires limit <= |code| && |s.x| == 31
    ensures Step(code, limit, h, s).Some? ==> |Step(code, limit, h, s).value.x| == 31
  {
    hide Decode, Execute, Word;
    if 0 <= s.pc && s.pc + 4 <= limit {
      var i := Decode(Word(code, s.pc));
      DecodeRegisters(Word(code, s.pc));
      if i.Some? { ExecuteRegisters(h, s, i.value); }
    }
  }

  function Run(code: seq<byte>, limit: nat, h: Host, s: State, n: nat): (r: Option<State>)
    requires limit <= |code| && |s.x| == 31
    ensures r.Some? ==> |r.value.x| == 31
    decreases n
  {
    if n == 0 then Some(s)
    else
      var s' := Step(code, limit, h, s);
      StepRegisters(code, limit, h, s);
      if s'.None? then None else Run(code, limit, h, s'.value, n - 1)
  }

  lemma {:induction false} RunAppend(code: seq<byte>, limit: nat, h: Host, s: State, n: nat, m: nat)
    requires limit <= |code| && |s.x| == 31 && Run(code, limit, h, s, n).Some?
    ensures Run(code, limit, h, s, n + m) == Run(code, limit, h, Run(code, limit, h, s, n).value, m)
    decreases n
  {
    hide Step;
    if n > 0 {
      StepRegisters(code, limit, h, s);
      RunAppend(code, limit, h, Step(code, limit, h, s).value, n - 1, m);
    }
  }
}
