/**
  From an instruction word to a code template and its baked parameters: field extraction, sign
  extension, and the dispatch over opcode, funct3 and funct7.
 */
module Translator {
  import opened Words
  import opened Collections
  import Isa

  // ---- sign extension ----

  /** Bit `position` of `data`. */
  function BitAt(data: Word, position: nat): int {
    data / Pow2(position) % 2
  }

  /** `data | (1 << position)`. */
  function SetBit(data: int, position: nat): int {
    if data / Pow2(position) % 2 == 1 then data else data + Pow2(position)
  }

  /** All bits from `signBit` upwards become copies of a set sign bit; a clear one changes nothing. */
  function SignExtend(data: Word, signBit: nat): Word
    requires signBit <= 31
  {
    if BitAt(data, signBit) == 1 then Wrap(data % Pow2(signBit) - Pow2(signBit)) else data
  }

  /** What setting every bit from `low` up to `high` makes of `data`. */
  ghost function Filled(data: int, low: nat, high: nat): int {
    data % Pow2(low) + (Pow2(high) - Pow2(low)) + data / Pow2(high) * Pow2(high)
  }

  lemma SmallMultiple(k: int, d: int)
    requires d > 0 && k != 0
    ensures k * d >= d || k * d <= -d
  {
  }

  lemma QuotientUnique(n: int, d: nat, q: int, r: nat)
    requires d > 0 && n == q * d + r && r < d
    ensures n / d == q && n % d == r
  {
    var k := q - n / d;
    assert k * d == n % d - r;
    if k != 0 {
      SmallMultiple(k, d);
    }
  }

  lemma DivisionByDouble(data: nat, p: nat)
    requires p > 0
    ensures data / p == 2 * (data / (2 * p)) + data / p % 2
  {
    var q, r := data / (2 * p), data % (2 * p);
    assert data == q * (2 * p) + r;
    assert data == (2 * q) * p + r;
    if r < p {
      QuotientUnique(data, p, 2 * q, r);
    } else {
      QuotientUnique(data, p, 2 * q + 1, r - p);
    }
  }

  lemma Regroup(q: int, q2: int, e: int, p: int)
    requires q == 2 * q2 + e
    ensures q * p == q2 * (2 * p) + e * p
  {
  }

  lemma FillOne(data: nat, low: nat, high: nat)
    requires low <= high
    ensures SetBit(Filled(data, low, high), high) == Filled(data, low, high + 1)
  {
    var p, l := Pow2(high), Pow2(low);
    Pow2Monotone(low, high);
    var q, q2, r := data / p, data / (2 * p), data % l + (p - l);
    assert 0 <= r < p;
    QuotientUnique(q * p + r, p, q, r);
    DivisionByDouble(data, p);
    Regroup(q, q2, q % 2, p);
    assert Filled(data, low, high + 1) == data % l + (2 * p - l) + q2 * (2 * p);
  }

  /** `sign_extend32`: the loop that or-s the sign into each higher position. */
  method SignExtend32(data: Word, signBit: nat) returns (ret: Word)
    requires signBit <= 31
    ensures ret == SignExtend(data, signBit)
  {
    var acc: int := data;
    var sign := BitAt(data, signBit);
    var position := signBit;
    Pow2Of32();
    assert sign == 1 ==> acc == Filled(data, signBit, signBit);
    while position <= 31
      invariant signBit <= position <= 32
      invariant acc == if sign == 1 then Filled(data, signBit, position) else data
    {
      if sign == 1 {
        FillOne(data, signBit, position);
        acc := SetBit(acc, position);
      }
      position := position + 1;
    }
    if sign == 1 {
      assert data / Pow2(32) == 0;
      Pow2Monotone(signBit, 31);
      assert acc == data % Pow2(signBit) + TWO32 - Pow2(signBit);
    }
    ret := acc;
  }

  // ---- decoding ----

  datatype Encoding = TypeU | TypeI | TypeUJ | TypeS | TypeB | TypeR

  /** `struct decoding`; fields an encoding does not have stay zero. */
  datatype Decoding = Decoding(funct3: int, rd: Isa.RegId, rs1: Isa.RegId, rs2: Isa.RegId, funct7: int, imm: Word)

  // A mask-and-shift is a division and a remainder, and or-ing fields into disjoint positions is adding them.

  function FieldI(w: Word): Word { w / 0x10_0000 % 0x1000 }

  function FieldS(w: Word): Word { w / 0x80 % 0x20 + w / 0x200_0000 % 0x80 * 0x20 }

  function FieldB(w: Word): Word {
    w / 0x100 % 0x10 + w / 0x200_0000 % 0x40 * 0x10 + w / 0x80 % 2 * 0x400 + w / 0x8000_0000 % 2 * 0x800
  }

  function FieldU(w: Word): Word { w / 0x1000 % 0x10_0000 }

  function FieldUJ(w: Word): Word {
    w / 0x20_0000 % 0x400 + w / 0x10_0000 % 2 * 0x400 + w / 0x1000 % 0x100 * 0x800 + w / 0x8000_0000 % 2 * 0x8_0000
  }

  /** `instruction_decoding_per_type`. */
  function DecodePerType(w: Word, encoding: Encoding): Decoding {
    var rd := w / 0x80 % 0x20;
    var f3 := w / 0x1000 % 8;
    var rs1 := w / 0x8000 % 0x20;
    var rs2 := w / 0x10_0000 % 0x20;
    match encoding
    case TypeU => Decoding(0, rd, 0, 0, 0, FieldU(w))
    case TypeUJ => Decoding(0, rd, 0, 0, 0, FieldUJ(w))
    case TypeI => Decoding(f3, rd, rs1, 0, 0, FieldI(w))
    case TypeS => Decoding(f3, 0, rs1, rs2, 0, FieldS(w))
    case TypeB => Decoding(f3, 0, rs1, rs2, 0, FieldB(w))
    case TypeR => Decoding(f3, rd, rs1, rs2, w / 0x200_0000 % 0x80, 0)
  }

  lemma SignExtendSmall(data: Word, bit: nat, p: nat)
    requires bit <= 31 && p == Pow2(bit) && data < 2 * p
    ensures SignExtend(data, bit) == Wrap(if data < p then data else data - 2 * p)
  {
    if data < p {
      QuotientUnique(data, p, 0, data);
    } else {
      QuotientUnique(data, p, 1, data - p);
    }
  }

  lemma SignExtend11(data: Word)
    requires data < 0x1000
    ensures SignExtend(data, 11) == Wrap(if data < 0x800 then data else data - 0x1000)
  {
    Pow2Values();
    SignExtendSmall(data, 11, 0x800);
  }

  lemma SignExtend12(field: Word, imm: int)
    requires field < 0x1000 && imm == if field < 0x800 then 2 * field else 2 * field - 0x2000
    ensures SignExtend(Wrap(field * 2), 12) == Wrap(imm)
  {
    Pow2Values();
    SignExtendSmall(field * 2, 12, 0x1000);
  }

  lemma SignExtend20(field: Word, imm: int)
    requires field < 0x10_0000 && imm == if field < 0x8_0000 then 2 * field else 2 * field - 0x20_0000
    ensures SignExtend(Wrap(field * 2), 20) == Wrap(imm)
  {
    Pow2Values();
    SignExtendSmall(field * 2, 20, 0x10_0000);
  }

  // The raw fields read as two's complement are the immediates of the ISA.

  lemma FieldIIsSigned(w: Word)
    ensures FieldI(w) < 0x1000 && Isa.ImmI(w) == if FieldI(w) < 0x800 then FieldI(w) else FieldI(w) - 0x1000
  {
    var x := w / 0x10_0000;
    assert Isa.Bit(w, 0x8000_0000) == x / 0x800;
  }

  lemma FieldSIsSigned(w: Word)
    ensures FieldS(w) < 0x1000 && Isa.ImmS(w) == if FieldS(w) < 0x800 then FieldS(w) else FieldS(w) - 0x1000
  {
    var x := w / 0x200_0000;
    assert Isa.Bit(w, 0x8000_0000) == x / 0x40;
  }

  lemma FieldBIsSigned(w: Word)
    ensures FieldB(w) < 0x1000 && Isa.ImmB(w) == if FieldB(w) < 0x800 then 2 * FieldB(w) else 2 * FieldB(w) - 0x2000
  {
  }

  lemma FieldUJIsSigned(w: Word)
    ensures FieldUJ(w) < 0x10_0000
    ensures Isa.ImmJ(w) == if FieldUJ(w) < 0x8_0000 then 2 * FieldUJ(w) else 2 * FieldUJ(w) - 0x20_0000
  {
  }

  lemma ImmediateI(w: Word)
    ensures SignExtend(FieldI(w), 11) == Wrap(Isa.ImmI(w))
  {
    FieldIIsSigned(w);
    SignExtend11(FieldI(w));
  }

  lemma ImmediateS(w: Word)
    ensures SignExtend(FieldS(w), 11) == Wrap(Isa.ImmS(w))
  {
    FieldSIsSigned(w);
    SignExtend11(FieldS(w));
  }

  lemma ImmediateB(w: Word)
    ensures SignExtend(Wrap(FieldB(w) * 2), 12) == Wrap(Isa.ImmB(w))
  {
    FieldBIsSigned(w);
    SignExtend12(FieldB(w), Isa.ImmB(w));
  }

  lemma ImmediateJ(w: Word)
    ensures SignExtend(Wrap(FieldUJ(w) * 2), 20) == Wrap(Isa.ImmJ(w))
  {
    FieldUJIsSigned(w);
    SignExtend20(FieldUJ(w), Isa.ImmJ(w));
  }

  // ---- templates and blocks ----

  datatype Template =
    | LuiT | AuipcT | JalT | JalrT
    | BranchT(cond: Isa.Cond)
    | LoadT(lop: Isa.LoadOp)
    | StoreT(size: Isa.Size)
    | AluImmT(aop: Isa.AluOp)
    | AluT(aop: Isa.AluOp)
    | MulDivT(mop: Isa.MulDivOp)
    | FenceT | FenceIT | EcallT

  /** A template that sets `is_to_stop`: it ends in a trap to the VMM instead of falling through. */
  predicate Stops(t: Template) {
    t.JalT? || t.JalrT? || t.BranchT? || t.FenceIT? || t.EcallT?
  }

  /** A template with the parameters patched in behind its code. */
  datatype Block = Block(t: Template, params: seq<Word>)

  function ParamCount(t: Template): nat {
    match t
    case LuiT => 2
    case JalrT => 4
    case FenceT => 1
    case FenceIT => 1
    case EcallT => 1
    case _ => 3
  }

  /** Which parameters a template uses as register numbers. */
  function RegParams(t: Template): set<nat> {
    match t
    case LuiT => {1}
    case AuipcT => {1}
    case JalT => {0}
    case JalrT => {0, 2}
    case BranchT(_) => {0, 1}
    case LoadT(_) => {1, 2}
    case StoreT(_) => {1, 2}
    case AluImmT(_) => {1, 2}
    case AluT(_) => {0, 1, 2}
    case MulDivT(_) => {0, 1, 2}
    case _ => {}
  }

  predicate ValidBlock(b: Block) {
    && |b.params| == ParamCount(b.t)
    && (forall i :: i in RegParams(b.t) ==> i < |b.params| && b.params[i] < 32)
    && (b.t.AluImmT? ==> b.t.aop != Isa.Sub)
  }

  /** What the translators make of a word: a block, a failed assertion, or the AMO opcode. */
  datatype Translation = Emit(block: Block) | Rejected | NotModelled

  function TranslateBranch(w: Word, pc: Word): (r: Translation)
    ensures r.Emit? ==> ValidBlock(r.block)
  {
    var dec := DecodePerType(w, TypeB);
    var target := Wrap(pc + SignExtend(Wrap(dec.imm * 2), 12));
    var params := [dec.rs1, dec.rs2, target];
    match dec.funct3
    case 0 => Emit(Block(BranchT(Isa.Eq), params))
    case 1 => Emit(Block(BranchT(Isa.Ne), params))
    case 4 => Emit(Block(BranchT(Isa.Lt), params))
    case 6 => Emit(Block(BranchT(Isa.Ltu), params))
    case 5 => Emit(Block(BranchT(Isa.Ge), params))
    case 7 => Emit(Block(BranchT(Isa.Geu), params))
    case _ => Rejected
  }

  function TranslateLoad(w: Word, pc: Word): (r: Translation)
    ensures r.Emit? ==> ValidBlock(r.block)
  {
    var dec := DecodePerType(w, TypeI);
    var params := [SignExtend(dec.imm, 11), dec.rs1, dec.rd];
    match dec.funct3
    case 0 => Emit(Block(LoadT(Isa.Lb), params))
    case 1 => Emit(Block(LoadT(Isa.Lh), params))
    case 2 => Emit(Block(LoadT(Isa.Lw), params))
    case 4 => Emit(Block(LoadT(Isa.Lbu), params))
    case 5 => Emit(Block(LoadT(Isa.Lhu), params))
    case _ => Rejected
  }

  function TranslateStore(w: Word, pc: Word): (r: Translation)
    ensures r.Emit? ==> ValidBlock(r.block)
  {
    var dec := DecodePerType(w, TypeS);
    var params := [SignExtend(dec.imm, 11), dec.rs1, dec.rs2];
    match dec.funct3
    case 0 => Emit(Block(StoreT(Isa.Byte8), params))
    case 1 => Emit(Block(StoreT(Isa.Half16), params))
    case 2 => Emit(Block(StoreT(Isa.Word32), params))
    case _ => Rejected
  }

  function TranslateAluImm(w: Word, pc: Word): (r: Translation)
    ensures r.Emit? ==> ValidBlock(r.block)
  {
    var dec := DecodePerType(w, TypeI);
    var signed := [SignExtend(dec.imm, 11), dec.rs1, dec.rd];
    var raw := [dec.imm, dec.rs1, dec.rd];
    match dec.funct3
    case 0 => Emit(Block(AluImmT(Isa.Add), signed))
    case 1 => Emit(Block(AluImmT(Isa.Sll), raw))
    case 2 => Emit(Block(AluImmT(Isa.Slt), signed))
    case 3 => Emit(Block(AluImmT(Isa.Sltu), signed))
    case 4 => Emit(Block(AluImmT(Isa.XorOp), signed))
    case 5 => if dec.imm / 0x400 % 2 == 0 then Emit(Block(AluImmT(Isa.Srl), raw))
      else Emit(Block(AluImmT(Isa.Sra), raw))
    case 6 => Emit(Block(AluImmT(Isa.OrOp), signed))
    case _ => Emit(Block(AluImmT(Isa.AndOp), signed))
  }

  /** Only the low two bits of funct7 choose the class, and only add/sub and the right shifts look at the rest. */
  function TranslateOp(w: Word, pc: Word): (r: Translation)
    ensures r.Emit? ==> ValidBlock(r.block)
  {
    var dec := DecodePerType(w, TypeR);
    var params := [dec.rs1, dec.rs2, dec.rd];
    if dec.funct7 % 4 == 0 then
      match dec.funct3
      case 0 =>
        if dec.funct7 == 0x20 then Emit(Block(AluT(Isa.Sub), params))
        else if dec.funct7 == 0 then Emit(Block(AluT(Isa.Add), params)) else Rejected
      case 1 => Emit(Block(AluT(Isa.Sll), params))
      case 2 => Emit(Block(AluT(Isa.Slt), params))
      case 3 => Emit(Block(AluT(Isa.Sltu), params))
      case 4 => Emit(Block(AluT(Isa.XorOp), params))
      case 5 =>
        if dec.funct7 == 0x20 then Emit(Block(AluT(Isa.Sra), params))
        else if dec.funct7 == 0 then Emit(Block(AluT(Isa.Srl), params)) else Rejected
      case 6 => Emit(Block(AluT(Isa.OrOp), params))
      case _ => Emit(Block(AluT(Isa.AndOp), params))
    else if dec.funct7 % 4 == 1 then
      match dec.funct3
      case 0 => Emit(Block(MulDivT(Isa.Mul), params))
      case 1 => Emit(Block(MulDivT(Isa.Mulh), params))
      case 2 => Emit(Block(MulDivT(Isa.Mulhsu), params))
      case 3 => Emit(Block(MulDivT(Isa.Mulhu), params))
      case 4 => Emit(Block(MulDivT(Isa.Div), params))
      case 5 => Emit(Block(MulDivT(Isa.Divu), params))
      case 6 => Emit(Block(MulDivT(Isa.Rem), params))
      case _ => Emit(Block(MulDivT(Isa.Remu), params))
    else
      Rejected
  }

  function TranslateUpper(w: Word, pc: Word): (r: Translation)
    ensures r.Emit? ==> ValidBlock(r.block)
  {
    var dec := DecodePerType(w, TypeU);
    if w % 0x80 == 0x37 then Emit(Block(LuiT, [dec.imm, dec.rd])) else Emit(Block(AuipcT, [dec.imm, dec.rd, pc]))
  }

  function TranslateJal(w: Word, pc: Word): (r: Translation)
    ensures r.Emit? ==> ValidBlock(r.block)
  {
    var dec := DecodePerType(w, TypeUJ);
    Emit(Block(JalT, [dec.rd, Wrap(pc + 4), Wrap(pc + SignExtend(Wrap(dec.imm * 2), 20))]))
  }

  function TranslateJalr(w: Word, pc: Word): (r: Translation)
    ensures r.Emit? ==> ValidBlock(r.block)
  {
    var dec := DecodePerType(w, TypeI);
    Emit(Block(JalrT, [dec.rd, Wrap(pc + 4), dec.rs1, SignExtend(dec.imm, 11)]))
  }

  function TranslateFence(w: Word, pc: Word): (r: Translation)
    ensures r.Emit? ==> ValidBlock(r.block)
  {
    var dec := DecodePerType(w, TypeS);
    if dec.funct3 == 0 then Emit(Block(FenceT, [pc]))
    else if dec.funct3 == 1 then Emit(Block(FenceIT, [pc]))
    else Rejected
  }

  function TranslateSystem(w: Word, pc: Word): (r: Translation)
    ensures r.Emit? ==> ValidBlock(r.block)
  {
    var dec := DecodePerType(w, TypeS);
    if dec.funct3 == 0 && dec.rs2 == 0 then Emit(Block(EcallT, [pc])) else Rejected
  }

  /** The `translators` table, indexed by opcode. */
  function TranslatorFor(opcode: int): (Word, Word) -> Translation {
    match opcode
    case 0x37 => TranslateUpper
    case 0x17 => TranslateUpper
    case 0x6f => TranslateJal
    case 0x67 => TranslateJalr
    case 0x63 => TranslateBranch
    case 0x03 => TranslateLoad
    case 0x23 => TranslateStore
    case 0x13 => TranslateAluImm
    case 0x33 => TranslateOp
    case 0x0f => TranslateFence
    case 0x73 => TranslateSystem
    case 0x2f => (w, pc) => NotModelled
    case _ => (w, pc) => Rejected
  }

  /** `prefetch_one_instruction` up to the choice of template and parameters. */
  function Translate(w: Word, pc: Word): Translation {
    TranslatorFor(w % 0x80)(w, pc)
  }

  lemma EmittedIsValid(w: Word, pc: Word)
    requires Translate(w, pc).Emit?
    ensures ValidBlock(Translate(w, pc).block)
  {
    match w % 0x80
    case 0x37 => assert Translate(w, pc) == TranslateUpper(w, pc);
    case 0x17 => assert Translate(w, pc) == TranslateUpper(w, pc);
    case 0x6f => assert Translate(w, pc) == TranslateJal(w, pc);
    case 0x67 => assert Translate(w, pc) == TranslateJalr(w, pc);
    case 0x63 => assert Translate(w, pc) == TranslateBranch(w, pc);
    case 0x03 => assert Translate(w, pc) == TranslateLoad(w, pc);
    case 0x23 => assert Translate(w, pc) == TranslateStore(w, pc);
    case 0x13 => assert Translate(w, pc) == TranslateAluImm(w, pc);
    case 0x33 => assert Translate(w, pc) == TranslateOp(w, pc);
    case 0x0f => assert Translate(w, pc) == TranslateFence(w, pc);
    case 0x73 => assert Translate(w, pc) == TranslateSystem(w, pc);
    case _ =>
  }

  /** The block a decoded instruction should become at `pc`. */
  function BlockOf(i: Isa.Instr, pc: Word): Block {
    match i
    case Lui(rd, imm) => Block(LuiT, [Wrap(imm) / 0x1000, rd])
    case Auipc(rd, imm) => Block(AuipcT, [Wrap(imm) / 0x1000, rd, pc])
    case Jal(rd, imm) => Block(JalT, [rd, Wrap(pc + 4), Wrap(pc + imm)])
    case Jalr(rd, rs1, imm) => Block(JalrT, [rd, Wrap(pc + 4), rs1, Wrap(imm)])
    case Branch(c, rs1, rs2, imm) => Block(BranchT(c), [rs1, rs2, Wrap(pc + imm)])
    case Load(op, rd, rs1, imm) => Block(LoadT(op), [Wrap(imm), rs1, rd])
    case Store(size, rs1, rs2, imm) => Block(StoreT(size), [Wrap(imm), rs1, rs2])
    case OpImm(op, rd, rs1, imm) =>
      Block(AluImmT(op), [if op == Isa.Sra then Wrap(imm + 0x400) else Wrap(imm), rs1, rd])
    case Op(op, rd, rs1, rs2) => Block(AluT(op), [rs1, rs2, rd])
    case MulDiv(op, rd, rs1, rs2) => Block(MulDivT(op), [rs1, rs2, rd])
    case Fence => Block(FenceT, [pc])
    case FenceI => Block(FenceIT, [pc])
    case Ecall => Block(EcallT, [pc])
  }

  lemma SameTarget(pc: Word, extended: Word, imm: int)
    requires extended == Wrap(imm)
    ensures Wrap(pc + extended) == Wrap(pc + imm)
  {
    WrapAbsorbs(imm, pc);
  }

  lemma JalTarget(w: Word, pc: Word)
    ensures Wrap(pc + SignExtend(Wrap(FieldUJ(w) * 2), 20)) == Wrap(pc + Isa.ImmJ(w))
  {
    ImmediateJ(w);
    SameTarget(pc, SignExtend(Wrap(FieldUJ(w) * 2), 20), Isa.ImmJ(w));
  }

  lemma BranchTarget(w: Word, pc: Word)
    ensures Wrap(pc + SignExtend(Wrap(FieldB(w) * 2), 12)) == Wrap(pc + Isa.ImmB(w))
  {
    ImmediateB(w);
    SameTarget(pc, SignExtend(Wrap(FieldB(w) * 2), 12), Isa.ImmB(w));
  }

  lemma Upper(w: Word, pc: Word)
    ensures w % 0x80 == 0x37 ==> TranslateUpper(w, pc) == Emit(BlockOf(Isa.Lui(Isa.Rd(w), Isa.ImmU(w)), pc))
    ensures w % 0x80 == 0x17 ==> TranslateUpper(w, pc) == Emit(BlockOf(Isa.Auipc(Isa.Rd(w), Isa.ImmU(w)), pc))
  {
    assert Wrap(Isa.ImmU(w)) / 0x1000 == FieldU(w);
  }

  lemma JumpAndLink(w: Word, pc: Word)
    ensures TranslateJal(w, pc) == Emit(BlockOf(Isa.Jal(Isa.Rd(w), Isa.ImmJ(w)), pc))
  {
    JalTarget(w, pc);
    hide SignExtend, FieldUJ, Isa.ImmJ;
  }

  lemma JumpAndLinkRegister(w: Word, pc: Word)
    ensures TranslateJalr(w, pc) == Emit(BlockOf(Isa.Jalr(Isa.Rd(w), Isa.Rs1(w), Isa.ImmI(w)), pc))
  {
    ImmediateI(w);
  }

  lemma Branches(w: Word, pc: Word)
    requires w % 0x80 == 0x63 && Isa.Decode(w).Some?
    ensures TranslateBranch(w, pc) == Emit(BlockOf(Isa.Decode(w).value, pc))
  {
    BranchTarget(w, pc);
  }

  lemma Loads(w: Word, pc: Word)
    requires w % 0x80 == 0x03 && Isa.Decode(w).Some?
    ensures TranslateLoad(w, pc) == Emit(BlockOf(Isa.Decode(w).value, pc))
  {
    ImmediateI(w);
  }

  lemma Stores(w: Word, pc: Word)
    requires w % 0x80 == 0x23 && Isa.Decode(w).Some?
    ensures TranslateStore(w, pc) == Emit(BlockOf(Isa.Decode(w).value, pc))
  {
    ImmediateS(w);
  }

  lemma ShiftField(w: Word)
    ensures FieldI(w) == Isa.Funct7(w) * 0x20 + Isa.Rs2(w)
  {
  }

  /** The shift field, read back from funct7 and the shift amount. */
  lemma ShiftParam(funct7: int, shamt: int)
    requires funct7 in {0, 0x20} && 0 <= shamt < 0x20
    ensures var f := funct7 * 0x20 + shamt;
      f == (if funct7 == 0 then Wrap(shamt) else Wrap(shamt + 0x400)) && f / 0x400 % 2 == (if funct7 == 0 then 0 else 1)
  {
  }

  lemma ImmediateShifts(w: Word, pc: Word)
    requires w % 0x80 == 0x13 && Isa.Funct3(w) in {1, 5} && Isa.Decode(w).Some?
    ensures TranslateAluImm(w, pc) == Emit(BlockOf(Isa.Decode(w).value, pc))
  {
    ShiftField(w);
    ShiftParam(Isa.Funct7(w), Isa.Rs2(w));
    hide SignExtend, FieldI, Isa.Funct7, Isa.Rs2, Isa.ImmI, Wrap;
  }

  lemma ImmediateOps(w: Word, pc: Word)
    requires w % 0x80 == 0x13 && Isa.Funct3(w) !in {1, 5}
    ensures TranslateAluImm(w, pc) == Emit(BlockOf(Isa.Decode(w).value, pc))
  {
    ImmediateI(w);
  }

  lemma RegisterOps(w: Word, pc: Word)
    requires w % 0x80 == 0x33 && Isa.Decode(w).Some?
    ensures TranslateOp(w, pc) == Emit(BlockOf(Isa.Decode(w).value, pc))
  {
  }

  /** Every legal encoding is translated, and to the template and parameters of the instruction it decodes to. */
  lemma TranslationFollowsDecoding(w: Word, pc: Word)
    requires Isa.Decode(w).Some?
    ensures Translate(w, pc) == Emit(BlockOf(Isa.Decode(w).value, pc))
  {
    match w % 0x80
    case 0x37 => Upper(w, pc);
    case 0x17 => Upper(w, pc);
    case 0x6f => JumpAndLink(w, pc);
    case 0x67 => JumpAndLinkRegister(w, pc);
    case 0x63 => Branches(w, pc);
    case 0x03 => Loads(w, pc);
    case 0x23 => Stores(w, pc);
    case 0x13 => if Isa.Funct3(w) in {1, 5} { ImmediateShifts(w, pc); } else { ImmediateOps(w, pc); }
    case 0x33 => RegisterOps(w, pc);
    case _ =>
  }
}
