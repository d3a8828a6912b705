/**
  A plain fetch/decode/execute reference for the user-level part of RV32IM with Zifencei, written
  from the RISC-V Unprivileged ISA 20191213: sections 2.2 to 2.6, chapter 3, and sections 7.1 and 7.2.
 */
module Isa {
  import opened Words
  import opened Collections

  // ---- memory: the mapped bytes of the guest address space ----

  type Mem = map<Word, Byte>

  datatype Size = Byte8 | Half16 | Word32

  /** One more than the largest value of a size. */
  function Span(size: Size): int {
    match size
    case Byte8 => 0x100
    case Half16 => 0x1_0000
    case Word32 => TWO32
  }

  /** The number of bytes of a size. */
  function Width(size: Size): nat {
    match size
    case Byte8 => 1
    case Half16 => 2
    case Word32 => 4
  }

  function ByteAt(mem: Mem, a: int): Option<Byte> {
    if 0 <= a < TWO32 && a in mem then Some(mem[a]) else None
  }

  /** A little-endian read; it fails unless every byte is mapped. */
  function Read(mem: Mem, a: Word, size: Size): (v: Option<Word>)
    ensures v.Some? ==> v.value < Span(size)
  {
    var b0, b1, b2, b3 := ByteAt(mem, a), ByteAt(mem, a + 1), ByteAt(mem, a + 2), ByteAt(mem, a + 3);
    match size
    case Byte8 => if b0.Some? then Some(b0.value) else None
    case Half16 => if b0.Some? && b1.Some? then Some(b0.value + 0x100 * b1.value) else None
    case Word32 =>
      if b0.Some? && b1.Some? && b2.Some? && b3.Some?
      then Some(b0.value + 0x100 * b1.value + 0x1_0000 * b2.value + 0x100_0000 * b3.value)
      else None
  }

  function PutBytes(mem: Mem, a: Word, size: Size, b0: Byte, b1: Byte, b2: Byte, b3: Byte): Mem
    requires Read(mem, a, size).Some?
  {
    match size
    case Byte8 => mem[a := b0]
    case Half16 => mem[a := b0][a + 1 := b1]
    case Word32 => mem[a := b0][a + 1 := b1][a + 2 := b2][a + 3 := b3]
  }

  /** A little-endian write of the low bytes of `v`. */
  function Write(mem: Mem, a: Word, size: Size, v: Word): Option<Mem> {
    if Read(mem, a, size).None? then None
    else Some(PutBytes(mem, a, size, v % 0x100, v / 0x100 % 0x100, v / 0x1_0000 % 0x100, v / 0x100_0000))
  }

  // ---- instructions ----

  type RegId = r: int | 0 <= r < 32

  datatype AluOp = Add | Sub | Sll | Slt | Sltu | XorOp | Srl | Sra | OrOp | AndOp

  datatype MulDivOp = Mul | Mulh | Mulhsu | Mulhu | Div | Divu | Rem | Remu

  datatype Cond = Eq | Ne | Lt | Ge | Ltu | Geu

  datatype LoadOp = Lb | Lh | Lw | Lbu | Lhu

  /** Immediates are kept as the signed values the ISA gives them. */
  datatype Instr =
    | Lui(rd: RegId, imm: int)
    | Auipc(rd: RegId, imm: int)
    | Jal(rd: RegId, imm: int)
    | Jalr(rd: RegId, rs1: RegId, imm: int)
    | Branch(cond: Cond, rs1: RegId, rs2: RegId, imm: int)
    | Load(lop: LoadOp, rd: RegId, rs1: RegId, imm: int)
    | Store(size: Size, rs1: RegId, rs2: RegId, imm: int)
    | OpImm(aop: AluOp, rd: RegId, rs1: RegId, imm: int)
    | Op(aop: AluOp, rd: RegId, rs1: RegId, rs2: RegId)
    | MulDiv(mop: MulDivOp, rd: RegId, rs1: RegId, rs2: RegId)
    | Fence
    | FenceI
    | Ecall

  /** Instructions after which straight-line execution does not go on. */
  predicate EndsBlock(i: Instr) {
    i.Jal? || i.Jalr? || i.Branch? || i.FenceI? || i.Ecall?
  }

  // ---- decoding, from figures 2.3 and 2.4 and the opcode tables ----

  function Bit(w: Word, weight: nat): int
    requires weight > 0
  {
    w / weight % 2
  }

  function Rd(w: Word): RegId { w / 0x80 % 0x20 }

  function Rs1(w: Word): RegId { w / 0x8000 % 0x20 }

  function Rs2(w: Word): RegId { w / 0x10_0000 % 0x20 }

  function Funct3(w: Word): int { w / 0x1000 % 8 }

  function Funct7(w: Word): int { w / 0x200_0000 }

  /** I-immediate: inst[31:20], sign-extended. */
  function ImmI(w: Word): int {
    w / 0x10_0000 % 0x800 - 0x800 * Bit(w, 0x8000_0000)
  }

  /** S-immediate: inst[31:25] then inst[11:7]. */
  function ImmS(w: Word): int {
    w / 0x80 % 0x20 + 0x20 * (w / 0x200_0000 % 0x40) - 0x800 * Bit(w, 0x8000_0000)
  }

  /** B-immediate: bits 4:1 from inst[11:8], 10:5 from inst[30:25], 11 from inst[7], sign from inst[31]. */
  function ImmB(w: Word): int {
    2 * (w / 0x100 % 0x10) + 0x20 * (w / 0x200_0000 % 0x40) + 0x800 * Bit(w, 0x80)
    - 0x1000 * Bit(w, 0x8000_0000)
  }

  /** U-immediate: inst[31:12], placed in the upper twenty bits. */
  function ImmU(w: Word): int {
    0x1000 * (w / 0x1000 % 0x10_0000)
  }

  /** J-immediate: bits 10:1 from inst[30:21], 11 from inst[20], 19:12 in place, sign from inst[31]. */
  function ImmJ(w: Word): int {
    2 * (w / 0x20_0000 % 0x400) + 0x800 * Bit(w, 0x10_0000) + 0x1000 * (w / 0x1000 % 0x100)
    - 0x10_0000 * Bit(w, 0x8000_0000)
  }

  /** The instruction an encoding stands for, or `None` when the encoding is reserved or not modelled. */
  function Decode(w: Word): Option<Instr> {
    match w % 0x80
    case 0x37 => Some(Lui(Rd(w), ImmU(w)))
    case 0x17 => Some(Auipc(Rd(w), ImmU(w)))
    case 0x6f => Some(Jal(Rd(w), ImmJ(w)))
    case 0x67 => if Funct3(w) == 0 then Some(Jalr(Rd(w), Rs1(w), ImmI(w))) else None
    case 0x63 =>
      (match Funct3(w)
       case 0 => Some(Branch(Eq, Rs1(w), Rs2(w), ImmB(w)))
       case 1 => Some(Branch(Ne, Rs1(w), Rs2(w), ImmB(w)))
       case 4 => Some(Branch(Lt, Rs1(w), Rs2(w), ImmB(w)))
       case 5 => Some(Branch(Ge, Rs1(w), Rs2(w), ImmB(w)))
       case 6 => Some(Branch(Ltu, Rs1(w), Rs2(w), ImmB(w)))
       case 7 => Some(Branch(Geu, Rs1(w), Rs2(w), ImmB(w)))
       case _ => None)
    case 0x03 =>
      (match Funct3(w)
       case 0 => Some(Load(Lb, Rd(w), Rs1(w), ImmI(w)))
       case 1 => Some(Load(Lh, Rd(w), Rs1(w), ImmI(w)))
       case 2 => Some(Load(Lw, Rd(w), Rs1(w), ImmI(w)))
       case 4 => Some(Load(Lbu, Rd(w), Rs1(w), ImmI(w)))
       case 5 => Some(Load(Lhu, Rd(w), Rs1(w), ImmI(w)))
       case _ => None)
    case 0x23 =>
      (match Funct3(w)
       case 0 => Some(Store(Byte8, Rs1(w), Rs2(w), ImmS(w)))
       case 1 => Some(Store(Half16, Rs1(w), Rs2(w), ImmS(w)))
       case 2 => Some(Store(Word32, Rs1(w), Rs2(w), ImmS(w)))
       case _ => None)
    case 0x13 =>
      (match Funct3(w)
       case 0 => Some(OpImm(Add, Rd(w), Rs1(w), ImmI(w)))
       case 1 => if Funct7(w) == 0 then Some(OpImm(Sll, Rd(w), Rs1(w), Rs2(w))) else None
       case 2 => Some(OpImm(Slt, Rd(w), Rs1(w), ImmI(w)))
       case 3 => Some(OpImm(Sltu, Rd(w), Rs1(w), ImmI(w)))
       case 4 => Some(OpImm(XorOp, Rd(w), Rs1(w), ImmI(w)))
       case 5 =>
         if Funct7(w) == 0 then Some(OpImm(Srl, Rd(w), Rs1(w), Rs2(w)))
         else if Funct7(w) == 0x20 then Some(OpImm(Sra, Rd(w), Rs1(w), Rs2(w)))
         else None
       case 6 => Some(OpImm(OrOp, Rd(w), Rs1(w), ImmI(w)))
       case _ => Some(OpImm(AndOp, Rd(w), Rs1(w), ImmI(w))))
    case 0x33 =>
      (match (Funct7(w), Funct3(w))
       case (0, 0) => Some(Op(Add, Rd(w), Rs1(w), Rs2(w)))
       case (0x20, 0) => Some(Op(Sub, Rd(w), Rs1(w), Rs2(w)))
       case (0, 1) => Some(Op(Sll, Rd(w), Rs1(w), Rs2(w)))
       case (0, 2) => Some(Op(Slt, Rd(w), Rs1(w), Rs2(w)))
       case (0, 3) => Some(Op(Sltu, Rd(w), Rs1(w), Rs2(w)))
       case (0, 4) => Some(Op(XorOp, Rd(w), Rs1(w), Rs2(w)))
       case (0, 5) => Some(Op(Srl, Rd(w), Rs1(w), Rs2(w)))
       case (0x20, 5) => Some(Op(Sra, Rd(w), Rs1(w), Rs2(w)))
       case (0, 6) => Some(Op(OrOp, Rd(w), Rs1(w), Rs2(w)))
       case (0, 7) => Some(Op(AndOp, Rd(w), Rs1(w), Rs2(w)))
       case (1, 0) => Some(MulDiv(Mul, Rd(w), Rs1(w), Rs2(w)))
       case (1, 1) => Some(MulDiv(Mulh, Rd(w), Rs1(w), Rs2(w)))
       case (1, 2) => Some(MulDiv(Mulhsu, Rd(w), Rs1(w), Rs2(w)))
       case (1, 3) => Some(MulDiv(Mulhu, Rd(w), Rs1(w), Rs2(w)))
       case (1, 4) => Some(MulDiv(Div, Rd(w), Rs1(w), Rs2(w)))
       case (1, 5) => Some(MulDiv(Divu, Rd(w), Rs1(w), Rs2(w)))
       case (1, 6) => Some(MulDiv(Rem, Rd(w), Rs1(w), Rs2(w)))
       case (1, 7) => Some(MulDiv(Remu, Rd(w), Rs1(w), Rs2(w)))
       case _ => None)
    case 0x0f => if Funct3(w) == 0 then Some(Fence) else if Funct3(w) == 1 then Some(FenceI) else None
    case 0x73 => if w == 0x73 then Some(Ecall) else None
    case _ => None
  }

  // ---- arithmetic ----

  function Abs(x: int): nat {
    if x < 0 then -x else x
  }

  /** Division rounding towards zero, and the remainder with the sign of the dividend. */
  function TruncDiv(a: int, b: int): int
    requires b != 0
  {
    if (a < 0) == (b < 0) then Quotient(Abs(a), Abs(b)) else -Quotient(Abs(a), Abs(b))
  }

  function TruncRem(a: int, b: int): int
    requires b != 0
  {
    a - b * TruncDiv(a, b)
  }

  function Alu(op: AluOp, a: Word, b: Word): Word {
    match op
    case Add => Wrap(a + b)
    case Sub => Wrap(a - b)
    case Sll => ShiftLeft(a, b % 32)
    case Slt => if Signed(a) < Signed(b) then 1 else 0
    case Sltu => if a < b then 1 else 0
    case XorOp => LogicOp(XorBits, a, b)
    case Srl => ShiftRight(a, b % 32)
    case Sra => ShiftRightSigned(a, b % 32)
    case OrOp => LogicOp(OrBits, a, b)
    case AndOp => LogicOp(AndBits, a, b)
  }

  predicate DivOverflows(a: Word, b: Word) {
    Signed(a) == -0x8000_0000 && Signed(b) == -1
  }

  /** Sections 7.1 and 7.2, with the results of table 7.1 for a zero divisor and for overflow. */
  function MulDivResult(op: MulDivOp, a: Word, b: Word): Word {
    match op
    case Mul => Wrap(a * b)
    case Mulh => Wrap(Signed(a) * Signed(b) / TWO32)
    case Mulhsu => Wrap(Signed(a) * b / TWO32)
    case Mulhu => Wrap(a * b / TWO32)
    case Div => if b == 0 then 0xffff_ffff else Wrap(TruncDiv(Signed(a), Signed(b)))
    case Divu => if b == 0 then 0xffff_ffff else Wrap(Quotient(a, b))
    case Rem => if b == 0 then a else Wrap(TruncRem(Signed(a), Signed(b)))
    case Remu => if b == 0 then a else Wrap(Remainder(a, b))
  }

  predicate Holds(c: Cond, a: Word, b: Word) {
    match c
    case Eq => a == b
    case Ne => a != b
    case Lt => Signed(a) < Signed(b)
    case Ge => Signed(a) >= Signed(b)
    case Ltu => a < b
    case Geu => a >= b
  }

  function LoadSize(op: LoadOp): Size {
    match op
    case Lb => Byte8
    case Lbu => Byte8
    case Lh => Half16
    case Lhu => Half16
    case Lw => Word32
  }

  /** The register value a load makes of the bytes read. */
  function Extend(op: LoadOp, v: Word): Word {
    match op
    case Lb => Wrap(if v < 0x80 then v else v - 0x100)
    case Lh => Wrap(if v < 0x8000 then v else v - 0x1_0000)
    case _ => v
  }

  // ---- execution of one instruction ----

  datatype Guest = Guest(regs: seq<Word>, pc: Word, mem: Mem)

  predicate ValidGuest(g: Guest) {
    |g.regs| == 32 && g.regs[0] == 0
  }

  /**
    The world behind one `ecall`: from the guest at the call, the value for a0 and the memory afterwards. Another call,
    even from the same guest, may find another world.
   */
  datatype Env = Env(sys: Guest -> (Word, Mem))

  datatype Effect = Done(guest: Guest) | AccessFault

  function SetReg(regs: seq<Word>, rd: RegId, v: Word): (r: seq<Word>)
    requires |regs| == 32
    ensures |r| == 32
  {
    if rd == 0 then regs else regs[rd := v]
  }

  function Next(pc: Word): Word {
    Wrap(pc + 4)
  }

  function Exec(env: Env, i: Instr, g: Guest): Effect
    requires ValidGuest(g)
  {
    match i
    case Lui(rd, imm) => Done(Guest(SetReg(g.regs, rd, Wrap(imm)), Next(g.pc), g.mem))
    case Auipc(rd, imm) => Done(Guest(SetReg(g.regs, rd, Wrap(g.pc + imm)), Next(g.pc), g.mem))
    case Jal(rd, imm) => Done(Guest(SetReg(g.regs, rd, Next(g.pc)), Wrap(g.pc + imm), g.mem))
    case Jalr(rd, rs1, imm) =>
      var target := Wrap(g.regs[rs1] + imm);
      Done(Guest(SetReg(g.regs, rd, Next(g.pc)), target - target % 2, g.mem))
    case Branch(cond, rs1, rs2, imm) =>
      Done(g.(pc := if Holds(cond, g.regs[rs1], g.regs[rs2]) then Wrap(g.pc + imm) else Next(g.pc)))
    case Load(op, rd, rs1, imm) =>
      var v := Read(g.mem, Wrap(g.regs[rs1] + imm), LoadSize(op));
      if v.None? then AccessFault
      else Done(Guest(SetReg(g.regs, rd, Extend(op, v.value)), Next(g.pc), g.mem))
    case Store(size, rs1, rs2, imm) =>
      var m := Write(g.mem, Wrap(g.regs[rs1] + imm), size, g.regs[rs2]);
      if m.None? then AccessFault else Done(Guest(g.regs, Next(g.pc), m.value))
    case OpImm(op, rd, rs1, imm) =>
      Done(Guest(SetReg(g.regs, rd, Alu(op, g.regs[rs1], Wrap(imm))), Next(g.pc), g.mem))
    case Op(op, rd, rs1, rs2) =>
      Done(Guest(SetReg(g.regs, rd, Alu(op, g.regs[rs1], g.regs[rs2])), Next(g.pc), g.mem))
    case MulDiv(op, rd, rs1, rs2) =>
      Done(Guest(SetReg(g.regs, rd, MulDivResult(op, g.regs[rs1], g.regs[rs2])), Next(g.pc), g.mem))
    case Fence => Done(g.(pc := Next(g.pc)))
    case FenceI => Done(g.(pc := Next(g.pc)))
    case Ecall =>
      var (a0, mem) := env.sys(g);
      Done(Guest(g.regs[10 := a0], Next(g.pc), mem))
  }

  // ---- the machine: instruction fetches may be stale until a fence.i ----

  /**
    `seen` holds every memory image since the last `fence.i`. Chapter 3 lets an instruction fetch
    return what any of them holds; a `fence.i` leaves only the current one.
   */
  datatype Machine = Machine(guest: Guest, seen: set<Mem>)

  ghost predicate ValidMachine(s: Machine) {
    ValidGuest(s.guest) && s.guest.mem in s.seen
  }

  function Fetch(mem: Mem, pc: Word): Option<Word> {
    Read(mem, pc, Word32)
  }

  ghost predicate Fetchable(s: Machine, w: Word) {
    exists m :: m in s.seen && Fetch(m, s.guest.pc) == Some(w)
  }

  /** What one step does when the fetched word is `w`; a reserved encoding may do anything. */
  ghost predicate StepOn(env: Env, w: Word, s: Machine, s': Machine)
    requires ValidMachine(s)
  {
    && ValidMachine(s')
    && match Decode(w)
       case None => s.seen <= s'.seen
       case Some(i) =>
         && Exec(env, i, s.guest) == Done(s'.guest)
         && s'.seen == if i.FenceI? then {s'.guest.mem} else s.seen + {s'.guest.mem}
  }

  ghost predicate Step(env: Env, s: Machine, s': Machine) {
    ValidMachine(s) && exists w :: Fetchable(s, w) && StepOn(env, w, s, s')
  }

  /** A run of the machine: consecutive states are related by steps. */
  ghost predicate Run(env: Env, states: seq<Machine>) {
    && 0 < |states|
    && ValidMachine(states[0])
    && forall i :: 0 <= i < |states| - 1 ==> Step(env, states[i], states[i + 1])
  }

  /** A step that asks nothing of the world. */
  ghost predicate StepAnywhere(s: Machine, s': Machine) {
    forall env :: Step(env, s, s')
  }

  /** A run that asks nothing of the world. */
  ghost predicate RunAnywhere(states: seq<Machine>) {
    && 0 < |states|
    && ValidMachine(states[0])
    && forall i :: 0 <= i < |states| - 1 ==> StepAnywhere(states[i], states[i + 1])
  }

  /** Whether a run asks the world anything, it is a run; and so is its front. */
  lemma RunAnywhereIsRun(env: Env, states: seq<Machine>)
    requires RunAnywhere(states)
    ensures Run(env, states) && (|states| >= 2 ==> RunAnywhere(states[..|states| - 1]))
  {
    hide Step;
    forall i | 0 <= i < |states| - 1 ensures Step(env, states[i], states[i + 1]) {
      assert StepAnywhere(states[i], states[i + 1]);
    }
  }

  lemma RunGoesOn(env: Env, states: seq<Machine>, s: Machine)
    requires Run(env, states) && Step(env, states[|states| - 1], s)
    ensures Run(env, states + [s])
  {
    hide Step;
    var more := states + [s];
    forall i | 0 <= i < |more| - 1 ensures Step(env, more[i], more[i + 1]) {
      if i < |states| - 1 { assert more[i] == states[i] && more[i + 1] == states[i + 1]; }
    }
  }

  lemma RunAnywhereGoesOn(states: seq<Machine>, s: Machine)
    requires RunAnywhere(states) && StepAnywhere(states[|states| - 1], s)
    ensures RunAnywhere(states + [s])
  {
    hide StepAnywhere;
    var more := states + [s];
    forall i | 0 <= i < |more| - 1 ensures StepAnywhere(more[i], more[i + 1]) {
      if i < |states| - 1 { assert more[i] == states[i] && more[i + 1] == states[i + 1]; }
    }
  }

  // ---- the plain interpreter, and when the machine is one ----

  /** Fetch from memory as it is, decode, execute; `None` where the ISA does not say what happens. */
  function Interpret(env: Env, g: Guest): Option<Effect>
    requires ValidGuest(g)
  {
    var w := Fetch(g.mem, g.pc);
    if w.None? || Decode(w.value).None? then None else Some(Exec(env, Decode(w.value).value, g))
  }

  /** Memory as it is holds a legal instruction at pc. */
  predicate Legal(g: Guest) {
    Fetch(g.mem, g.pc).Some? && Decode(Fetch(g.mem, g.pc).value).Some?
  }

  function InstrAt(g: Guest): Instr
    requires Legal(g)
  {
    Decode(Fetch(g.mem, g.pc).value).value
  }

  /** Every image an instruction fetch may see holds the same legal instruction at pc. */
  ghost predicate Settled(s: Machine) {
    && Legal(s.guest)
    && forall m :: m in s.seen ==> Fetch(m, s.guest.pc) == Fetch(s.guest.mem, s.guest.pc)
  }

  /** Where the code has settled, a step of the machine is the step of the plain interpreter. */
  lemma SettledStepIsPlain(env: Env, s: Machine, t: Machine)
    requires Step(env, s, t) && Settled(s)
    ensures ValidGuest(s.guest) && Interpret(env, s.guest) == Some(Done(t.guest))
    ensures t.seen <= s.seen + {t.guest.mem} && ValidMachine(t)
  {
    var w :| Fetchable(s, w) && StepOn(env, w, s, t);
    assert w == Fetch(s.guest.mem, s.guest.pc).value;
  }

  function Guests(states: seq<Machine>): seq<Guest> {
    seq(|states|, i requires 0 <= i < |states| => states[i].guest)
  }

  /** A run of the plain interpreter. */
  ghost predicate PlainRun(env: Env, gs: seq<Guest>) {
    && 0 < |gs|
    && forall i :: 0 <= i < |gs| - 1 ==> ValidGuest(gs[i]) && Interpret(env, gs[i]) == Some(Done(gs[i + 1]))
  }

  lemma SettledRunIsPlain(env: Env, states: seq<Machine>)
    requires Run(env, states) && forall i :: 0 <= i < |states| - 1 ==> Settled(states[i])
    ensures PlainRun(env, Guests(states))
  {
    hide Interpret, Step, Settled;
    var gs := Guests(states);
    forall i | 0 <= i < |gs| - 1 ensures ValidGuest(gs[i]) && Interpret(env, gs[i]) == Some(Done(gs[i + 1])) {
      SettledStepIsPlain(env, states[i], states[i + 1]);
    }
  }

  /** Only an ecall asks the world: the plain interpreter does everything else by itself. */
  lemma OnlyEcallAsks(env: Env, other: Env, g: Guest)
    requires ValidGuest(g) && Legal(g) && !InstrAt(g).Ecall?
    ensures Interpret(env, g) == Interpret(other, g)
  {
  }

  /** At an ecall the world may answer anything, whatever it has answered from the same state before. */
  lemma EcallTakesAnyAnswer(s: Machine, a0: Word, mem: Mem)
    requires ValidMachine(s) && Legal(s.guest) && InstrAt(s.guest).Ecall?
    ensures Step(Env(_ => (a0, mem)), s, Machine(Guest(s.guest.regs[10 := a0], Next(s.guest.pc), mem), s.seen + {mem}))
  {
    var w := Fetch(s.guest.mem, s.guest.pc).value;
    assert Fetchable(s, w);
    var t := Machine(Guest(s.guest.regs[10 := a0], Next(s.guest.pc), mem), s.seen + {mem});
    assert StepOn(Env(_ => (a0, mem)), w, s, t);
  }

  /** Two images hold the same instructions at the addresses in `code`. */
  ghost predicate SameCode(m: Mem, n: Mem, code: set<Word>) {
    forall a :: a in code ==> Fetch(m, a) == Fetch(n, a)
  }

  lemma AgreementSettles(s: Machine, code: set<Word>)
    requires Legal(s.guest) && s.guest.pc in code
    requires forall m :: m in s.seen ==> SameCode(m, s.guest.mem, code)
    ensures Settled(s)
  {
    forall m | m in s.seen ensures Fetch(m, s.guest.pc) == Fetch(s.guest.mem, s.guest.pc) {
      assert SameCode(m, s.guest.mem, code);
    }
  }
}
