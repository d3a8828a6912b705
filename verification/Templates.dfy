/** The code templates, instruction by instruction, and the proof that each computes what the ISA says. */
module Templates {
  import opened Words
  import opened Collections
  import opened HostMachine
  import opened Translator
  import Isa

  /** How running a block ends. */
  datatype Outcome =
    | Fell(host: Host)     // at the first byte after the block
    | Trapped(host: Host)  // in the VMM
    | Flushed(host: Host)  // in the VMM, with the translation cache emptied
    | HostFault            // a divide error in the emulator itself
    | NoAccess             // no region behind a guest address: the emulator exits

  /** The guest after an instruction that writes `v` to `rd` and goes on to the next one. */
  function Retired(g: Isa.Guest, rd: Isa.RegId, v: Word): Isa.Guest
    requires |g.regs| == 32
  {
    Isa.Guest(Isa.SetReg(g.regs, rd, v), Isa.Next(g.pc), g.mem)
  }

  ghost predicate Ready(h: Host, t: Template, p: seq<Word>) {
    h.Valid() && Isa.ValidGuest(h.guest) && ValidBlock(Block(t, p))
  }

  /** Every template that writes a register forces x0 back to zero afterwards. */
  lemma ZeroStaysZero(regs: seq<Word>, rd: Isa.RegId, v: Word)
    requires |regs| == 32 && regs[0] == 0
    ensures regs[rd := v][0 := 0] == Isa.SetReg(regs, rd, v)
  {
  }

  lemma LowBytesOfMasked(v: Word, size: Isa.Size, masked: Word)
    requires masked == v % Isa.Span(size)
    ensures masked % 0x100 == v % 0x100
    ensures size != Isa.Byte8 ==> masked / 0x100 % 0x100 == v / 0x100 % 0x100
    ensures size == Isa.Word32 ==> masked == v
  {
  }

  /** Masking the value before a narrow store does not change what is stored. */
  lemma StoreOfMasked(mem: Isa.Mem, a: Word, size: Isa.Size, v: Word, masked: Word)
    requires masked == v % Isa.Span(size)
    ensures Isa.Write(mem, a, size, masked) == Isa.Write(mem, a, size, v)
  {
    LowBytesOfMasked(v, size, masked);
  }

  lemma LowByteRemains(x: int, v: int)
    requires 0 <= v < 0x100
    ensures v % 0x100 == v && (x - x % 0x100 + v) % 0x100 == v
  {
  }

  lemma LowHalfRemains(x: int, v: int)
    requires 0 <= v < 0x1_0000
    ensures v % 0x1_0000 == v && (x - x % 0x1_0000 + v) % 0x1_0000 == v
  {
  }

  lemma LowWordRemains(x: int, v: int)
    requires 0 <= v < TWO32
    ensures (x - x % TWO32 + v) % TWO32 == v
  {
  }

  lemma LowPartRemains(junk: Quad, size: Isa.Size, v: Word)
    requires v < Isa.Span(size)
    ensures LowPart(junk, size, v) % Isa.Span(size) == v
  {
    match size {
      case Byte8 => LowByteRemains(junk, v);
      case Half16 => LowHalfRemains(junk, v);
      case Word32 => LowWordRemains(junk, v);
    }
  }

  /** The common ending: write the result register, reset x0, advance pc. */
  method Retire(h: Host, p: seq<Word>, i: nat, scratch: Gpr, src: Gpr) returns (o: Outcome)
    requires h.Valid() && Isa.ValidGuest(h.guest) && i < |p| && p[i] < 32 && scratch != src
    ensures o.Fell? && o.host.Valid() && o.host.guest == Retired(h.guest, p[i], h.Lo(src))
  {
    var r := PutReg(h, p, i, scratch, src);
    ZeroStaysZero(h.guest.regs, p[i], h.Lo(src));
    return Fell(r.ResetZero().Proceed());
  }

  // ---- the meaning of a block on the guest ----

  datatype Effect =
    | Falls(guest: Isa.Guest) | Traps(guest: Isa.Guest) | Flushes(guest: Isa.Guest) | DivideError | NoRegion

  /** Operands on which the emulator itself takes a divide error. */
  predicate DivideFaults(op: Isa.MulDivOp, a: Word, b: Word) {
    match op
    case Div => Isa.DivOverflows(a, b)
    case Rem => b == 0 || Isa.DivOverflows(a, b)
    case Remu => b == 0
    case _ => false
  }

  /** Such operands, one for each fault. */
  lemma DivisionsThatFault(a: Word)
    ensures DivideFaults(Isa.Div, 0x8000_0000, 0xffff_ffff) && DivideFaults(Isa.Rem, 0x8000_0000, 0xffff_ffff)
    ensures DivideFaults(Isa.Rem, a, 0) && DivideFaults(Isa.Remu, a, 0)
  {
  }

  function LuiEffect(p: seq<Word>, g: Isa.Guest): Effect
    requires Isa.ValidGuest(g) && ValidBlock(Block(LuiT, p))
  {
    Falls(Retired(g, p[1], Wrap(p[0] as int * 0x1000)))
  }

  function AuipcEffect(p: seq<Word>, g: Isa.Guest): Effect
    requires Isa.ValidGuest(g) && ValidBlock(Block(AuipcT, p))
  {
    Falls(Retired(g, p[1], Wrap(Wrap(p[0] as int * 0x1000) as int + p[2] as int)))
  }

  function JalEffect(p: seq<Word>, g: Isa.Guest): Effect
    requires Isa.ValidGuest(g) && ValidBlock(Block(JalT, p))
  {
    Traps(Isa.Guest(Isa.SetReg(g.regs, p[0], p[1]), p[2], g.mem))
  }

  function JalrEffect(p: seq<Word>, g: Isa.Guest): Effect
    requires Isa.ValidGuest(g) && ValidBlock(Block(JalrT, p))
  {
    var target := Wrap(g.regs[p[2]] as int + p[3] as int);
    Traps(Isa.Guest(Isa.SetReg(g.regs, p[0], p[1]), target - target % 2, g.mem))
  }

  function BranchEffect(c: Isa.Cond, p: seq<Word>, g: Isa.Guest): Effect
    requires Isa.ValidGuest(g) && ValidBlock(Block(BranchT(c), p))
  {
    Traps(g.(pc := if Isa.Holds(c, g.regs[p[0]], g.regs[p[1]]) then p[2] else Isa.Next(g.pc)))
  }

  function LoadEffect(op: Isa.LoadOp, p: seq<Word>, g: Isa.Guest): Effect
    requires Isa.ValidGuest(g) && ValidBlock(Block(LoadT(op), p))
  {
    var v := Isa.Read(g.mem, Wrap(g.regs[p[1]] as int + p[0] as int), Isa.LoadSize(op));
    if v.None? then NoRegion else Falls(Retired(g, p[2], Isa.Extend(op, v.value)))
  }

  function StoreEffect(size: Isa.Size, p: seq<Word>, g: Isa.Guest): Effect
    requires Isa.ValidGuest(g) && ValidBlock(Block(StoreT(size), p))
  {
    var m := Isa.Write(g.mem, Wrap(g.regs[p[1]] as int + p[0] as int), size, g.regs[p[2]]);
    if m.None? then NoRegion else Falls(Isa.Guest(g.regs, Isa.Next(g.pc), m.value))
  }

  function AluImmEffect(op: Isa.AluOp, p: seq<Word>, g: Isa.Guest): Effect
    requires Isa.ValidGuest(g) && ValidBlock(Block(AluImmT(op), p))
  {
    Falls(Retired(g, p[2], Isa.Alu(op, g.regs[p[1]], p[0])))
  }

  function AluEffect(op: Isa.AluOp, p: seq<Word>, g: Isa.Guest): Effect
    requires Isa.ValidGuest(g) && ValidBlock(Block(AluT(op), p))
  {
    Falls(Retired(g, p[2], Isa.Alu(op, g.regs[p[0]], g.regs[p[1]])))
  }

  function MulDivEffect(op: Isa.MulDivOp, p: seq<Word>, g: Isa.Guest): Effect
    requires Isa.ValidGuest(g) && ValidBlock(Block(MulDivT(op), p))
  {
    if DivideFaults(op, g.regs[p[0]], g.regs[p[1]]) then DivideError
    else Falls(Retired(g, p[2], Isa.MulDivResult(op, g.regs[p[0]], g.regs[p[1]])))
  }

  function EcallEffect(env: Isa.Env, g: Isa.Guest): Effect
    requires Isa.ValidGuest(g)
  {
    var (a0, mem) := env.sys(g);
    Traps(Isa.Guest(g.regs[10 := a0], Isa.Next(g.pc), mem))
  }

  function BlockEffect(env: Isa.Env, b: Block, g: Isa.Guest): Effect
    requires Isa.ValidGuest(g) && ValidBlock(b)
  {
    match b.t
    case LuiT => LuiEffect(b.params, g)
    case AuipcT => AuipcEffect(b.params, g)
    case JalT => JalEffect(b.params, g)
    case JalrT => JalrEffect(b.params, g)
    case BranchT(c) => BranchEffect(c, b.params, g)
    case LoadT(op) => LoadEffect(op, b.params, g)
    case StoreT(size) => StoreEffect(size, b.params, g)
    case AluImmT(op) => AluImmEffect(op, b.params, g)
    case AluT(op) => AluEffect(op, b.params, g)
    case MulDivT(op) => MulDivEffect(op, b.params, g)
    case FenceT => Falls(g.(pc := Isa.Next(g.pc)))
    case FenceIT => Flushes(g.(pc := Isa.Next(g.pc)))
    case EcallT => EcallEffect(env, g)
  }

  /** A host outcome shows the effect: the same way of ending and the same guest. */
  ghost predicate Shows(o: Outcome, e: Effect) {
    match e
    case Falls(g) => o.Fell? && o.host.Valid() && o.host.guest == g
    case Traps(g) => o.Trapped? && o.host.Valid() && o.host.guest == g
    case Flushes(g) => o.Flushed? && o.host.Valid() && o.host.guest == g
    case DivideError => o.HostFault?
    case NoRegion => o.NoAccess?
  }

  // ---- the templates ----

  method RunLui(p: seq<Word>, h0: Host) returns (o: Outcome)
    requires Ready(h0, LuiT, p)
    ensures Shows(o, LuiEffect(p, h0.guest))
  {
    var h := h0.MovlParam(p, 0, Ax);
    h := RegAddress(h, p, 1, Dx);
    h := h.Shll12(Ax);
    h := h.StoreReg(Ax, Dx);
    ZeroStaysZero(h0.guest.regs, p[1], Wrap(p[0] as int * 0x1000));
    return Fell(h.ResetZero().Proceed());
  }

  /** The sum of the shifted immediate and the baked pc, in eax. */
  method UpperSum(p: seq<Word>, h0: Host) returns (h: Host)
    requires |p| == 3
    ensures h.Get(Ax) == Wrap(Wrap(p[0] as int * 0x1000) as int + p[2] as int)
    ensures h.Get(Dx) == h0.Get(Dx) && h.guest == h0.guest && h.r15 == h0.r15
  {
    h := h0.MovlParam(p, 0, Ax);
    h := h.Shll12(Ax);
    h := h.MovlParam(p, 2, Cx);
    h := h.Addl(Cx, Ax);
  }

  method RunAuipc(p: seq<Word>, h0: Host) returns (o: Outcome)
    requires Ready(h0, AuipcT, p)
    ensures Shows(o, AuipcEffect(p, h0.guest))
  {
    var h := RegAddress(h0, p, 1, Dx);
    h := UpperSum(p, h);
    ghost var v := h.Get(Ax);
    h := h.StoreReg(Ax, Dx);
    ZeroStaysZero(h0.guest.regs, p[1], v);
    return Fell(h.ResetZero().Proceed());
  }

  method RunJal(p: seq<Word>, h0: Host) returns (o: Outcome)
    requires Ready(h0, JalT, p)
    ensures Shows(o, JalEffect(p, h0.guest))
  {
    var h := RegAddress(h0, p, 0, Dx);
    h := h.MovlParam(p, 1, Ax);
    h := h.StoreReg(Ax, Dx);
    h := h.MovlParam(p, 2, Ax);
    h := h.StorePc(Ax);
    ZeroStaysZero(h0.guest.regs, p[0], p[1]);
    return Trapped(h.ResetZero());
  }

  /** The target of a jalr in ebx, before anything is written. */
  method JalrTarget(p: seq<Word>, h0: Host) returns (h: Host)
    requires h0.Valid() && |p| == 4 && p[2] < 32
    ensures h.Valid() && h.guest == h0.guest && h.r15 == h0.r15
    ensures var target := Wrap(h0.guest.regs[p[2]] as int + p[3] as int); h.Get(Bx) == target - target % 2
  {
    h := FetchReg(h0, p, 2, Dx, Bx);
    h := h.MovlParam(p, 3, Ax);
    h := h.Addl(Ax, Bx);
    assert h.Get(Bx) == Wrap(h0.guest.regs[p[2]] as int + p[3] as int);
    h := h.ClearBit0(Bx);
  }

  method RunJalr(p: seq<Word>, h0: Host) returns (o: Outcome)
    requires Ready(h0, JalrT, p)
    ensures Shows(o, JalrEffect(p, h0.guest))
  {
    var h := JalrTarget(p, h0);
    ghost var target := h.Get(Bx);
    h := RegAddress(h, p, 0, Dx);
    h := h.MovlParam(p, 1, Ax);
    h := h.StoreReg(Ax, Dx);
    assert h.guest == h0.guest.(regs := h0.guest.regs[p[0] := p[1]]) && h.Lo(Bx) == target;
    h := h.StorePc(Bx);
    ZeroStaysZero(h0.guest.regs, p[0], p[1]);
    return Trapped(h.ResetZero());
  }

  /** The operands of a branch in esi and edi, and the next pc in edx. */
  method BranchOperands(p: seq<Word>, h0: Host) returns (h: Host)
    requires h0.Valid() && |p| == 3 && p[0] < 32 && p[1] < 32
    ensures h.Valid() && h.guest == h0.guest && h.r15 == h0.r15
    ensures h.Lo(Si) == h0.guest.regs[p[0]] && h.Lo(Di) == h0.guest.regs[p[1]] && h.Get(Dx) == Isa.Next(h0.guest.pc)
  {
    h := FetchReg(h0, p, 0, Dx, Si);
    h := FetchReg(h, p, 1, Dx, Di);
    h := h.LoadPc(Dx);
    h := h.AddlImm(4, Dx);
  }

  /** Each branch compares and then jumps over the loading of the taken target when its condition fails. */
  method RunBranch(c: Isa.Cond, p: seq<Word>, h0: Host) returns (o: Outcome)
    requires Ready(h0, BranchT(c), p)
    ensures Shows(o, BranchEffect(c, p, h0.guest))
  {
    var h := BranchOperands(p, h0);
    ghost var a, b := h0.guest.regs[p[0]], h0.guest.regs[p[1]];
    var skip;
    match c {
      case Eq => h, skip := h.Cmpl(Si, Di), IfNotEqual;
      case Ne => h, skip := h.Cmpl(Si, Di), IfEqual;
      case Lt => h, skip := h.Cmpl(Di, Si), IfGreaterEq;
      case Ltu => h, skip := h.Cmpl(Di, Si), IfAboveEq;
      case Ge => h, skip := h.Cmpl(Di, Si), IfLess;
      case Geu => h, skip := h.Cmpl(Di, Si), IfBelow;
    }
    assert h.Is(skip) <==> !Isa.Holds(c, a, b);
    if !h.Is(skip) {
      h := h.MovlParam(p, 2, Dx);
    }
    return Trapped(h.StorePc(Dx));
  }

  /** The widening move after a read, on a register whose upper part the callee left undefined. */
  method Widen(op: Isa.LoadOp, h: Host, ghost junk: Quad, ghost v: Word) returns (r: Host)
    requires h.Get(Ax) == LowPart(junk, Isa.LoadSize(op), v) && v < Isa.Span(Isa.LoadSize(op))
    ensures r.Lo(Ax) == Isa.Extend(op, v)
    ensures r.Get(Dx) == h.Get(Dx) && r.r15 == h.r15 && r.guest == h.guest
  {
    LowPartRemains(junk, Isa.LoadSize(op), v);
    r := h;
    match op {
      case Lb => r := h.Movsbl(Ax, Ax);
      case Lbu => r := h.Movzbl(Ax, Ax);
      case Lh => r := h.Movswl(Ax, Ax);
      case Lhu => r := h.Movzwl(Ax, Ax);
      case Lw =>
    }
  }

  /** The address of a load in esi. */
  method LoadOperands(p: seq<Word>, h0: Host) returns (h: Host)
    requires h0.Valid() && |p| == 3 && p[1] < 32
    ensures h.Valid() && h.Lo(Si) == Wrap(h0.guest.regs[p[1]] as int + p[0] as int)
    ensures h.guest == h0.guest && h.r15 == h0.r15
  {
    h := FetchReg(h0, p, 1, Dx, Si);
    h := h.MovlParam(p, 0, Dx);
    h := h.Addl(Dx, Si);
  }

  method RunLoad(op: Isa.LoadOp, p: seq<Word>, h0: Host, k: Clobber) returns (o: Outcome)
    requires Ready(h0, LoadT(op), p)
    ensures Shows(o, LoadEffect(op, p, h0.guest))
  {
    var h := LoadOperands(p, h0);
    ghost var read := Isa.Read(h0.guest.mem, h.Lo(Si), Isa.LoadSize(op));
    var called := h.CallRead(Isa.LoadSize(op), k);
    if called.None? {
      return NoAccess;
    }
    h := RegAddress(called.value, p, 2, Dx);
    h := Widen(op, h, k.gprs[Ax], read.value);
    h := h.StoreReg(Ax, Dx);
    ZeroStaysZero(h0.guest.regs, p[2], Isa.Extend(op, read.value));
    return Fell(h.ResetZero().Proceed());
  }

  /** The address of a store in esi and its value in edx. */
  method StoreOperands(p: seq<Word>, h0: Host) returns (h: Host)
    requires h0.Valid() && |p| == 3 && p[1] < 32 && p[2] < 32
    ensures h.Get(Si) == Wrap(h0.guest.regs[p[1]] as int + p[0] as int) && h.Get(Dx) == h0.guest.regs[p[2]]
    ensures h.guest == h0.guest && h.r15 == h0.r15
  {
    h := FetchReg(h0, p, 1, Dx, Si);
    h := h.MovlParam(p, 0, Dx);
    h := h.Addl(Dx, Si);
    h := FetchReg(h, p, 2, Dx, Dx);
  }

  method RunStore(size: Isa.Size, p: seq<Word>, h0: Host, k: Clobber) returns (o: Outcome)
    requires Ready(h0, StoreT(size), p)
    ensures Shows(o, StoreEffect(size, p, h0.guest))
  {
    hide Isa.Write;
    var h := StoreOperands(p, h0);
    ghost var addr, v := h.Get(Si), h.Get(Dx);
    match size {
      case Byte8 => h := h.AndlFf(Dx);
      case Half16 => h := h.AndlFfff(Dx);
      case Word32 =>
    }
    assert h.Lo(Dx) == v % Isa.Span(size) && h.Lo(Si) == addr;
    StoreOfMasked(h0.guest.mem, addr, size, v, h.Lo(Dx));
    var called := h.CallWrite(size, k);
    if called.None? {
      return NoAccess;
    }
    return Fell(called.value.Proceed());
  }

  function LogicOf(op: Isa.AluOp): Logic {
    if op == Isa.AndOp then AndBits else if op == Isa.OrOp then OrBits else XorBits
  }

  predicate IsLogic(op: Isa.AluOp) { op == Isa.AndOp || op == Isa.OrOp || op == Isa.XorOp }

  predicate IsShift(op: Isa.AluOp) { op == Isa.Sll || op == Isa.Srl || op == Isa.Sra }

  predicate IsCompare(op: Isa.AluOp) { op == Isa.Slt || op == Isa.Sltu }

  function Compared(op: Isa.AluOp, a: Word, b: Word): Word {
    if (if op == Isa.Slt then Signed(a) < Signed(b) else a < b) then 1 else 0
  }

  function Shifted(op: Isa.AluOp, a: Word, n: nat): Word {
    if op == Isa.Sll then ShiftLeft(a, n) else if op == Isa.Srl then ShiftRight(a, n) else ShiftRightSigned(a, n)
  }

  method RunAddImm(p: seq<Word>, h0: Host) returns (o: Outcome)
    requires Ready(h0, AluImmT(Isa.Add), p)
    ensures Shows(o, Falls(Retired(h0.guest, p[2], Wrap(h0.guest.regs[p[1]] as int + p[0] as int))))
  {
    var h := FetchReg(h0, p, 1, Dx, Ax);
    h := h.MovlParam(p, 0, Dx);
    assert h.Lo(Ax) == h0.guest.regs[p[1]] && h.Lo(Dx) == p[0];
    h := h.Addl(Dx, Ax);
    o := Retire(h, p, 2, Dx, Ax);
  }

  method RunLogicImm(op: Isa.AluOp, p: seq<Word>, h0: Host) returns (o: Outcome)
    requires IsLogic(op) && Ready(h0, AluImmT(op), p)
    ensures Shows(o, Falls(Retired(h0.guest, p[2], LogicOp(LogicOf(op), h0.guest.regs[p[1]], p[0]))))
  {
    var h := h0.Zero(Cx);
    h := FetchReg(h, p, 1, Dx, Ax);
    h := h.MovlParam(p, 0, Dx);
    assert h.Lo(Ax) == h0.guest.regs[p[1]] && h.Lo(Dx) == p[0];
    hide LogicOp, LogicOf;
    h := h.Logicl(LogicOf(op), Dx, Ax);
    o := Retire(h, p, 2, Dx, Ax);
  }

  method RunCompareImm(op: Isa.AluOp, p: seq<Word>, h0: Host) returns (o: Outcome)
    requires IsCompare(op) && Ready(h0, AluImmT(op), p)
    ensures Shows(o, Falls(Retired(h0.guest, p[2], Compared(op, h0.guest.regs[p[1]], p[0]))))
  {
    var h := h0.Zero(Cx);
    h := FetchReg(h, p, 1, Dx, Ax);
    h := h.CmplParam(p, 0, Ax);
    h := h.Setb(if op == Isa.Slt then IfLess else IfBelow, Cx);
    h := h.Movzbl(Cx, Cx);
    o := Retire(h, p, 2, Dx, Cx);
  }

  method RunShiftImm(op: Isa.AluOp, p: seq<Word>, h0: Host) returns (o: Outcome)
    requires IsShift(op) && Ready(h0, AluImmT(op), p)
    ensures Shows(o, Falls(Retired(h0.guest, p[2], Shifted(op, h0.guest.regs[p[1]], p[0] % 32))))
  {
    hide ShiftLeft, ShiftRight, ShiftRightSigned;
    var h := h0.Zero(Cx);
    h := FetchReg(h, p, 1, Dx, Ax);
    assert h.Lo(Ax) == h0.guest.regs[p[1]];
    h := h.MovlParam(p, 0, Cx);
    assert h.Lo(Cx) == p[0] && h.Lo(Ax) == h0.guest.regs[p[1]];
    h := h.Andl1f(Cx);
    assert h.Lo(Ax) == h0.guest.regs[p[1]] && h.Get(Cx) == p[0] % 32;
    h := if op == Isa.Sll then h.ShllCl(Ax) else if op == Isa.Srl then h.ShrlCl(Ax) else h.SarlCl(Ax);
    o := Retire(h, p, 2, Dx, Ax);
  }

  method RunAdd(p: seq<Word>, h0: Host) returns (o: Outcome)
    requires Ready(h0, AluT(Isa.Add), p)
    ensures Shows(o, Falls(Retired(h0.guest, p[2], Wrap(h0.guest.regs[p[0]] as int + h0.guest.regs[p[1]] as int))))
  {
    var h := FetchReg(h0, p, 0, Dx, Si);
    h := FetchReg(h, p, 1, Dx, Ax);
    assert h.Lo(Si) == h0.guest.regs[p[0]] && h.Lo(Ax) == h0.guest.regs[p[1]];
    h := h.Addl(Si, Ax);
    o := Retire(h, p, 2, Dx, Ax);
  }

  method RunSub(p: seq<Word>, h0: Host) returns (o: Outcome)
    requires Ready(h0, AluT(Isa.Sub), p)
    ensures Shows(o, Falls(Retired(h0.guest, p[2], Wrap(h0.guest.regs[p[0]] as int - h0.guest.regs[p[1]] as int))))
  {
    var h := FetchReg(h0, p, 0, Dx, Ax);
    h := FetchReg(h, p, 1, Dx, Si);
    assert h.Lo(Ax) == h0.guest.regs[p[0]] && h.Lo(Si) == h0.guest.regs[p[1]];
    h := h.Subl(Si, Ax);
    o := Retire(h, p, 2, Dx, Ax);
  }

  method RunLogic(op: Isa.AluOp, p: seq<Word>, h0: Host) returns (o: Outcome)
    requires IsLogic(op) && Ready(h0, AluT(op), p)
    ensures Shows(o, Falls(Retired(h0.guest, p[2], LogicOp(LogicOf(op), h0.guest.regs[p[0]], h0.guest.regs[p[1]]))))
  {
    ghost var a, b := h0.guest.regs[p[0]], h0.guest.regs[p[1]];
    assert LogicOp(LogicOf(op), b, a) == LogicOp(LogicOf(op), a, b) by { LogicCommutes(LogicOf(op), a, b); }
    var h := FetchReg(h0, p, 0, Dx, Si);
    h := FetchReg(h, p, 1, Dx, Ax);
    assert h.Lo(Si) == a && h.Lo(Ax) == b;
    h := h.Logicl(LogicOf(op), Si, Ax);
    o := Retire(h, p, 2, Dx, Ax);
  }

  method RunCompare(op: Isa.AluOp, p: seq<Word>, h0: Host) returns (o: Outcome)
    requires IsCompare(op) && Ready(h0, AluT(op), p)
    ensures Shows(o, Falls(Retired(h0.guest, p[2], Compared(op, h0.guest.regs[p[0]], h0.guest.regs[p[1]]))))
  {
    var h := h0.Zero(Cx);
    h := FetchReg(h, p, 0, Dx, Si);
    h := FetchReg(h, p, 1, Dx, Di);
    h := h.Cmpl(Di, Si);
    h := h.Setb(if op == Isa.Slt then IfLess else IfBelow, Cx);
    h := h.Movzbl(Cx, Cx);
    o := Retire(h, p, 2, Dx, Cx);
  }

  method RunShift(op: Isa.AluOp, p: seq<Word>, h0: Host) returns (o: Outcome)
    requires IsShift(op) && Ready(h0, AluT(op), p)
    ensures Shows(o, Falls(Retired(h0.guest, p[2], Shifted(op, h0.guest.regs[p[0]], h0.guest.regs[p[1]] % 32))))
  {
    var h := FetchReg(h0, p, 0, Dx, Ax);
    h := FetchReg(h, p, 1, Dx, Cx);
    assert h.Lo(Ax) == h0.guest.regs[p[0]] && h.Lo(Cx) == h0.guest.regs[p[1]];
    h := h.Andl1f(Cx);
    assert h.Lo(Ax) == h0.guest.regs[p[0]] && h.Get(Cx) == h0.guest.regs[p[1]] % 32;
    h := if op == Isa.Sll then h.ShllCl(Ax) else if op == Isa.Srl then h.ShrlCl(Ax) else h.SarlCl(Ax);
    o := Retire(h, p, 2, Dx, Ax);
  }

  // ---- multiplication and division ----

  lemma WrapOfMultiple(n: int, k: int)
    ensures Wrap(n - TWO32 * k) == Wrap(n)
  {
  }

  /** The low word of a product does not depend on the signs of the operands. */
  lemma LowProduct(a: Word, b: Word)
    ensures Wrap(Signed(b) * Signed(a)) == Wrap(a * b)
  {
    var x, y := if a < TWO31 then 0 else 1, if b < TWO31 then 0 else 1;
    var k := x * b + y * a - TWO32 * x * y;
    assert Signed(b) * Signed(a) == (b - TWO32 * y) * (a - TWO32 * x) == a * b - TWO32 * k;
    WrapOfMultiple(a * b, k);
  }

  method MultiplyOperands(p: seq<Word>, h0: Host) returns (h: Host)
    requires h0.Valid() && |p| == 3 && p[0] < 32 && p[1] < 32
    ensures h.Lo(Dx) == h0.guest.regs[p[0]] && h.Lo(Ax) == h0.guest.regs[p[1]]
    ensures h.guest == h0.guest && h.r15 == h0.r15
  {
    h := FetchReg(h0, p, 0, Si, Dx);
    h := FetchReg(h, p, 1, Si, Ax);
  }

  method RunMul(p: seq<Word>, h0: Host) returns (o: Outcome)
    requires Ready(h0, MulDivT(Isa.Mul), p)
    ensures Shows(o, Falls(Retired(h0.guest, p[2], Wrap(h0.guest.regs[p[0]] as int * h0.guest.regs[p[1]] as int))))
  {
    var h := MultiplyOperands(p, h0);
    LowProduct(h.Lo(Dx), h.Lo(Ax));
    h := h.Imull(Dx);
    o := Retire(h, p, 2, Di, Ax);
  }

  method RunMulh(p: seq<Word>, h0: Host) returns (o: Outcome)
    requires Ready(h0, MulDivT(Isa.Mulh), p)
    ensures Shows(o, Falls(Retired(h0.guest, p[2],
      Wrap(Signed(h0.guest.regs[p[0]]) * Signed(h0.guest.regs[p[1]]) / TWO32))))
  {
    var h := MultiplyOperands(p, h0);
    assert Signed(h.Lo(Dx)) * Signed(h.Lo(Ax)) == Signed(h.Lo(Ax)) * Signed(h.Lo(Dx));
    h := h.Imull(Dx);
    o := Retire(h, p, 2, Di, Dx);
  }

  method RunMulhu(p: seq<Word>, h0: Host) returns (o: Outcome)
    requires Ready(h0, MulDivT(Isa.Mulhu), p)
    ensures Shows(o, Falls(Retired(h0.guest, p[2],
      Wrap(h0.guest.regs[p[0]] as int * h0.guest.regs[p[1]] as int / TWO32))))
  {
    var h := MultiplyOperands(p, h0);
    assert h.Lo(Dx) as int * h.Lo(Ax) as int == h.Lo(Ax) as int * h.Lo(Dx) as int;
    h := h.Mull(Dx);
    o := Retire(h, p, 2, Di, Dx);
  }

  lemma MulAtMost(x: int, m: int, y: int)
    requires x <= m && 0 <= y
    ensures x * y <= m * y
  {
    assert m * y == x * y + (m - x) * y;
  }

  lemma ProductBound(x: int, y: int)
    requires -TWO31 <= x < TWO31 && 0 <= y < TWO32
    ensures -0x8000_0000_0000_0000 <= x * y < 0x8000_0000_0000_0000
  {
    MulAtMost(x, TWO31 - 1, y);
    MulAtMost(-TWO31, x, y);
  }

  /** The upper half of the low quad of a product that fits 64 bits. */
  lemma UpperHalf(product: int)
    requires -0x8000_0000_0000_0000 <= product < 0x8000_0000_0000_0000
    ensures Wrap64(product) / TWO32 % TWO32 == Wrap(product / TWO32)
  {
    if product < 0 {
      assert Wrap64(product) == product + TWO64;
      assert (product + TWO64) / TWO32 == product / TWO32 + TWO32;
    }
  }

  /** The sign-extended rs1 in rax and the zero-extended rs2 in rdx. */
  method MixedOperands(p: seq<Word>, h0: Host) returns (h: Host)
    requires h0.Valid() && |p| == 3 && p[0] < 32 && p[1] < 32
    ensures h.Valid() && h.guest == h0.guest && h.r15 == h0.r15
    ensures Signed64(h.Get(Ax)) == Signed(h0.guest.regs[p[0]]) && Signed64(h.Get(Dx)) == h0.guest.regs[p[1]]
  {
    h := FetchReg(h0, p, 0, Si, Ax);
    h := h.Movsxd(Ax, Ax);
    h := FetchReg(h, p, 1, Si, Dx);
  }

  lemma UpperOfMixed(a: Word, b: Word)
    ensures Wrap64(Signed(a) * b) / TWO32 % TWO32 == Wrap(Signed(a) * b / TWO32)
  {
    ProductBound(Signed(a), b);
    UpperHalf(Signed(a) * b);
  }

  method RunMulhsu(p: seq<Word>, h0: Host) returns (o: Outcome)
    requires Ready(h0, MulDivT(Isa.Mulhsu), p)
    ensures Shows(o, Falls(Retired(h0.guest, p[2],
      Wrap(Signed(h0.guest.regs[p[0]]) * h0.guest.regs[p[1]] / TWO32))))
  {
    ghost var a, b := h0.guest.regs[p[0]], h0.guest.regs[p[1]];
    var h := MixedOperands(p, h0);
    h := h.Imulq(Dx);
    assert h.Get(Ax) == Wrap64(Signed(a) * b);
    UpperOfMixed(a, b);
    h := h.Shrq32(Ax);
    o := Retire(h, p, 2, Di, Ax);
  }

  /** edx:eax holds the sign-extended rs1 and ebx holds rs2. */
  method SignedOperands(p: seq<Word>, h0: Host) returns (h: Host)
    requires h0.Valid() && |p| == 3 && p[0] < 32 && p[1] < 32
    ensures Signed64(TWO32 * h.Lo(Dx) + h.Lo(Ax)) == Signed(h0.guest.regs[p[0]])
    ensures h.Lo(Bx) == h0.guest.regs[p[1]] && h.guest == h0.guest && h.r15 == h0.r15
  {
    h := FetchReg(h0, p, 0, Si, Ax);
    h := h.Movsxd(Ax, Dx);
    h := h.Shrq32(Dx);
    assert h.Lo(Ax) == h0.guest.regs[p[0]] && h.Get(Dx) == if h.Lo(Ax) < TWO31 then 0 else 0xffff_ffff;
    h := FetchReg(h, p, 1, Si, Bx);
  }

  /** edx:eax holds the zero-extended rs1 and ebx holds rs2. */
  method UnsignedOperands(p: seq<Word>, h0: Host) returns (h: Host)
    requires h0.Valid() && |p| == 3 && p[0] < 32 && p[1] < 32
    ensures h.Lo(Dx) == 0 && h.Lo(Ax) == h0.guest.regs[p[0]]
    ensures h.Lo(Bx) == h0.guest.regs[p[1]] && h.guest == h0.guest && h.r15 == h0.r15
  {
    h := FetchReg(h0, p, 0, Si, Ax);
    h := h.Zero(Dx);
    h := FetchReg(h, p, 1, Si, Bx);
  }

  lemma {:induction false} TimesGrows(d: nat, q: nat, c: nat)
    requires d >= c
    ensures d * q >= c * q
    decreases d
  {
    if d > c {
      TimesGrows(d - 1, q, c);
      assert d * q == (d - 1) * q + q;
    }
  }

  lemma Euclid(n: nat, d: nat)
    requires d >= 1
    ensures n == d * (n / d) + n % d && n / d >= 0 && n % d >= 0
  {
  }

  lemma QuotientBound(n: nat, d: nat)
    requires d >= 1
    ensures Quotient(n, d) <= n && (d >= 2 ==> Quotient(n, d) <= n / 2)
  {
    Euclid(n, d);
    TimesGrows(d, n / d, 1);
    if d >= 2 {
      TimesGrows(d, n / d, 2);
    }
  }

  lemma QuotientEdge(n: nat, d: nat)
    requires n <= TWO31 && 1 <= d
    ensures Quotient(n, d) <= TWO31 && (Quotient(n, d) == TWO31 <==> n == TWO31 && d == 1)
  {
    QuotientBound(n, d);
    if d == 1 {
      assert n / 1 == n;
    }
  }

  /** A 32-bit quotient leaves the 32-bit range only in the one overflowing case. */
  lemma QuotientFits(x: int, y: int)
    requires -TWO31 <= x < TWO31 && -TWO31 <= y < TWO31 && y != 0
    ensures -TWO31 <= Isa.TruncDiv(x, y) < TWO31 <==> !(x == -TWO31 && y == -1)
  {
    QuotientEdge(Isa.Abs(x), Isa.Abs(y));
  }

  /** idiv on operands that stand for `a` and `b`. */
  method SignedDivide(h: Host, a: Word, b: Word) returns (r: Option<Host>)
    requires Signed64(TWO32 * h.Lo(Dx) + h.Lo(Ax)) == Signed(a) && h.Lo(Bx) == b
    ensures r.None? <==> b == 0 || Isa.DivOverflows(a, b)
    ensures r.Some? ==> r.value.guest == h.guest && r.value.r15 == h.r15
    ensures r.Some? ==> r.value.Lo(Ax) == Wrap(Isa.TruncDiv(Signed(a), Signed(b)))
    ensures r.Some? ==> r.value.Lo(Dx) == Wrap(Isa.TruncRem(Signed(a), Signed(b)))
  {
    hide Isa.TruncDiv, Isa.TruncRem;
    if b != 0 {
      QuotientFits(Signed(a), Signed(b));
    }
    r := h.Idivl(Bx);
  }

  lemma WordSurvives(w: Word)
    ensures w % TWO32 == w
  {
  }

  /** div on operands that stand for `a` and `b`. */
  method UnsignedDivide(h: Host, a: Word, b: Word) returns (r: Option<Host>)
    requires h.Lo(Dx) == 0 && h.Lo(Ax) == a && h.Lo(Bx) == b
    ensures r.None? <==> b == 0
    ensures r.Some? ==> r.value.guest == h.guest && r.value.r15 == h.r15
    ensures r.Some? ==> r.value.Lo(Ax) == Wrap(Quotient(a, b)) && r.value.Lo(Dx) == Wrap(Remainder(a, b))
  {
    hide Quotient, Remainder, Wrap;
    assert TWO32 * h.Lo(Dx) + h.Lo(Ax) == a;
    if b != 0 {
      QuotientBound(a, b);
      WordSurvives(Wrap(Quotient(a, b)));
      WordSurvives(Wrap(Remainder(a, b)));
    }
    r := h.Divl(Bx);
  }

  method RunDiv(p: seq<Word>, h0: Host) returns (o: Outcome)
    requires Ready(h0, MulDivT(Isa.Div), p)
    ensures Shows(o, MulDivEffect(Isa.Div, p, h0.guest))
  {
    var h := SignedOperands(p, h0);
    h := h.Movl(Bx, R8);
    h := h.CmplImm(0, R8);
    if h.Is(IfNotEqual) {
      var divided := SignedDivide(h, h0.guest.regs[p[0]], h0.guest.regs[p[1]]);
      if divided.None? { return HostFault; }
      h := divided.value;
    } else {
      h := h.MovlImm(0xffff_ffff, Ax);
    }
    o := Retire(h, p, 2, Di, Ax);
  }

  method RunRem(p: seq<Word>, h0: Host) returns (o: Outcome)
    requires Ready(h0, MulDivT(Isa.Rem), p)
    ensures Shows(o, MulDivEffect(Isa.Rem, p, h0.guest))
  {
    var h := SignedOperands(p, h0);
    var divided := SignedDivide(h, h0.guest.regs[p[0]], h0.guest.regs[p[1]]);
    if divided.None? { return HostFault; }
    o := Retire(divided.value, p, 2, Di, Dx);
  }

  method RunDivu(p: seq<Word>, h0: Host) returns (o: Outcome)
    requires Ready(h0, MulDivT(Isa.Divu), p)
    ensures Shows(o, MulDivEffect(Isa.Divu, p, h0.guest))
  {
    var h := UnsignedOperands(p, h0);
    h := h.Movl(Bx, R8);
    h := h.CmplImm(0, R8);
    if h.Is(IfNotEqual) {
      var divided := UnsignedDivide(h, h0.guest.regs[p[0]], h0.guest.regs[p[1]]);
      if divided.None? { return HostFault; }
      h := divided.value;
    } else {
      h := h.MovlImm(0xffff_ffff, Ax);
    }
    o := Retire(h, p, 2, Di, Ax);
  }

  method RunRemu(p: seq<Word>, h0: Host) returns (o: Outcome)
    requires Ready(h0, MulDivT(Isa.Remu), p)
    ensures Shows(o, MulDivEffect(Isa.Remu, p, h0.guest))
  {
    var h := UnsignedOperands(p, h0);
    var divided := UnsignedDivide(h, h0.guest.regs[p[0]], h0.guest.regs[p[1]]);
    if divided.None? { return HostFault; }
    o := Retire(divided.value, p, 2, Di, Dx);
  }

  // ---- dispatch ----

  method RunAluImm(op: Isa.AluOp, p: seq<Word>, h: Host) returns (o: Outcome)
    requires Ready(h, AluImmT(op), p)
    ensures Shows(o, AluImmEffect(op, p, h.guest))
  {
    match op {
      case Add => o := RunAddImm(p, h);
      case Slt => o := RunCompareImm(op, p, h);
      case Sltu => o := RunCompareImm(op, p, h);
      case XorOp => o := RunLogicImm(op, p, h);
      case OrOp => o := RunLogicImm(op, p, h);
      case AndOp => o := RunLogicImm(op, p, h);
      case Sll => o := RunShiftImm(op, p, h);
      case Srl => o := RunShiftImm(op, p, h);
      case Sra => o := RunShiftImm(op, p, h);
    }
  }

  method RunAlu(op: Isa.AluOp, p: seq<Word>, h: Host) returns (o: Outcome)
    requires Ready(h, AluT(op), p)
    ensures Shows(o, AluEffect(op, p, h.guest))
  {
    match op {
      case Add => o := RunAdd(p, h);
      case Sub => o := RunSub(p, h);
      case Slt => o := RunCompare(op, p, h);
      case Sltu => o := RunCompare(op, p, h);
      case XorOp => o := RunLogic(op, p, h);
      case OrOp => o := RunLogic(op, p, h);
      case AndOp => o := RunLogic(op, p, h);
      case Sll => o := RunShift(op, p, h);
      case Srl => o := RunShift(op, p, h);
      case Sra => o := RunShift(op, p, h);
    }
  }

  method RunMulDiv(op: Isa.MulDivOp, p: seq<Word>, h: Host) returns (o: Outcome)
    requires Ready(h, MulDivT(op), p)
    ensures Shows(o, MulDivEffect(op, p, h.guest))
  {
    match op {
      case Mul => o := RunMul(p, h);
      case Mulh => o := RunMulh(p, h);
      case Mulhsu => o := RunMulhsu(p, h);
      case Mulhu => o := RunMulhu(p, h);
      case Div => o := RunDiv(p, h);
      case Divu => o := RunDivu(p, h);
      case Rem => o := RunRem(p, h);
      case Remu => o := RunRemu(p, h);
    }
  }

  /** Running any block from its first byte has exactly the block's effect on the guest. */
  method RunBlock(env: Isa.Env, b: Block, h: Host, k: Clobber) returns (o: Outcome)
    requires Ready(h, b.t, b.params)
    ensures Shows(o, BlockEffect(env, b, h.guest))
  {
    match b.t {
      case LuiT => o := RunLui(b.params, h);
      case AuipcT => o := RunAuipc(b.params, h);
      case JalT => o := RunJal(b.params, h);
      case JalrT => o := RunJalr(b.params, h);
      case BranchT(c) => o := RunBranch(c, b.params, h);
      case LoadT(op) => o := RunLoad(op, b.params, h, k);
      case StoreT(size) => o := RunStore(size, b.params, h, k);
      case AluImmT(op) => o := RunAluImm(op, b.params, h);
      case AluT(op) => o := RunAlu(op, b.params, h);
      case MulDivT(op) => o := RunMulDiv(op, b.params, h);
      case FenceT => o := Fell(h.Proceed());
      case FenceIT => o := Flushed(h.Call(k).Proceed());
      case EcallT => o := Trapped(h.CallEcall(env, k).Proceed());
    }
  }

  // ---- a block means what the ISA says of the instruction it was made from ----

  ghost predicate WellFormed(i: Isa.Instr) {
    && (i.Lui? || i.Auipc? ==> 0 <= i.imm < TWO32 && i.imm % 0x1000 == 0)
    && (i.OpImm? ==> i.aop != Isa.Sub && (IsShift(i.aop) ==> 0 <= i.imm < 32))
  }

  lemma UpperIsAligned(w: Word)
    ensures 0 <= Isa.ImmU(w) < TWO32 && Isa.ImmU(w) % 0x1000 == 0
  {
  }

  lemma DecodedIsWellFormed(w: Word)
    requires Isa.Decode(w).Some?
    ensures WellFormed(Isa.Decode(w).value)
  {
    UpperIsAligned(w);
    hide Isa.ImmU, Isa.ImmI, Isa.ImmS, Isa.ImmB, Isa.ImmJ;
  }

  /** What running the block of `i` must come to: the ISA's result, unless the host divider faults. */
  function Expected(env: Isa.Env, i: Isa.Instr, g: Isa.Guest): Effect
    requires Isa.ValidGuest(g)
  {
    if i.MulDiv? && DivideFaults(i.mop, g.regs[i.rs1], g.regs[i.rs2]) then DivideError
    else match Isa.Exec(env, i, g)
      case AccessFault => NoRegion
      case Done(g') => if i.FenceI? then Flushes(g') else if Isa.EndsBlock(i) then Traps(g') else Falls(g')
  }

  /** An upper immediate is the field that is patched in, shifted back. */
  lemma UpperField(imm: int)
    requires 0 <= imm < TWO32 && imm % 0x1000 == 0
    ensures Wrap(Wrap(imm) / 0x1000 * 0x1000) == imm == Wrap(imm)
  {
  }

  lemma UpperMeans(env: Isa.Env, i: Isa.Instr, g: Isa.Guest)
    requires Isa.ValidGuest(g) && WellFormed(i) && (i.Lui? || i.Auipc?)
    ensures BlockEffect(env, BlockOf(i, g.pc), g) == Expected(env, i, g)
  {
    UpperField(i.imm);
    hide Wrap;
  }

  lemma JumpMeans(env: Isa.Env, i: Isa.Instr, g: Isa.Guest)
    requires Isa.ValidGuest(g) && (i.Jal? || i.Jalr? || i.Branch?)
    ensures BlockEffect(env, BlockOf(i, g.pc), g) == Expected(env, i, g)
  {
    if i.Jalr? {
      WrapAbsorbs(i.imm, g.regs[i.rs1]);
    }
  }

  lemma MemoryMeans(env: Isa.Env, i: Isa.Instr, g: Isa.Guest)
    requires Isa.ValidGuest(g) && (i.Load? || i.Store?)
    ensures BlockEffect(env, BlockOf(i, g.pc), g) == Expected(env, i, g)
  {
    WrapAbsorbs(i.imm, g.regs[i.rs1]);
  }

  lemma ImmediateMeans(env: Isa.Env, i: Isa.Instr, g: Isa.Guest)
    requires Isa.ValidGuest(g) && WellFormed(i) && i.OpImm?
    ensures BlockEffect(env, BlockOf(i, g.pc), g) == Expected(env, i, g)
  {
    if IsShift(i.aop) {
      assert Wrap(i.imm) % 32 == i.imm && Wrap(i.imm + 0x400) % 32 == i.imm;
    }
  }

  /** A block has the effect the ISA gives its instruction, except for the divide errors of the host. */
  lemma BlockMeansInstruction(env: Isa.Env, i: Isa.Instr, g: Isa.Guest)
    requires Isa.ValidGuest(g) && WellFormed(i)
    ensures ValidBlock(BlockOf(i, g.pc))
    ensures BlockEffect(env, BlockOf(i, g.pc), g) == Expected(env, i, g)
  {
    if i.Lui? || i.Auipc? {
      UpperMeans(env, i, g);
    } else if i.Jal? || i.Jalr? || i.Branch? {
      JumpMeans(env, i, g);
    } else if i.Load? || i.Store? {
      MemoryMeans(env, i, g);
    } else if i.OpImm? {
      ImmediateMeans(env, i, g);
    }
  }
}
