/**
  The x86-64 instructions the code templates are made of, as functions on a small host state.
  The host reaches the guest registers through an address in r15 and the guest pc through r14.
 */
module HostMachine {
  import opened Words
  import opened Collections
  import Isa

  type Gpr = r: int | 0 <= r < 7

  const Ax: Gpr := 0
  const Bx: Gpr := 1
  const Cx: Gpr := 2
  const Dx: Gpr := 3
  const Si: Gpr := 4
  const Di: Gpr := 5
  const R8: Gpr := 6

  type Gprs = s: seq<Quad> | |s| == 7 witness [0, 0, 0, 0, 0, 0, 0]

  /** Flag conditions, read off the last `cmpl`. */
  datatype Flag = IfEqual | IfNotEqual | IfLess | IfGreaterEq | IfBelow | IfAboveEq

  /** What a called C function leaves in the registers it need not preserve. */
  datatype Clobber = Clobber(gprs: Gprs)

  /** A register whose low `size` part holds `v` and whose upper part is whatever was left there. */
  function LowPart(junk: Quad, size: Isa.Size, v: Word): Quad {
    match size
    case Byte8 => junk - junk % 0x100 + v % 0x100
    case Half16 => junk - junk % 0x1_0000 + v % 0x1_0000
    case Word32 => junk - junk % TWO32 + v
  }

  datatype Host = Host(gprs: Gprs, r15: Quad, compared: (Word, Word), guest: Isa.Guest) {
    predicate Valid() {
      |guest.regs| == 32 && r15 + 128 <= TWO64
    }

    function Get(r: Gpr): Quad { gprs[r] }
    function Set(r: Gpr, v: Quad): Host { this.(gprs := gprs[r := v]) }

    /** The low half of a register. */
    function Lo(r: Gpr): Word {
      Get(r) % TWO32
    }

    // ---- moves; a 32-bit destination is zero-extended ----

    function MovlParam(p: seq<Word>, i: nat, dst: Gpr): Host
      requires i < |p|
    {
      Set(dst, p[i])
    }

    function MovlImm(v: Word, dst: Gpr): Host { Set(dst, v) }
    function Movl(src: Gpr, dst: Gpr): Host { Set(dst, Lo(src)) }
    function Movsxd(src: Gpr, dst: Gpr): Host { Set(dst, Wrap64(Signed(Lo(src)))) }
    function Movzbl(src: Gpr, dst: Gpr): Host { Set(dst, Get(src) % 0x100) }
    function Movzwl(src: Gpr, dst: Gpr): Host { Set(dst, Get(src) % 0x1_0000) }

    function Movsbl(src: Gpr, dst: Gpr): Host {
      var b := Get(src) % 0x100;
      Set(dst, if b < 0x80 then b else 0xffff_ff00 + b)
    }

    function Movswl(src: Gpr, dst: Gpr): Host {
      var h := Get(src) % 0x1_0000;
      Set(dst, if h < 0x8000 then h else 0xffff_0000 + h)
    }

    // ---- arithmetic ----

    function Addl(src: Gpr, dst: Gpr): Host { Set(dst, Wrap(Lo(dst) + Lo(src))) }
    function AddlImm(v: Word, dst: Gpr): Host { Set(dst, Wrap(Lo(dst) + v)) }
    function Subl(src: Gpr, dst: Gpr): Host { Set(dst, Wrap(Lo(dst) - Lo(src))) }

    /** `andl`, `orl` and `xorl`. */
    function Logicl(op: Logic, src: Gpr, dst: Gpr): Host { Set(dst, LogicOp(op, Lo(dst), Lo(src))) }

    /** `xorl r, r`. */
    function Zero(r: Gpr): Host { Set(r, 0) }

    /** `andl` with the masks 0x1f, 0xff and 0xffff. */
    function Andl1f(dst: Gpr): Host { Set(dst, Lo(dst) % 0x20) }
    function AndlFf(dst: Gpr): Host { Set(dst, Lo(dst) % 0x100) }
    function AndlFfff(dst: Gpr): Host { Set(dst, Lo(dst) % 0x1_0000) }

    /** Shifts by `cl`, of which a 32-bit shift uses the low five bits. */
    function ShllCl(dst: Gpr): Host { Set(dst, ShiftLeft(Lo(dst), Get(Cx) % 32)) }
    function ShrlCl(dst: Gpr): Host { Set(dst, ShiftRight(Lo(dst), Get(Cx) % 32)) }
    function SarlCl(dst: Gpr): Host { Set(dst, ShiftRightSigned(Lo(dst), Get(Cx) % 32)) }

    function Shll2(dst: Gpr): Host { Set(dst, Wrap(Lo(dst) * 4)) }
    function Shll12(dst: Gpr): Host { Set(dst, Wrap(Lo(dst) * 0x1000)) }
    function Shrq32(dst: Gpr): Host { Set(dst, Get(dst) / TWO32) }

    /** `btr $0`. */
    function ClearBit0(dst: Gpr): Host { Set(dst, Lo(dst) - Lo(dst) % 2) }

    /** One-operand multiplications: the product in edx:eax, or the 128-bit one with its low half in rax. */
    function Imull(src: Gpr): Host {
      var product := Signed(Lo(Ax)) * Signed(Lo(src));
      Set(Ax, Wrap(product)).Set(Dx, Wrap(product / TWO32))
    }

    function Mull(src: Gpr): Host {
      var product := Lo(Ax) * Lo(src);
      Set(Ax, Wrap(product)).Set(Dx, Wrap(product / TWO32))
    }

    function Imulq(src: Gpr): Host {
      var product := Signed64(Get(Ax)) * Signed64(Get(src));
      Set(Ax, Wrap64(product)).Set(Dx, Wrap64(product / TWO64))
    }

    /** Divisions of edx:eax; the host faults on a zero divisor or when the quotient does not fit. */
    function Idivl(src: Gpr): Option<Host> {
      var dividend := Signed64(TWO32 * Lo(Dx) + Lo(Ax));
      var divisor := Signed(Lo(src));
      if divisor == 0 then None else
      var quotient := Isa.TruncDiv(dividend, divisor);
      if !(-0x8000_0000 <= quotient < 0x8000_0000) then None
      else Some(Set(Ax, Wrap(quotient)).Set(Dx, Wrap(Isa.TruncRem(dividend, divisor))))
    }

    function Divl(src: Gpr): Option<Host> {
      var dividend := TWO32 * Lo(Dx) + Lo(Ax);
      var divisor := Lo(src);
      if divisor == 0 || Quotient(dividend, divisor) >= TWO32 then None
      else Some(Set(Ax, Wrap(Quotient(dividend, divisor))).Set(Dx, Wrap(Remainder(dividend, divisor))))
    }

    // ---- comparisons ----

    /** `cmpl src, dst` compares dst with src. */
    function Cmpl(src: Gpr, dst: Gpr): Host { this.(compared := (Lo(dst), Lo(src))) }
    function CmplParam(p: seq<Word>, i: nat, dst: Gpr): Host
      requires i < |p|
    {
      this.(compared := (Lo(dst), p[i]))
    }
    function CmplImm(v: Word, dst: Gpr): Host { this.(compared := (Lo(dst), v)) }

    predicate Is(f: Flag) {
      var (a, b) := compared;
      match f
      case IfEqual => a == b
      case IfNotEqual => a != b
      case IfLess => Signed(a) < Signed(b)
      case IfGreaterEq => Signed(a) >= Signed(b)
      case IfBelow => a < b
      case IfAboveEq => a >= b
    }

    /** `setcc`: only the low byte changes. */
    function Setb(f: Flag, dst: Gpr): Host {
      Set(dst, Get(dst) - Get(dst) % 0x100 + if Is(f) then 1 else 0)
    }

    // ---- the guest register file, at r15, and the guest pc, at r14 ----

    function AddqBase(dst: Gpr): Host { Set(dst, Wrap64(Get(dst) + r15)) }

    predicate PointsAtReg(r: Gpr) {
      r15 <= Get(r) < r15 + 128 && (Get(r) - r15) % 4 == 0
    }

    function LoadReg(addr: Gpr, dst: Gpr): Host
      requires Valid() && PointsAtReg(addr)
    {
      Set(dst, guest.regs[(Get(addr) - r15) / 4])
    }

    function StoreReg(src: Gpr, addr: Gpr): Host
      requires Valid() && PointsAtReg(addr)
    {
      this.(guest := guest.(regs := guest.regs[(Get(addr) - r15) / 4 := Lo(src)]))
    }

    function LoadPc(dst: Gpr): Host { Set(dst, guest.pc) }
    function StorePc(src: Gpr): Host { this.(guest := guest.(pc := Lo(src))) }

    /** RESET_ZERO_REGISTER and PROCEED_TO_NEXT_INSTRUCTION. */
    function ResetZero(): Host
      requires Valid()
    {
      this.(guest := guest.(regs := guest.regs[0 := 0]))
    }

    function Proceed(): Host { this.(guest := guest.(pc := Wrap(guest.pc + 4))) }

    // ---- calls into the VMM; r12 to r15 are saved around them ----

    function Call(k: Clobber): Host {
      this.(gprs := k.gprs[Bx := Get(Bx)])
    }

    /** mmu_readN(hart, esi): only the low N bits of the result register mean anything. */
    function CallRead(size: Isa.Size, k: Clobber): Option<Host> {
      var v := Isa.Read(guest.mem, Lo(Si), size);
      if v.None? then None
      else
        Some(Call(k).Set(Ax, LowPart(k.gprs[Ax], size, v.value)))
    }

    /** mmu_writeN(hart, esi, edx). */
    function CallWrite(size: Isa.Size, k: Clobber): Option<Host> {
      var m := Isa.Write(guest.mem, Lo(Si), size, Lo(Dx));
      if m.None? then None else Some(Call(k).(guest := guest.(mem := m.value)))
    }

    /** ecall_callback: the system call's result goes to a0. */
    function CallEcall(env: Isa.Env, k: Clobber): Host
      requires Valid()
    {
      var (a0, mem) := env.sys(guest);
      Call(k).(guest := guest.(regs := guest.regs[10 := a0], mem := mem))
    }
  }

  /** The idiom "movl PARAM(i), s; shl $2, s; addq %r15, s": the address of a guest register. */
  method RegAddress(h: Host, p: seq<Word>, i: nat, scratch: Gpr) returns (r: Host)
    requires h.Valid() && i < |p| && p[i] < 32
    ensures r == h.Set(scratch, h.r15 + 4 * p[i])
  {
    r := h.MovlParam(p, i, scratch);
    r := r.Shll2(scratch);
    assert r.Get(scratch) == 4 * p[i];
    r := r.AddqBase(scratch);
    assert r.gprs == h.gprs[scratch := h.r15 + 4 * p[i]];
  }

  /** The idiom followed by a load from that address. */
  method FetchReg(h: Host, p: seq<Word>, i: nat, scratch: Gpr, dst: Gpr) returns (r: Host)
    requires h.Valid() && i < |p| && p[i] < 32
    ensures r == h.Set(scratch, h.r15 + 4 * p[i]).Set(dst, h.guest.regs[p[i]])
  {
    r := RegAddress(h, p, i, scratch);
    r := r.LoadReg(scratch, dst);
  }

  /** The idiom followed by a store to that address. */
  method PutReg(h: Host, p: seq<Word>, i: nat, scratch: Gpr, src: Gpr) returns (r: Host)
    requires h.Valid() && i < |p| && p[i] < 32 && scratch != src
    ensures r.Valid() && r.r15 == h.r15
    ensures r.guest == h.guest.(regs := h.guest.regs[p[i] := h.Lo(src)])
  {
    r := RegAddress(h, p, i, scratch);
    r := r.StoreReg(src, scratch);
  }
}
