/**
  A program that misses its jumper: a hart that has translated 512 instructions in a row, and a next pc at which a
  prefetch would flush and refill the cache to exactly where it stands, with no jumper at the end.
 */
module MissedJumper {
  import opened Words
  import opened Collections
  import opened Translator
  import opened TranslationCache
  import opened Engine
  import Isa
  import PcIndex

  const LUI: Byte := 0xb7      // lui x1, 0 is the word 0x000000b7
  const AUIPC: Byte := 0x97    // auipc x1, 0 is the word 0x00000097
  const SECOND: Word := 2048   // where the second line of 512 instructions starts

  /** Two lines of 512 instructions: all lui, except that the second starts with three auipc; then one more lui. */
  function Program(): Isa.Mem {
    map a: Word | 0 <= a < 4100 :: if a % 4 != 0 then 0 else if SECOND <= a < SECOND + 12 then AUIPC else LUI
  }

  /** Every template has 92 bytes of code, so an auipc, with one parameter more than a lui, is 4 bytes longer. */
  function Sizes(): (l: Layout)
    ensures l.Valid() && l.jumper == 12 && l.Len(LuiT) == 100 && l.Len(AuipcT) == 104
  {
    Layout((t: Template) => 92, 12)
  }

  lemma FetchAt(p: Word, w: Word)
    requires p < 4100 && p % 4 == 0 && w == if SECOND <= p < SECOND + 12 then 0x97 else 0xb7
    ensures Isa.Fetch(Program(), p) == Some(w)
  {
    var m := Program();
    assert p + 3 < 4100 && (p + 1) % 4 == 1 && (p + 2) % 4 == 2 && (p + 3) % 4 == 3;
    assert m[p] == w && m[p + 1] == 0 && m[p + 2] == 0 && m[p + 3] == 0;
  }

  lemma AuipcWord(p: Word)
    ensures Translate(0x97, p) == Emit(Block(AuipcT, [0, 1, p]))
  {
    hide SignExtend, FieldI, FieldS, FieldB, FieldUJ;
    assert Translate(0x97, p) == TranslateUpper(0x97, p);
  }

  lemma LuiWord(p: Word)
    ensures Translate(0xb7, p) == Emit(Block(LuiT, [0, 1]))
  {
    hide SignExtend, FieldI, FieldS, FieldB, FieldUJ;
    assert Translate(0xb7, p) == TranslateUpper(0xb7, p);
  }

  /** The instruction at a word of the program. */
  lemma ProgramAt(p: Word)
    requires p < 4100 && p % 4 == 0
    ensures Source(Program())(p) ==
      if SECOND <= p < SECOND + 12 then Emit(Block(AuipcT, [0, 1, p])) else Emit(Block(LuiT, [0, 1]))
  {
    var w: Word := if SECOND <= p < SECOND + 12 then 0x97 else 0xb7;
    FetchAt(p, w);
    hide Program, Isa.Fetch;
    if w == 0x97 { AuipcWord(p); } else { LuiWord(p); }
    hide Translate;
  }

  function Times(n: nat, len: nat): nat {
    if n == 0 then 0 else len + Times(n - 1, len)
  }

  lemma {:induction false} TimesIsProduct(n: nat, len: nat)
    ensures Times(n, len) == n * len
  {
    if n > 0 {
      TimesIsProduct(n - 1, len);
      assert n * len == (n - 1) * len + len;
    }
  }

  lemma AtShift(p: Word, i: nat)
    ensures At(Isa.Next(p), i) == At(p, i + 1)
  {
    WrapAbsorbs(p + 4, 4 * i);
  }

  /** Translating `n` blocks of one length moves the fill pointer on by as many lengths. */
  lemma {:induction false} RefillLine(layout: Layout, code: Word -> Translation, p: Word, ptr: nat, nr: nat, n: nat,
                                      len: nat)
    requires nr + n <= PcIndex.MAX_INSTRUCTIONS && ptr + Times(n, len) <= TRANSLATION_CACHE_SIZE - layout.jumper
    requires forall i :: 0 <= i < n ==>
      var t := code(At(p, i)); t.Emit? && !Stops(t.block.t) && layout.Len(t.block.t) == len
    ensures Refill(layout, code, p, ptr, nr) == Refill(layout, code, At(p, n), ptr + Times(n, len), nr + n)
    decreases n
  {
    hide At, Refill;
    AtNext(p, 0);
    if n > 0 {
      var t := code(At(p, 0));
      RefillOnce(layout, code, p, ptr, nr, t.block);
      forall i | 0 <= i < n - 1 ensures At(Isa.Next(p), i) == At(p, i + 1) {
        AtShift(p, i);
      }
      RefillLine(layout, code, Isa.Next(p), ptr + len, nr + 1, n - 1, len);
      AtShift(p, n - 1);
    }
  }

  lemma AtSmall(p: Word, i: nat)
    requires p + 4 * i < 4100 && p % 4 == 0
    ensures At(p, i) == p + 4 * i && At(p, i) % 4 == 0
  {
  }

  lemma LineOfLui(p: Word, n: nat)
    requires p % 4 == 0 && p + 4 * n <= 4100 && (p + 4 * n <= SECOND || p >= SECOND + 12)
    ensures forall i :: 0 <= i < n ==> Source(Program())(At(p, i)) == Emit(Block(LuiT, [0, 1]))
  {
    hide At, Source, Program;
    forall i | 0 <= i < n ensures Source(Program())(At(p, i)) == Emit(Block(LuiT, [0, 1])) {
      AtSmall(p, i);
      ProgramAt(At(p, i));
    }
  }

  /** With 512 blocks cached, translation stops. */
  lemma FullStops(layout: Layout, code: Word -> Translation, p: Word, ptr: nat)
    ensures Refill(layout, code, p, ptr, PcIndex.MAX_INSTRUCTIONS) == Filled(ptr, PcIndex.MAX_INSTRUCTIONS, false)
  {
  }

  /** The first line: 512 blocks of 100 bytes. */
  lemma FirstLine()
    ensures Refill(Sizes(), Source(Program()), 0, 0, 0) == Filled(51200, 512, false)
  {
    hide Source, Program, Refill;
    LineOfLui(0, 512);
    TimesIsProduct(512, 100);
    hide Times;
    RefillLine(Sizes(), Source(Program()), 0, 0, 0, 512, 100);
    FullStops(Sizes(), Source(Program()), At(0, 512), 51200);
  }

  lemma ThreeAuipc()
    ensures At(SECOND, 3) == SECOND + 12
    ensures forall i :: 0 <= i < 3 ==> Source(Program())(At(SECOND, i)) == Emit(Block(AuipcT, [0, 1, At(SECOND, i)]))
  {
    hide At, Source, Program;
    AtSmall(SECOND, 3);
    forall i | 0 <= i < 3 ensures Source(Program())(At(SECOND, i)) == Emit(Block(AuipcT, [0, 1, At(SECOND, i)])) {
      AtSmall(SECOND, i);
      ProgramAt(At(SECOND, i));
    }
  }

  /** The second line: three blocks of 104 bytes and 509 of 100, which is the first line and a jumper. */
  lemma SecondLine()
    ensures Refill(Sizes(), Source(Program()), SECOND, 0, 0) == Filled(51212, 512, false)
  {
    hide Source, Program, Refill, At;
    var code := Source(Program());
    ThreeAuipc();
    LineOfLui(SECOND + 12, 509);
    TimesIsProduct(3, 104);
    TimesIsProduct(509, 100);
    hide Times;
    RefillLine(Sizes(), code, SECOND, 0, 0, 3, 104);
    RefillLine(Sizes(), code, SECOND + 12, 312, 3, 509, 100);
    FullStops(Sizes(), code, At(SECOND + 12, 509), 51212);
  }

  /** An empty cache has room for the first block, so the first run does not begin with a flush. */
  lemma FirstIsCached()
    ensures forall c: Cache :: c.ptr == 0 && c.index == map[] ==> !StartsWithFlush(Sizes(), Source(Program()), 0, c)
  {
    ProgramAt(0);
  }

  lemma NothingIsRejected(pc: Word)
    requires pc == 0 || pc == SECOND
    ensures forall c :: RunFailure(Sizes(), Source(Program()), pc, c) == None
  {
    hide At, Source, Program, RunFailure, Reaches;
    forall c ensures RunFailure(Sizes(), Source(Program()), pc, c) == None {
      if RunFailure(Sizes(), Source(Program()), pc, c).Some? {
        var i := WhereRunFails(Sizes(), Source(Program()), pc, c);
        AtSmall(pc, i);
        ProgramAt(At(pc, i));
        assert false;
      }
    }
  }

  lemma SecondIsNotCached(keys: set<Word>)
    requires keys <= Line(0, 512)
    ensures SECOND !in keys
  {
    NextIsNotOnLine(0, 512);
  }

  /**
    A hart with this program prefetches at pc 0; afterwards all its chains are closed, and a prefetch at the first
    instruction it has not translated would leave the last one open.
   */
  method Reach() returns (h: Hart)
    ensures fresh(h) && fresh(h.index) && fresh(h.index.items) && fresh(h.cells) && h.guest.mem == Program() &&
      h.Valid()
    ensures Isa.ValidGuest(h.guest) && h.layout == Sizes()
    ensures MissesJumper(h.layout, Source(h.guest.mem), SECOND, h.cache)
  {
    hide Source, Program, Refill, RunFailure, Line, Isa.Fetch, Hart.Core, Closed;
    var guest := Isa.Guest(seq(32, _ => 0), 0, Program());
    h := new Hart(Sizes(), guest);
    FirstIsCached();
    var r := h.Prefetch();
    NothingIsRejected(0);
    FirstLine();
    SecondIsNotCached(h.cache.index.Keys);
    SecondLine();
    h.Counters();
    ProgramAt(SECOND);
  }

  lemma MissFlushes(layout: Layout, code: Word -> Translation, pc: Word, c: Cache)
    requires MissesJumper(layout, code, pc, c)
    ensures StartsWithFlush(layout, code, pc, c)
  {
  }

  /** Once its guest is at that instruction, `prefetch_instructions` leaves the last chain open. */
  method Miss() returns (h: Hart)
    ensures fresh(h) && h.Core() && h.guest.pc == SECOND && !Closed(h.layout, h.cache)
  {
    hide Source, Program, Refill, RunFailure, Line, Isa.Fetch, Hart.Core, Closed, MissesJumper;
    h := Reach();
    h.MoveTo(h.guest.(pc := SECOND));
    MissFlushes(h.layout, Source(Program()), SECOND, h.cache);
    NothingIsRejected(SECOND);
    assert RunFailure(h.layout, Source(h.guest.mem), SECOND, h.cache) == None;
    var r := h.Prefetch();
  }
}
