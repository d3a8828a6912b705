/**
  The contents of the translation cache: what the bytes at an offset mean, and the shape that every
  prefetch run and every flush keep. Cells are the bytes of the cache; a flush erases none of them.
 */
module TranslationCache {
  import opened Words
  import opened Collections
  import opened Translator
  import Isa
  import PcIndex

  const TRANSLATION_CACHE_SIZE: nat := 65536
  const PLACEHOLDER: Word := 0xcccc_cccc

  /** One byte: of a template's code, of a parameter word, of the jumper, or anything else. */
  datatype Cell = Text(t: Template, at: int) | Datum(word: Word, at: int) | Jumper(at: int) | Junk

  /** Sizes only the assembler knows: the code bytes of each template, padding included, and of the jumper. */
  datatype Layout = Layout(text: Template -> nat, jumper: nat) {
    function Len(t: Template): nat {
      text(t) + 4 * ParamCount(t)
    }

    /** Every template fits an empty cache together with the jumper. */
    ghost predicate Valid() {
      && 0 < jumper
      && (forall t :: 0 < text(t) && Len(t) + jumper <= TRANSLATION_CACHE_SIZE)
    }
  }

  function WordCells(w: Word): seq<Cell> {
    [Datum(w, 0), Datum(w, 1), Datum(w, 2), Datum(w, 3)]
  }

  function ParamCells(p: seq<Word>): (s: seq<Cell>)
    ensures |s| == 4 * |p|
  {
    if p == [] then [] else WordCells(p[0]) + ParamCells(p[1..])
  }

  function TextCells(layout: Layout, t: Template): (s: seq<Cell>)
    ensures |s| == layout.text(t)
  {
    seq(layout.text(t), i => Text(t, i))
  }

  /** The parameters of a template before they are patched. */
  function Blank(n: nat): (p: seq<Word>)
    ensures |p| == n
  {
    seq(n, _ => PLACEHOLDER)
  }

  /** The bytes of a block with its parameters patched in. */
  function CodeOf(layout: Layout, b: Block): (s: seq<Cell>)
    ensures |s| == layout.text(b.t) + 4 * |b.params|
  {
    TextCells(layout, b.t) + ParamCells(b.params)
  }

  function JumperCells(layout: Layout): (s: seq<Cell>)
    ensures |s| == layout.jumper
  {
    seq(layout.jumper, i => Jumper(i))
  }

  predicate Holds(cells: seq<Cell>, off: nat, code: seq<Cell>) {
    off + |code| <= |cells| && cells[off..off + |code|] == code
  }

  // ---- what the host processor finds at an offset ----

  datatype Fetched = Runs(block: Block) | Jumps | Garbage

  function WordAt(cells: seq<Cell>, off: nat): Option<Word> {
    if off + 4 <= |cells| && cells[off].Datum? && cells[off..off + 4] == WordCells(cells[off].word)
    then Some(cells[off].word) else None
  }

  function ParamsAt(cells: seq<Cell>, off: nat, n: nat): Option<seq<Word>>
    decreases n
  {
    if n == 0 then Some([]) else
    var first, rest := WordAt(cells, off), ParamsAt(cells, off + 4, n - 1);
    if first.Some? && rest.Some? then Some([first.value] + rest.value) else None
  }

  function FetchCode(layout: Layout, cells: seq<Cell>, off: nat): Fetched {
    if off >= |cells| then Garbage else
    match cells[off]
    case Text(t, _) =>
      if !Holds(cells, off, TextCells(layout, t)) then Garbage else
      var p := ParamsAt(cells, off + layout.text(t), ParamCount(t));
      if p.Some? && ValidBlock(Block(t, p.value)) then Runs(Block(t, p.value)) else Garbage
    case Jumper(_) => if Holds(cells, off, JumperCells(layout)) then Jumps else Garbage
    case _ => Garbage
  }

  lemma {:induction false} ParamsRoundTrip(cells: seq<Cell>, off: nat, p: seq<Word>)
    requires Holds(cells, off, ParamCells(p))
    ensures ParamsAt(cells, off, |p|) == Some(p)
    decreases |p|
  {
    if p != [] {
      var code := ParamCells(p);
      assert cells[off..off + 4] == code[..4] == WordCells(p[0]);
      assert cells[off] == code[0];
      assert cells[off + 4..off + |code|] == code[4..] == ParamCells(p[1..]);
      ParamsRoundTrip(cells, off + 4, p[1..]);
      assert p == [p[0]] + p[1..];
    }
  }

  lemma HoldsBoth(cells: seq<Cell>, off: nat, a: seq<Cell>, b: seq<Cell>)
    requires Holds(cells, off, a + b)
    ensures Holds(cells, off, a) && Holds(cells, off + |a|, b)
    ensures a != [] ==> cells[off] == a[0]
  {
    var c := cells[off..off + |a + b|];
    assert cells[off..off + |a|] == c[..|a|] == a;
    assert cells[off + |a|..off + |a| + |b|] == c[|a|..] == b;
  }

  /** A block written whole is fetched back as that block, whatever surrounds it. */
  lemma FetchBlock(layout: Layout, cells: seq<Cell>, off: nat, b: Block)
    requires layout.Valid() && ValidBlock(b) && Holds(cells, off, CodeOf(layout, b))
    ensures FetchCode(layout, cells, off) == Runs(b)
  {
    hide ParamsAt, ParamCells, Holds;
    var text := TextCells(layout, b.t);
    assert Holds(cells, off, text + ParamCells(b.params));
    HoldsBoth(cells, off, text, ParamCells(b.params));
    ParamsRoundTrip(cells, off + |text|, b.params);
    assert cells[off] == text[0] == Text(b.t, 0);
  }

  lemma FetchJumper(layout: Layout, cells: seq<Cell>, off: nat)
    requires layout.Valid() && Holds(cells, off, JumperCells(layout))
    ensures FetchCode(layout, cells, off) == Jumps
  {
    assert cells[off] == cells[off..off + layout.jumper][0] == Jumper(0);
  }

  // ---- the cache as a value ----

  /** Cells, fill pointer, the pc index as a finite map, and the block each indexed pc stands for. */
  datatype Cache = Cache(cells: seq<Cell>, ptr: nat, index: map<Word, Word>, blocks: map<Word, Block>)

  function End(layout: Layout, c: Cache, p: Word): nat
    requires p in c.index && p in c.blocks
  {
    c.index[p] + layout.Len(c.blocks[p].t)
  }

  /** The block of `p` lies whole below the fill pointer. */
  ghost predicate Stored(layout: Layout, c: Cache, p: Word)
    requires p in c.index && p in c.blocks
  {
    && ValidBlock(c.blocks[p])
    && Holds(c.cells, c.index[p], CodeOf(layout, c.blocks[p]))
    && End(layout, c, p) <= c.ptr
  }

  /** `b` is the translation at `p` of a word that some memory image in `seen` holds there. */
  ghost predicate Translated(seen: set<Isa.Mem>, p: Word, b: Block) {
    exists m, w :: m in seen && Isa.Fetch(m, p) == Some(w) && Translate(w, p) == Emit(b)
  }

  /** Execution leaves the block of `p` for the block of `p + 4`, for the jumper, or for the VMM. */
  ghost predicate Continues(layout: Layout, c: Cache, p: Word)
    requires p in c.index && p in c.blocks
  {
    var e, q := End(layout, c, p), Isa.Next(p);
    || Stops(c.blocks[p].t)
    || (q in c.index && c.index[q] == e)
    || (e + layout.jumper <= c.ptr && Holds(c.cells, e, JumperCells(layout)))
  }

  ghost predicate Shape(layout: Layout, c: Cache) {
    && |c.cells| == TRANSLATION_CACHE_SIZE && c.ptr <= |c.cells|
    && c.index.Keys == c.blocks.Keys
    && (forall p :: p in c.index ==> Stored(layout, c, p))
  }

  /** Every indexed block was translated from what some image in `seen` holds. */
  ghost predicate Coherent(blocks: map<Word, Block>, seen: set<Isa.Mem>) {
    forall p {:trigger Translated(seen, p, blocks[p])} :: p in blocks ==> Translated(seen, p, blocks[p])
  }

  /** No fall-through chain can leave the blocks and the jumpers. */
  ghost predicate Closed(layout: Layout, c: Cache)
    requires c.index.Keys == c.blocks.Keys
  {
    forall p :: p in c.index ==> Continues(layout, c, p)
  }

  /** In the middle of a prefetch run, the last block may still end at the fill pointer, waiting for `next`. */
  ghost predicate OpenAt(layout: Layout, c: Cache, next: Word)
    requires c.index.Keys == c.blocks.Keys
  {
    forall p :: p in c.index ==>
      Continues(layout, c, p) || (End(layout, c, p) == c.ptr && Isa.Next(p) == next)
  }

  // ---- what writing at the fill pointer keeps ----

  /** Copying `code` into the cells from `off` on. */
  function Splice(cells: seq<Cell>, off: nat, code: seq<Cell>): (r: seq<Cell>)
    requires off + |code| <= |cells|
    ensures |r| == |cells|
    decreases |code|
  {
    if code == [] then cells else Splice(cells[off := code[0]], off + 1, code[1..])
  }

  lemma {:induction false} SpliceAt(cells: seq<Cell>, off: nat, code: seq<Cell>, x: nat)
    requires off + |code| <= |cells| && x < |cells|
    ensures Splice(cells, off, code)[x] == if off <= x < off + |code| then code[x - off] else cells[x]
    decreases |code|
  {
    if code != [] {
      SpliceAt(cells[off := code[0]], off + 1, code[1..], x);
    }
  }

  lemma SpliceHolds(cells: seq<Cell>, off: nat, code: seq<Cell>)
    requires off + |code| <= |cells|
    ensures Holds(Splice(cells, off, code), off, code)
  {
    forall x | off <= x < off + |code| ensures Splice(cells, off, code)[x] == code[x - off] {
      SpliceAt(cells, off, code, x);
    }
  }

  lemma SpliceKeeps(cells: seq<Cell>, off: nat, code: seq<Cell>, at: nat, other: seq<Cell>)
    requires off + |code| <= |cells| && Holds(cells, at, other) && at + |other| <= off
    ensures Holds(Splice(cells, off, code), at, other)
  {
    var s := Splice(cells, off, code);
    forall x | at <= x < at + |other| ensures s[x] == other[x - at] {
      SpliceAt(cells, off, code, x);
      assert cells[x] == cells[at..at + |other|][x - at];
    }
  }

  lemma {:induction false} ParamCellAt(p: seq<Word>, i: nat, j: nat)
    requires i < |p| && j < 4
    ensures ParamCells(p)[4 * i + j] == Datum(p[i], j)
    decreases |p|
  {
    if i > 0 {
      ParamCellAt(p[1..], i - 1, j);
    }
  }

  lemma ParamCellsDiffer(p: seq<Word>, i: nat, w: Word, k: nat)
    requires i < |p| && k < 4 * |p|
    ensures ParamCells(p[i := w])[k] == if 4 * i <= k < 4 * i + 4 then Datum(w, k - 4 * i) else ParamCells(p)[k]
  {
    ParamCellAt(p, k / 4, k % 4);
    ParamCellAt(p[i := w], k / 4, k % 4);
  }

  /** Writing one parameter word over its place in a block is the block with that parameter. */
  lemma PatchOne(layout: Layout, cells: seq<Cell>, off: nat, b: Block, i: nat, w: Word)
    requires off + |CodeOf(layout, b)| <= |cells| && i < |b.params|
    ensures Splice(Splice(cells, off, CodeOf(layout, b)), off + layout.text(b.t) + 4 * i, WordCells(w))
         == Splice(cells, off, CodeOf(layout, Block(b.t, b.params[i := w])))
  {
    var n, code, code' := layout.text(b.t), CodeOf(layout, b), CodeOf(layout, Block(b.t, b.params[i := w]));
    var mid := Splice(cells, off, code);
    var left, right := Splice(mid, off + n + 4 * i, WordCells(w)), Splice(cells, off, code');
    assert |left| == |right| == |cells|;
    forall x | 0 <= x < |cells| ensures left[x] == right[x] {
      SpliceAt(cells, off, code, x);
      SpliceAt(cells, off, code', x);
      SpliceAt(mid, off + n + 4 * i, WordCells(w), x);
      if off + n <= x < off + |code| {
        ParamCellsDiffer(b.params, i, w, x - off - n);
        assert code[x - off] == ParamCells(b.params)[x - off - n];
        assert code'[x - off] == ParamCells(b.params[i := w])[x - off - n];
      } else if off <= x < off + n {
        assert code[x - off] == Text(b.t, x - off) == code'[x - off];
      }
    }
  }

  /** The cache after a block for `p` is appended. */
  function Append(layout: Layout, c: Cache, p: Word, b: Block): Cache
    requires c.ptr + |CodeOf(layout, b)| <= |c.cells| && c.ptr < TWO32
  {
    var code := CodeOf(layout, b);
    Cache(Splice(c.cells, c.ptr, code), c.ptr + |code|, c.index[p := c.ptr], c.blocks[p := b])
  }

  lemma AppendKeepsEntry(layout: Layout, c: Cache, p: Word, b: Block, q: Word)
    requires Shape(layout, c) && ValidBlock(b) && p !in c.index && q in c.index
    requires c.ptr + layout.Len(b.t) <= TRANSLATION_CACHE_SIZE
    ensures var d := Append(layout, c, p, b);
      Stored(layout, d, q) && End(layout, d, q) == End(layout, c, q) &&
        (Continues(layout, c, q) ==> Continues(layout, d, q))
  {
    var code := CodeOf(layout, b);
    SpliceKeeps(c.cells, c.ptr, code, c.index[q], CodeOf(layout, c.blocks[q]));
    var e := End(layout, c, q);
    if e + layout.jumper <= c.ptr && Holds(c.cells, e, JumperCells(layout)) {
      SpliceKeeps(c.cells, c.ptr, code, e, JumperCells(layout));
    }
  }

  /** Appending the awaited block keeps the shape and moves the opening on by one instruction. */
  lemma AppendKeepsShape(layout: Layout, c: Cache, p: Word, b: Block)
    requires layout.Valid() && Shape(layout, c) && OpenAt(layout, c, p)
    requires ValidBlock(b) && p !in c.index
    requires c.ptr + layout.Len(b.t) <= TRANSLATION_CACHE_SIZE
    ensures var d := Append(layout, c, p, b);
      Shape(layout, d) && OpenAt(layout, d, Isa.Next(p)) && (Stops(b.t) ==> Closed(layout, d))
  {
    var d := Append(layout, c, p, b);
    SpliceHolds(c.cells, c.ptr, CodeOf(layout, b));
    forall q | q in d.index
      ensures Stored(layout, d, q)
      ensures q != p ==> Continues(layout, d, q)
    {
      if q != p {
        AppendKeepsEntry(layout, c, p, b, q);
        assert Continues(layout, c, q) || (End(layout, c, q) == c.ptr && Isa.Next(q) == p);
      }
    }
  }

  /** The cache after the jumper is appended. */
  function AppendJumper(layout: Layout, c: Cache): Cache
    requires c.ptr + layout.jumper <= |c.cells|
  {
    c.(cells := Splice(c.cells, c.ptr, JumperCells(layout)), ptr := c.ptr + layout.jumper)
  }

  lemma JumperKeepsEntry(layout: Layout, c: Cache, q: Word)
    requires Shape(layout, c) && q in c.index && c.ptr + layout.jumper <= TRANSLATION_CACHE_SIZE
    ensures var d := AppendJumper(layout, c);
      Stored(layout, d, q) && End(layout, d, q) == End(layout, c, q) &&
        (Continues(layout, c, q) ==> Continues(layout, d, q))
  {
    var code, e := JumperCells(layout), End(layout, c, q);
    SpliceKeeps(c.cells, c.ptr, code, c.index[q], CodeOf(layout, c.blocks[q]));
    if e + layout.jumper <= c.ptr && Holds(c.cells, e, code) {
      SpliceKeeps(c.cells, c.ptr, code, e, code);
    }
  }

  /** The jumper closes whatever block was left open at the fill pointer. */
  lemma JumperCloses(layout: Layout, c: Cache, next: Word)
    requires layout.Valid() && Shape(layout, c) && OpenAt(layout, c, next)
    requires c.ptr + layout.jumper <= TRANSLATION_CACHE_SIZE
    ensures Shape(layout, AppendJumper(layout, c)) && Closed(layout, AppendJumper(layout, c))
  {
    var d := AppendJumper(layout, c);
    SpliceHolds(c.cells, c.ptr, JumperCells(layout));
    forall q | q in d.index ensures Stored(layout, d, q) && Continues(layout, d, q) {
      JumperKeepsEntry(layout, c, q);
    }
  }

  /** Without the jumper an open block makes the cache unclosed. */
  lemma OpenIsNotClosed(layout: Layout, c: Cache, p: Word)
    requires layout.Valid() && Shape(layout, c) && p in c.index && !Stops(c.blocks[p].t)
    requires End(layout, c, p) == c.ptr && Isa.Next(p) !in c.index
    ensures !Closed(layout, c)
  {
    assert !Continues(layout, c, p);
  }

  lemma CoherenceGrows(blocks: map<Word, Block>, seen: set<Isa.Mem>, more: set<Isa.Mem>)
    requires Coherent(blocks, seen) && seen <= more
    ensures Coherent(blocks, more)
  {
    forall p | p in blocks ensures Translated(more, p, blocks[p]) {
      assert Translated(seen, p, blocks[p]);
    }
  }

  // ---- where a run that starts by flushing will end ----

  /** `unoccupied_cache_size`. */
  function Room(layout: Layout, ptr: nat, nr: nat): int {
    if nr < PcIndex.MAX_INSTRUCTIONS then TRANSLATION_CACHE_SIZE - ptr - layout.jumper else 0
  }

  function TranslateAt(mem: Isa.Mem, p: Word): Translation {
    var w := Isa.Fetch(mem, p);
    if w.None? then Rejected else Translate(w.value, p)
  }

  /** What the translators make of each address of a memory. */
  function Source(mem: Isa.Mem): Word -> Translation {
    (p: Word) => TranslateAt(mem, p)
  }

  /** The fill pointer and the number of blocks at which translation stops, and whether at a control block. */
  datatype Filled = Filled(ptr: nat, nr: nat, control: bool)

  /** Where straight-line translation from `p` stops, when it does not meet an older block. */
  function Refill(layout: Layout, code: Word -> Translation, p: Word, ptr: nat, nr: nat): Filled
    decreases PcIndex.MAX_INSTRUCTIONS - nr
  {
    var t := code(p);
    if nr >= PcIndex.MAX_INSTRUCTIONS || !t.Emit? ||
      layout.Len(t.block.t) > Room(layout, ptr, nr) then Filled(ptr, nr, false)
    else if Stops(t.block.t) then Filled(ptr + layout.Len(t.block.t), nr + 1, true)
    else Refill(layout, code, Isa.Next(p), ptr + layout.Len(t.block.t), nr + 1)
  }

  /** The first instruction of the run does not fit, so the run begins with a flush. */
  predicate StartsWithFlush(layout: Layout, code: Word -> Translation, pc: Word, c: Cache) {
    var t := code(pc);
    pc !in c.index && t.Emit? && layout.Len(t.block.t) > Room(layout, c.ptr, |c.index|)
  }

  /** The run flushes and then fills the cache, with no control block, to exactly where it had started. */
  predicate MissesJumper(layout: Layout, code: Word -> Translation, pc: Word, c: Cache) {
    && StartsWithFlush(layout, code, pc, c)
    && var end := Refill(layout, code, pc, 0, 0); end.ptr == c.ptr && !end.control
  }

  /**
    What the straight line from `p` meets that cannot be translated, if it gets there before it meets a cached
    instruction, a control block or the end of the room.
   */
  function Failure(layout: Layout, code: Word -> Translation, cached: set<Word>, p: Word, ptr: nat,
                   nr: nat): Option<Translation>
    decreases PcIndex.MAX_INSTRUCTIONS - nr
  {
    var t := code(p);
    if p in cached then None
    else if !t.Emit? then Some(t)
    else if nr >= PcIndex.MAX_INSTRUCTIONS || layout.Len(t.block.t) > Room(layout, ptr, nr) ||
      Stops(t.block.t) then None
    else Failure(layout, code, cached, Isa.Next(p), ptr + layout.Len(t.block.t), nr + 1)
  }

  /** What makes a prefetch run at `pc` fail, if anything does. */
  function RunFailure(layout: Layout, code: Word -> Translation, pc: Word, c: Cache): Option<Translation> {
    if StartsWithFlush(layout, code, pc, c) then Failure(layout, code, {}, pc, 0, 0)
    else Failure(layout, code, c.index.Keys, pc, c.ptr, |c.index|)
  }

  // ---- the course of a prefetch run ----

  /** The pc `i` instructions after `pc`. */
  function At(pc: Word, i: nat): Word {
    Wrap(pc + 4 * i)
  }

  lemma AtIsInjective(pc: Word, i: nat, j: nat)
    requires i < j <= PcIndex.MAX_INSTRUCTIONS
    ensures At(pc, i) != At(pc, j)
  {
  }

  lemma AtNext(pc: Word, i: nat)
    ensures At(pc, i + 1) == Isa.Next(At(pc, i)) && At(pc, 0) == pc
  {
    WrapAbsorbs(pc + 4 * i, 4);
    WrapOfWord(pc);
    hide Wrap;
  }

  /** The pcs of `count` consecutive instructions. */
  ghost function Line(pc: Word, count: nat): set<Word> {
    set i | 0 <= i < count :: At(pc, i)
  }

  lemma LineGrows(pc: Word, count: nat)
    requires count < PcIndex.MAX_INSTRUCTIONS
    ensures Line(pc, count + 1) == Line(pc, count) + {At(pc, count)}
  {
  }

  lemma NextIsNotOnLine(pc: Word, count: nat)
    requires count <= PcIndex.MAX_INSTRUCTIONS
    ensures At(pc, count) !in Line(pc, count)
  {
    if At(pc, count) in Line(pc, count) {
      var i :| 0 <= i < count && At(pc, count) == At(pc, i);
      AtIsInjective(pc, i, count);
    }
  }

  /** What does not change during a run. */
  datatype Setting = Setting(layout: Layout, code: Word -> Translation, pc: Word, before: Cache)

  ghost predicate LastIsOpen(layout: Layout, c: Cache, last: Word) {
    last in c.index && last in c.blocks && !Stops(c.blocks[last].t) && End(layout, c, last) == c.ptr
  }

  /** The run fills the cache from its beginning: it has flushed, or there was nothing in it. */
  ghost predicate FromZero(x: Setting, flushed: bool) {
    flushed || (x.before.index == map[] && x.before.ptr == 0)
  }

  /** The first `n` instructions of the run are translated, none of them ends it or was cached before. */
  ghost predicate Reaches(code: Word -> Translation, cached: set<Word>, pc: Word, n: nat) {
    forall j :: 0 <= j < n ==>
      At(pc, j) !in cached && code(At(pc, j)).Emit? && !Stops(code(At(pc, j)).block.t)
  }

  /**
    A failing run reaches, over translated instructions that neither end it nor were cached, one it cannot translate.
   */
  lemma {:induction false} FailureIsReached(x: Setting, cached: set<Word>, n: nat, ptr: nat, nr: nat) returns (i: nat)
    requires Failure(x.layout, x.code, cached, At(x.pc, n), ptr, nr).Some? && Reaches(x.code, cached, x.pc, n)
    ensures n <= i && (i == n || i - n + nr <= PcIndex.MAX_INSTRUCTIONS) && Reaches(x.code, cached, x.pc, i)
    ensures At(x.pc, i) !in cached && !x.code(At(x.pc, i)).Emit?
    ensures Failure(x.layout, x.code, cached, At(x.pc, n), ptr, nr) == Some(x.code(At(x.pc, i)))
    decreases PcIndex.MAX_INSTRUCTIONS - nr
  {
    hide At;
    var t := x.code(At(x.pc, n));
    if t.Emit? {
      AtNext(x.pc, n);
      i := FailureIsReached(x, cached, n + 1, ptr + x.layout.Len(t.block.t), nr + 1);
    } else {
      i := n;
    }
  }

  /** A run from the beginning of the cache has indexed exactly the straight line from its first pc. */
  ghost predicate Refilling(x: Setting, c: Cache, count: nat) {
    && |c.index| == count
    && c.index.Keys <= Line(x.pc, count)
    && Refill(x.layout, x.code, x.pc, 0, 0) == Refill(x.layout, x.code, At(x.pc, count), c.ptr, count)
  }

  /** The cache `c` is ready for commit number `count` of the run. */
  ghost predicate Running(x: Setting, c: Cache, flushed: bool, count: nat) {
    && x.layout.Valid() && Shape(x.layout, c) && OpenAt(x.layout, c, At(x.pc, count))
    && count <= |c.index| <= PcIndex.MAX_INSTRUCTIONS
    && (flushed ==> StartsWithFlush(x.layout, x.code, x.pc, x.before))
    && (FromZero(x, flushed) ==> Refilling(x, c, count))
    && (!flushed ==> x.before.index.Keys <= c.index.Keys && Reaches(x.code, x.before.index.Keys, x.pc, count))
    && (count == 0 && !flushed ==> c == x.before)
    && (count > 0 ==>
         && x.pc in c.index && LastIsOpen(x.layout, c, At(x.pc, count - 1))
         && c.ptr + x.layout.jumper <= TRANSLATION_CACHE_SIZE
         && (!flushed ==> c.ptr > x.before.ptr && !StartsWithFlush(x.layout, x.code, x.pc, x.before)))
  }

  /** A run that committed something has stopped with the cache `c`, at a control block or not. */
  ghost predicate Ended(x: Setting, c: Cache, flushed: bool, control: bool, next: Word) {
    && x.layout.Valid() && Shape(x.layout, c) && OpenAt(x.layout, c, next) && x.pc in c.index
    && c.ptr + x.layout.jumper <= TRANSLATION_CACHE_SIZE
    && (control ==> Closed(x.layout, c))
    && (flushed ==>
         && StartsWithFlush(x.layout, x.code, x.pc, x.before)
         && (!control ==> !Closed(x.layout, c)))
    && (FromZero(x, flushed) ==>
         && Refill(x.layout, x.code, x.pc, 0, 0) == Filled(c.ptr, |c.index|, control)
         && c.index.Keys <= Line(x.pc, |c.index|))
    && (!flushed ==> c.ptr > x.before.ptr && !StartsWithFlush(x.layout, x.code, x.pc, x.before))
  }

  /** What a run counts as cached: nothing once it has flushed. */
  ghost function Cached(x: Setting, flushed: bool): set<Word> {
    if flushed then {} else x.before.index.Keys
  }

  /** Where a failing run fails. */
  lemma WhereRunFails(layout: Layout, code: Word -> Translation, pc: Word, c: Cache) returns (i: nat)
    requires RunFailure(layout, code, pc, c).Some?
    ensures i <= PcIndex.MAX_INSTRUCTIONS && RunFailure(layout, code, pc, c) == Some(code(At(pc, i))) &&
      !code(At(pc, i)).Emit?
    ensures Reaches(code, if StartsWithFlush(layout, code, pc, c) then {} else c.index.Keys, pc, i)
  {
    hide At;
    AtNext(pc, 0);
    var x := Setting(layout, code, pc, c);
    if StartsWithFlush(layout, code, pc, c) {
      i := FailureIsReached(x, {}, 0, 0, 0);
    } else {
      i := FailureIsReached(x, c.index.Keys, 0, c.ptr, |c.index|);
    }
  }

  /** The run has indexed its own straight line, and it fails from here as it was to fail from its start. */
  ghost predicate Foretold(x: Setting, c: Cache, flushed: bool, count: nat) {
    && count <= PcIndex.MAX_INSTRUCTIONS
    && Cached(x, flushed) <= c.index.Keys <= Cached(x, flushed) + Line(x.pc, count)
    && (count > 0 || flushed || !StartsWithFlush(x.layout, x.code, x.pc, x.before) ==>
         RunFailure(x.layout, x.code, x.pc, x.before)
         == Failure(x.layout, x.code, Cached(x, flushed), At(x.pc, count), c.ptr, |c.index|))
  }

  lemma ForetoldAtStart(x: Setting)
    ensures Foretold(x, x.before, false, 0)
    ensures StartsWithFlush(x.layout, x.code, x.pc, x.before) ==>
      Foretold(x, Cache(x.before.cells, 0, map[], map[]), true, 0)
  {
    AtNext(x.pc, 0);
    hide Failure, At;
  }

  /** A run that meets a cached instruction meets an older one, and does not fail. */
  lemma MeetingIsNoFailure(x: Setting, c: Cache, flushed: bool, count: nat)
    requires Foretold(x, c, flushed, count) && At(x.pc, count) in c.index
    ensures RunFailure(x.layout, x.code, x.pc, x.before) == None
  {
    hide At, Line;
    NextIsNotOnLine(x.pc, count);
    AtNext(x.pc, 0);
  }

  /** An instruction that cannot be translated, has no room, or ends the run, decides whether it fails. */
  lemma EndIsForetold(x: Setting, c: Cache, flushed: bool, count: nat)
    requires Foretold(x, c, flushed, count) && At(x.pc, count) !in c.index
    ensures var t, fails := x.code(At(x.pc, count)), RunFailure(x.layout, x.code, x.pc, x.before);
      var begun, flush := count > 0 || flushed, StartsWithFlush(x.layout, x.code, x.pc, x.before);
      && (!t.Emit? ==> fails == Some(t))
      && (t.Emit? && begun && x.layout.Len(t.block.t) > Room(x.layout, c.ptr, |c.index|) ==> fails == None)
      && (t.Emit? && (begun || !flush) && Stops(t.block.t) ==> fails == None)
  {
    hide At, Line, Room;
    AtNext(x.pc, 0);
  }

  lemma AddKey(index: map<Word, nat>, p: Word, v: nat)
    ensures index[p := v].Keys == index.Keys + {p} && |index.Keys| == |index|
    ensures p !in index ==> |index[p := v]| == |index| + 1
  {
  }

  /** A committed instruction that does not end the run. */
  lemma ForetoldGoesOn(x: Setting, c: Cache, flushed: bool, count: nat, b: Block, d: Cache)
    requires Foretold(x, c, flushed, count) && At(x.pc, count) !in c.index && x.code(At(x.pc, count)) == Emit(b) &&
      !Stops(b.t)
    requires count == 0 && !flushed ==> !StartsWithFlush(x.layout, x.code, x.pc, x.before)
    requires x.layout.Len(b.t) <= Room(x.layout, c.ptr, |c.index|) && count <= |c.index| < PcIndex.MAX_INSTRUCTIONS
    requires d.ptr == c.ptr + x.layout.Len(b.t) && d.index == c.index[At(x.pc, count) := c.ptr]
    ensures Foretold(x, d, flushed, count + 1)
  {
    hide At, Line, Room;
    AtNext(x.pc, count);
    AddKey(c.index, At(x.pc, count), c.ptr);
    LineGrows(x.pc, count);
  }

  lemma FreshRun(x: Setting)
    requires x.layout.Valid() && Shape(x.layout, x.before) && Closed(x.layout, x.before)
    requires |x.before.index| <= PcIndex.MAX_INSTRUCTIONS
    ensures Running(x, x.before, false, 0)
  {
    AtNext(x.pc, 0);
  }

  lemma FlushedRun(x: Setting)
    requires x.layout.Valid() && Shape(x.layout, x.before)
    requires StartsWithFlush(x.layout, x.code, x.pc, x.before)
    ensures Running(x, Cache(x.before.cells, 0, map[], map[]), true, 0)
  {
    AtNext(x.pc, 0);
  }

  lemma NotYetIndexed(x: Setting, c: Cache, flushed: bool, count: nat)
    requires Running(x, c, flushed, count) && FromZero(x, flushed)
    ensures At(x.pc, count) !in c.index
  {
    NextIsNotOnLine(x.pc, count);
  }

  lemma RefillOnce(layout: Layout, code: Word -> Translation, p: Word, ptr: nat, nr: nat, b: Block)
    requires code(p) == Emit(b) && nr < PcIndex.MAX_INSTRUCTIONS && layout.Len(b.t) <= Room(layout, ptr, nr)
    ensures Refill(layout, code, p, ptr, nr) ==
      if Stops(b.t) then Filled(ptr + layout.Len(b.t), nr + 1, true)
      else Refill(layout, code, Isa.Next(p), ptr + layout.Len(b.t), nr + 1)
  {
  }

  lemma KeysGoOn(keys: set<Word>, pc: Word, count: nat)
    requires keys <= Line(pc, count) && |keys| == count < PcIndex.MAX_INSTRUCTIONS
    ensures At(pc, count) !in keys && keys + {At(pc, count)} <= Line(pc, count + 1)
  {
    NextIsNotOnLine(pc, count);
    LineGrows(pc, count);
  }

  lemma RefillingGoesOn(x: Setting, c: Cache, count: nat, b: Block, d: Cache)
    requires Refilling(x, c, count) && count < PcIndex.MAX_INSTRUCTIONS
    requires x.code(At(x.pc, count)) == Emit(b) && 0 < x.layout.Len(b.t) <= Room(x.layout, c.ptr, count)
    requires d.ptr == c.ptr + x.layout.Len(b.t) && d.index == c.index[At(x.pc, count) := c.ptr]
    ensures d.index.Keys <= Line(x.pc, |d.index|)
    ensures if Stops(b.t) then Refill(x.layout, x.code, x.pc, 0, 0) == Filled(d.ptr, |d.index|, true)
      else Refilling(x, d, count + 1)
  {
    hide Refill, At, Line, Room, Stops;
    AtNext(x.pc, count);
    AddKey(c.index, At(x.pc, count), c.ptr);
    KeysGoOn(c.index.Keys, x.pc, count);
    RefillOnce(x.layout, x.code, At(x.pc, count), c.ptr, count, b);
  }

  lemma ReachesOn(x: Setting, c: Cache, flushed: bool, count: nat, b: Block)
    requires !flushed ==> x.before.index.Keys <= c.index.Keys && Reaches(x.code, x.before.index.Keys, x.pc, count)
    requires At(x.pc, count) !in c.index && x.code(At(x.pc, count)) == Emit(b)
    ensures !flushed && !Stops(b.t) ==> Reaches(x.code, x.before.index.Keys, x.pc, count + 1)
  {
    hide At;
  }

  lemma RefillingHasCount(x: Setting, c: Cache, count: nat)
    requires Refilling(x, c, count)
    ensures |c.index| == count
  {
  }

  /** One commit takes a run on, or to its end at a control block. */
  lemma CommitGoesOn(x: Setting, c: Cache, flushed: bool, count: nat, b: Block)
    requires Running(x, c, flushed, count) && At(x.pc, count) !in c.index
    requires x.code(At(x.pc, count)) == Emit(b) && ValidBlock(b)
    requires x.layout.Len(b.t) <= Room(x.layout, c.ptr, |c.index|)
    requires count == 0 && !flushed ==> !StartsWithFlush(x.layout, x.code, x.pc, x.before)
    ensures var d := Append(x.layout, c, At(x.pc, count), b);
      if Stops(b.t) then Ended(x, d, flushed, true, At(x.pc, count + 1)) else Running(x, d, flushed, count + 1)
  {
    hide Refilling, Reaches, Shape, OpenAt, Closed, At, Splice, Refill, StartsWithFlush, FromZero, Line;
    var p := At(x.pc, count);
    AtNext(x.pc, count);
    AtNext(x.pc, 0);
    AppendKeepsShape(x.layout, c, p, b);
    AddKey(c.index, p, c.ptr);
    ReachesOn(x, c, flushed, count, b);
    if FromZero(x, flushed) {
      RefillingHasCount(x, c, count);
      RefillingGoesOn(x, c, count, b, Append(x.layout, c, p, b));
    }
  }

  /** A run that meets its own or an older block, or runs out of room, has ended. */
  lemma RunStops(x: Setting, c: Cache, flushed: bool, count: nat)
    requires Running(x, c, flushed, count) && count > 0
    requires FromZero(x, flushed) ==>
      x.code(At(x.pc, count)).Emit? && x.layout.Len(x.code(At(x.pc, count)).block.t) > Room(x.layout, c.ptr, |c.index|)
    ensures Ended(x, c, flushed, false, At(x.pc, count))
  {
    if flushed {
      NotYetIndexed(x, c, flushed, count);
      AtNext(x.pc, count - 1);
      OpenIsNotClosed(x.layout, c, At(x.pc, count - 1));
    }
  }

  /** A run that meets a block is not filling the cache from its beginning, and stops there. */
  lemma MeetsOlder(x: Setting, c: Cache, flushed: bool, count: nat)
    requires Running(x, c, flushed, count) && At(x.pc, count) in c.index
    ensures !FromZero(x, flushed) && (count > 0 ==> Ended(x, c, flushed, false, At(x.pc, count)))
  {
    if FromZero(x, flushed) {
      NotYetIndexed(x, c, flushed, count);
    }
  }

  /** The first run in an empty cache ends where the straight line does. */
  lemma FirstRunFills(x: Setting, c: Cache, flushed: bool, control: bool, next: Word)
    requires Ended(x, c, flushed, control, next) && x.before.index == map[] && x.before.ptr == 0
    ensures c.ptr > 0 && Refill(x.layout, x.code, x.pc, 0, 0) == Filled(c.ptr, |c.index|, control)
    ensures c.index.Keys <= Line(x.pc, |c.index|)
  {
    hide Shape, OpenAt, Closed, Refill;
  }

  /** With the jumper the chains are closed; without it they are closed unless the run misses its jumper. */
  lemma EndIsClosed(x: Setting, c: Cache, flushed: bool, control: bool, next: Word)
    requires Ended(x, c, flushed, control, next)
    ensures c.ptr != x.before.ptr ==>
      && Shape(x.layout, AppendJumper(x.layout, c)) && Closed(x.layout, AppendJumper(x.layout, c))
      && !MissesJumper(x.layout, x.code, x.pc, x.before)
    ensures c.ptr == x.before.ptr ==>
      (Closed(x.layout, c) <==> !MissesJumper(x.layout, x.code, x.pc, x.before))
  {
    JumperCloses(x.layout, c, next);
  }
}
