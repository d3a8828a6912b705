/**
  The translation engine of one hart: prefetching straight-line code into the cache and running it
  from there. Main result: what comes out of the cache is a run of the reference machine.
 */
module Engine {
  import opened Words
  import opened Collections
  import opened Translator
  import opened HostMachine
  import opened Templates
  import opened TranslationCache
  import Isa
  import PcIndex
  import Tables

  // ---- one block, one step ----

  lemma EffectKeepsGuestValid(env: Isa.Env, b: Block, g: Isa.Guest)
    requires Isa.ValidGuest(g) && ValidBlock(b)
    ensures var e := BlockEffect(env, b, g);
      e.Falls? || e.Traps? || e.Flushes? ==> Isa.ValidGuest(e.guest)
  {
  }

  /** How a block ends depends only on its template; a block that falls through goes to the next pc. */
  lemma EffectFollowsTemplate(env: Isa.Env, b: Block, g: Isa.Guest)
    requires Isa.ValidGuest(g) && ValidBlock(b)
    ensures var e := BlockEffect(env, b, g);
      && (e.Falls? ==> !Stops(b.t) && e.guest.pc == Isa.Next(g.pc))
      && (e.Traps? ==> Stops(b.t) && !b.t.FenceIT?)
      && (e.Flushes? ==> b.t.FenceIT?)
  {
  }

  /** A block that falls through asks nothing of the world. */
  lemma FallAsksNothing(env: Isa.Env, other: Isa.Env, b: Block, g: Isa.Guest)
    requires Isa.ValidGuest(g) && ValidBlock(b) && BlockEffect(env, b, g).Falls?
    ensures BlockEffect(other, b, g) == BlockEffect(env, b, g)
  {
  }

  lemma FenceIComesFromFenceI(w: Word, p: Word)
    requires Translate(w, p).Emit? && Translate(w, p).block.t.FenceIT?
    ensures Isa.Decode(w) == Some(Isa.FenceI)
  {
    hide SignExtend;
  }

  /** The machine after a block's effect. */
  ghost function After(s: Isa.Machine, e: Effect): Isa.Machine
    requires e.Falls? || e.Traps? || e.Flushes?
  {
    Isa.Machine(e.guest, if e.Flushes? then {e.guest.mem} else s.seen + {e.guest.mem})
  }

  /** Some word the machine may fetch makes the ISA, or the host divider, refuse: `e` is that refusal. */
  ghost predicate Refuses(env: Isa.Env, s: Isa.Machine, e: Effect) {
    && Isa.ValidMachine(s)
    && exists w :: Isa.Fetchable(s, w) && (Isa.Decode(w).Some? ==> Expected(env, Isa.Decode(w).value, s.guest) == e)
  }

  /** Running a block that was translated since the last fence.i is one step of the reference machine. */
  lemma BlockIsStep(env: Isa.Env, s: Isa.Machine, b: Block)
    requires Isa.ValidMachine(s) && ValidBlock(b) && Translated(s.seen, s.guest.pc, b)
    ensures var e := BlockEffect(env, b, s.guest);
      if e.DivideError? || e.NoRegion? then Refuses(env, s, e) else Isa.Step(env, s, After(s, e))
  {
    var e := BlockEffect(env, b, s.guest);
    var m, w :| m in s.seen && Isa.Fetch(m, s.guest.pc) == Some(w) && Translate(w, s.guest.pc) == Emit(b);
    assert Isa.Fetchable(s, w);
    EffectKeepsGuestValid(env, b, s.guest);
    EffectFollowsTemplate(env, b, s.guest);
    if Isa.Decode(w).Some? {
      var i := Isa.Decode(w).value;
      TranslationFollowsDecoding(w, s.guest.pc);
      DecodedIsWellFormed(w);
      BlockMeansInstruction(env, i, s.guest);
      assert e == Expected(env, i, s.guest);
      if !e.DivideError? && !e.NoRegion? {
        assert Isa.StepOn(env, w, s, After(s, e));
      }
    } else if !e.DivideError? && !e.NoRegion? {
      if e.Flushes? {
        FenceIComesFromFenceI(w, s.guest.pc);
      }
      assert Isa.StepOn(env, w, s, After(s, e));
    }
  }

  /**
    The pcs that a prefetch run may index fit the half-circle of those already indexed. A run that starts in an empty
    cache, or with a flush, has no others to fit.
   */
  ghost predicate RunInArc(layout: Layout, code: Word -> Translation, lo: Word, pc: Word, c: Cache) {
    || c.index == map[]
    || StartsWithFlush(layout, code, pc, c)
    || forall i :: 0 <= i < PcIndex.MAX_INSTRUCTIONS && At(pc, i) !in c.index && Reaches(code, c.index.Keys, pc, i) ==>
         PcIndex.InArc(lo, At(pc, i))
  }

  /** A straight line of 512 instructions fits the half-circle that starts with it. */
  lemma LineInArc(pc: Word, i: nat)
    requires i < PcIndex.MAX_INSTRUCTIONS
    ensures PcIndex.InArc(pc, At(pc, i))
  {
    assert Wrap(At(pc, i) - pc) == 4 * i by { WrapAbsorbs(pc + 4 * i, -(pc as int)); }
  }

  /** The next pc to be committed fits the half-circle in use. */
  lemma CommitsInArc(x: Setting, c: Cache, flushed: bool, count: nat, before: Word, lo: Word)
    requires Running(x, c, flushed, count) && At(x.pc, count) !in c.index && |c.index| < PcIndex.MAX_INSTRUCTIONS
    requires RunInArc(x.layout, x.code, before, x.pc, x.before) &&
      (count == 0 && !flushed ==> !StartsWithFlush(x.layout, x.code, x.pc, x.before))
    requires if flushed || x.before.index == map[] then lo == x.pc else lo == before
    ensures PcIndex.InArc(lo, At(x.pc, count))
  {
    LineInArc(x.pc, count);
  }

  lemma TranslatedNow(mem: Isa.Mem, p: Word, b: Block)
    requires Source(mem)(p) == Emit(b)
    ensures ValidBlock(b) && forall seen: set<Isa.Mem> :: mem in seen ==> Translated(seen, p, b)
  {
    EmittedIsValid(Isa.Fetch(mem, p).value, p);
  }

  /** What an outcome that shows a block's effect says about the machine. */
  lemma OutcomeIsStep(env: Isa.Env, s: Isa.Machine, b: Block, o: Outcome)
    requires Isa.ValidMachine(s) && ValidBlock(b) && Translated(s.seen, s.guest.pc, b)
    requires Shows(o, BlockEffect(env, b, s.guest))
    ensures o.HostFault? ==> Refuses(env, s, DivideError)
    ensures o.NoAccess? ==> Refuses(env, s, NoRegion)
    ensures o.Fell? || o.Trapped? || o.Flushed? ==> o.host.Valid() && Isa.ValidGuest(o.host.guest)
    ensures o.Fell? ==> !Stops(b.t) && o.host.guest.pc == Isa.Next(s.guest.pc)
    ensures o.Fell? || o.Trapped? ==> Isa.Step(env, s, Isa.Machine(o.host.guest, s.seen + {o.host.guest.mem}))
    ensures o.Flushed? ==> Isa.Step(env, s, Isa.Machine(o.host.guest, {o.host.guest.mem}))
  {
    hide BlockEffect, Translated, Isa.Step, Refuses;
    BlockIsStep(env, s, b);
    EffectFollowsTemplate(env, b, s.guest);
    EffectKeepsGuestValid(env, b, s.guest);
  }

  /** A step that falls through is one in any world. */
  lemma FallIsStepAnywhere(env: Isa.Env, s: Isa.Machine, b: Block, o: Outcome)
    requires Isa.ValidMachine(s) && ValidBlock(b) && Translated(s.seen, s.guest.pc, b)
    requires Shows(o, BlockEffect(env, b, s.guest)) && o.Fell?
    ensures Isa.StepAnywhere(s, Isa.Machine(o.host.guest, s.seen + {o.host.guest.mem}))
  {
    hide BlockEffect, Translated, Isa.Step;
    forall other ensures Isa.Step(other, s, Isa.Machine(o.host.guest, s.seen + {o.host.guest.mem})) {
      FallAsksNothing(env, other, b, s.guest);
      BlockIsStep(other, s, b);
    }
  }

  // ---- the life of a hart ----

  /** Registers and pc stay, memory is anything, and instruction fetches may see the new image too. */
  ghost predicate Interfered(s: Isa.Machine, mem: Isa.Mem, s': Isa.Machine) {
    s'.guest == s.guest.(mem := mem) && s'.seen == s.seen + {mem}
  }

  /** One move of a life: the hart takes a step, in the world as it is at that time, or another task changes memory. */
  datatype Move = Steps(env: Isa.Env) | Suffers(mem: Isa.Mem)

  ghost predicate Moved(m: Move, s: Isa.Machine, s': Isa.Machine) {
    match m
    case Steps(env) => Isa.Step(env, s, s')
    case Suffers(mem) => Interfered(s, mem, s')
  }

  /** A run of the machine among interfering tasks; every step may find another world behind its ecall. */
  ghost predicate SharedRun(moves: seq<Move>, states: seq<Isa.Machine>) {
    && |states| == |moves| + 1
    && forall i :: 0 <= i < |moves| ==> Moved(moves[i], states[i], states[i + 1])
  }

  ghost predicate PlainlyMoved(m: Move, g: Isa.Guest, g': Isa.Guest) {
    match m
    case Steps(env) => Isa.ValidGuest(g) && Isa.Interpret(env, g) == Some(Isa.Done(g'))
    case Suffers(mem) => g' == g.(mem := mem)
  }

  /** A run of the plain interpreter among interfering tasks. */
  ghost predicate PlainSharedRun(moves: seq<Move>, gs: seq<Isa.Guest>) {
    && |gs| == |moves| + 1
    && forall i :: 0 <= i < |moves| ==> PlainlyMoved(moves[i], gs[i], gs[i + 1])
  }

  /** The plain interpreter has no choice: what its world answers and what others store determine its run. */
  lemma {:induction false} PlainRunIsDetermined(moves: seq<Move>, gs: seq<Isa.Guest>, hs: seq<Isa.Guest>, n: nat)
    requires PlainSharedRun(moves, gs) && PlainSharedRun(moves, hs) && gs[0] == hs[0] && n <= |moves|
    ensures gs[n] == hs[n]
  {
    hide Isa.Interpret;
    if n > 0 {
      PlainRunIsDetermined(moves, gs, hs, n - 1);
      assert PlainlyMoved(moves[n - 1], gs[n - 1], gs[n]) && PlainlyMoved(moves[n - 1], hs[n - 1], hs[n]);
    }
  }

  /** The life of a hart whose code is settled wherever it executes is that of a plain interpreter. */
  lemma SettledLifeIsPlain(moves: seq<Move>, states: seq<Isa.Machine>)
    requires SharedRun(moves, states)
    requires forall i :: 0 <= i < |moves| && moves[i].Steps? ==> Isa.Settled(states[i])
    ensures PlainSharedRun(moves, Isa.Guests(states))
  {
    hide Isa.Interpret, Isa.Step, Isa.Settled;
    var gs := Isa.Guests(states);
    forall i | 0 <= i < |moves| ensures PlainlyMoved(moves[i], gs[i], gs[i + 1]) {
      assert Moved(moves[i], states[i], states[i + 1]);
      if moves[i].Steps? {
        Isa.SettledStepIsPlain(moves[i].env, states[i], states[i + 1]);
      }
    }
  }

  /** Every image in view agrees with the present memory on `code`. */
  ghost predicate Agrees(s: Isa.Machine, code: set<Word>) {
    forall m :: m in s.seen ==> Isa.SameCode(m, s.guest.mem, code)
  }

  /** Whatever happens between two states of a life, at most the new image comes into view. */
  lemma AgreementLasts(m: Move, s: Isa.Machine, t: Isa.Machine, code: set<Word>)
    requires Agrees(s, code) && Isa.SameCode(s.guest.mem, t.guest.mem, code)
    requires Moved(m, s, t) && (m.Steps? ==> Isa.Settled(s))
    ensures Agrees(t, code)
  {
    if m.Steps? {
      Isa.SettledStepIsPlain(m.env, s, t);
    }
    hide Isa.Step, Isa.Settled;
    forall m | m in t.seen ensures Isa.SameCode(m, t.guest.mem, code) {
      assert m in s.seen || m == t.guest.mem;
    }
  }

  /** What a life must keep to for its code to count as untouched: no one stores to it and it executes only it. */
  ghost predicate Untouched(moves: seq<Move>, states: seq<Isa.Machine>, code: set<Word>)
    requires |states| == |moves| + 1
  {
    && (forall i :: 0 <= i < |moves| ==> Isa.SameCode(states[i].guest.mem, states[i + 1].guest.mem, code))
    && (forall i :: 0 <= i < |moves| && moves[i].Steps? ==> states[i].guest.pc in code && Isa.Legal(states[i].guest))
  }

  lemma Settles(s: Isa.Machine, code: set<Word>)
    requires Agrees(s, code) && s.guest.pc in code && Isa.Legal(s.guest)
    ensures Isa.Settled(s)
  {
    Isa.AgreementSettles(s, code);
  }

  lemma {:induction false} UntouchedLifeIsSettled(moves: seq<Move>, states: seq<Isa.Machine>, code: set<Word>, n: nat)
    requires SharedRun(moves, states) && Agrees(states[0], code) && Untouched(moves, states, code) && n <= |moves|
    ensures Agrees(states[n], code)
    ensures forall i :: 0 <= i < n && moves[i].Steps? ==> Isa.Settled(states[i])
  {
    hide Isa.Step, Isa.Settled, Agrees;
    if n > 0 {
      UntouchedLifeIsSettled(moves, states, code, n - 1);
      var m, s, t := moves[n - 1], states[n - 1], states[n];
      assert Moved(m, s, t);
      if m.Steps? {
        Settles(s, code);
      }
      AgreementLasts(m, s, t, code);
    }
  }

  /** A hart whose code no one stores to is, for its whole life, a plain interpreter among interfering tasks. */
  lemma UntouchedLifeIsPlain(moves: seq<Move>, states: seq<Isa.Machine>, code: set<Word>)
    requires SharedRun(moves, states) && Agrees(states[0], code) && Untouched(moves, states, code)
    ensures PlainSharedRun(moves, Isa.Guests(states))
  {
    UntouchedLifeIsSettled(moves, states, code, |moves|);
    SettledLifeIsPlain(moves, states);
  }

  /** Where the emulator ends on settled code, the plain interpreter faults too, or the host divider does. */
  lemma SettledRefusalIsPlain(env: Isa.Env, s: Isa.Machine, e: Effect)
    requires Refuses(env, s, e) && Isa.Settled(s) && (e.NoRegion? || e.DivideError?)
    ensures e.NoRegion? ==> Isa.Interpret(env, s.guest) == Some(Isa.AccessFault)
    ensures e.DivideError? ==>
      var i := Isa.InstrAt(s.guest);
      i.MulDiv? && DivideFaults(i.mop, s.guest.regs[i.rs1], s.guest.regs[i.rs2])
  {
    var w :| Isa.Fetchable(s, w) && (Isa.Decode(w).Some? ==> Expected(env, Isa.Decode(w).value, s.guest) == e);
    assert w == Isa.Fetch(s.guest.mem, s.guest.pc).value;
  }

  /** `n` steps in one world. */
  function Stretch(env: Isa.Env, n: nat): (moves: seq<Move>)
    ensures |moves| == n
  {
    seq(n, _ => Steps(env))
  }

  lemma SharedRunGrows(moves: seq<Move>, p: seq<Isa.Machine>, env: Isa.Env, q: seq<Isa.Machine>)
    requires SharedRun(moves, p) && Isa.Run(env, q) && p[|p| - 1] == q[0]
    ensures SharedRun(moves + Stretch(env, |q| - 1), p + q[1..])
  {
    hide Isa.Step;
    var ms, r := moves + Stretch(env, |q| - 1), p + q[1..];
    forall i | 0 <= i < |ms| ensures Moved(ms[i], r[i], r[i + 1]) {
      if i >= |moves| {
        assert r[i] == q[i - |moves|] && r[i + 1] == q[i + 1 - |moves|];
      } else {
        assert Moved(moves[i], p[i], p[i + 1]);
      }
    }
  }

  // ---- the hart ----

  /** What became of one instruction of a prefetch run. */
  datatype Progress = GoesOn | AtControl | Full | Dies | Amo

  datatype Prefetched = Ready | PrefetchDied | PrefetchUnmodelled

  datatype Exit =
    | Resumed             // back in the VMM, ready to resume at the guest's pc
    | DivideExit          // the emulator took a divide error
    | AccessExit          // the emulator exited on an unmapped guest address
    | FetchExit           // the emulator exited while prefetching
    | Unmodelled          // an AMO instruction

  class Hart {
    const layout: Layout
    var guest: Isa.Guest
    const index: PcIndex.Index
    const cells: array<Cell>
    var ptr: nat

    /** The half-circle that holds the cached pcs; it can change whenever none are cached. */
    ghost var lo: Word

    /** The cache as a value, and the memory images since the last fence.i. */
    ghost var cache: Cache
    ghost var seen: set<Isa.Mem>

    /** Every state of the machine so far, and what led from each to the next. */
    ghost var life: seq<Isa.Machine>
    ghost var moves: seq<Move>

    ghost function Machine(): Isa.Machine
      reads this
    {
      Isa.Machine(guest, seen)
    }

    /** Everything but that fall-through chains are closed. */
    ghost predicate Core()
      reads this, index, index.items, cells
    {
      && layout.Valid()
      && index.Valid()
      && PcIndex.Indexed(index.Used(), lo)
      && cache.cells == cells[..] && cache.ptr == ptr && cache.index == PcIndex.Entries(index.Used())
      && index.nr == |cache.index|
      && Shape(layout, cache)
      && Coherent(cache.blocks, seen)
      && Isa.ValidMachine(Machine())
    }

    ghost predicate Valid()
      reads this, index, index.items, cells
    {
      Core() && Closed(layout, cache)
    }

    /**
      Everything this hart has done since it was made is one run of the reference machine among
      interfering tasks, and it has led to the present state.
     */
    ghost predicate Lives()
      reads this, index, index.items, cells
    {
      Valid() && SharedRun(moves, life) && life[|life| - 1] == Machine()
    }

    constructor (layout: Layout, guest: Isa.Guest)
      requires layout.Valid() && Isa.ValidGuest(guest)
      ensures Lives() && life == [Isa.Machine(guest, {guest.mem})] && moves == [] && this.layout == layout
      ensures this.guest == guest && cache.index == map[] && ptr == 0 && fresh(index) && fresh(index.items) &&
        fresh(cells)
    {
      this.layout, this.guest, lo := layout, guest, guest.pc;
      index := new PcIndex.Index();
      cells := new Cell[TRANSLATION_CACHE_SIZE](_ => Junk);
      ptr := 0;
      new;
      cache, seen := Cache(cells[..], 0, map[], map[]), {guest.mem};
      life, moves := [Machine()], [];
    }

    /** `flush_translation_cache`: the counters go back to zero, the bytes stay. */
    method Flush()
      requires index.Valid()
      modifies this`ptr, this`cache, index
      ensures index.Valid() && index.Used() == [] && PcIndex.Entries(index.Used()) == map[] && ptr == 0
      ensures cache == Cache(old(cache.cells), 0, map[], map[])
    {
      index.Clear();
      ptr := 0;
      cache := Cache(cache.cells, 0, map[], map[]);
    }

    /** memcpy into the cache. */
    method Copy(off: nat, code: seq<Cell>)
      requires off + |code| <= cells.Length
      modifies cells
      ensures cells[..] == Splice(old(cells[..]), off, code)
    {
      var i := 0;
      while i < |code|
        invariant 0 <= i <= |code|
        invariant Splice(cells[..], off + i, code[i..]) == Splice(old(cells[..]), off, code)
      {
        assert code[i..][1..] == code[i + 1..];
        cells[off + i] := code[i];
        i := i + 1;
      }
    }

    /** The parameter loop of COMMIT_TRANSLATION. */
    method Patch(ghost before: seq<Cell>, off: nat, b: Block)
      requires off + |CodeOf(layout, b)| <= cells.Length == |before|
      requires cells[..] == Splice(before, off, CodeOf(layout, Block(b.t, Blank(|b.params|))))
      modifies cells
      ensures cells[..] == Splice(before, off, CodeOf(layout, b))
    {
      var n := |b.params|;
      ghost var current := Blank(n);
      var i := 0;
      while i < n
        invariant 0 <= i <= n == |current|
        invariant forall j :: 0 <= j < i ==> current[j] == b.params[j]
        invariant cells[..] == Splice(before, off, CodeOf(layout, Block(b.t, current)))
      {
        PatchOne(layout, before, off, Block(b.t, current), i, b.params[i]);
        Copy(off + layout.text(b.t) + 4 * i, WordCells(b.params[i]));
        current := current[i := b.params[i]];
        i := i + 1;
      }
      assert current == b.params;
    }

    /** `add_translation_item`: refuse for lack of room, else copy the template and index it. */
    method AddItem(p: Word, t: Template) returns (rc: int)
      requires Core() && p !in cache.index && PcIndex.InArc(lo, p)
      modifies this`ptr, index, index.items, cells
      ensures rc == 0 <==> layout.Len(t) <= old(Room(layout, ptr, index.nr)) && old(index.nr) < PcIndex.MAX_INSTRUCTIONS
      ensures rc == 0 ==> index.Valid() && PcIndex.Indexed(index.Used(), lo) && index.nr == old(index.nr) + 1
      ensures rc == 0 ==> ptr == old(ptr) + layout.Len(t) && ptr + layout.jumper <= cells.Length
      ensures rc == 0 ==> PcIndex.Entries(index.Used()) == old(PcIndex.Entries(index.Used()))[p := old(ptr)]
      ensures rc == 0 ==> cells[..] == Splice(old(cells[..]), old(ptr), CodeOf(layout, Block(t, Blank(ParamCount(t)))))
    {
      if Room(layout, ptr, index.nr) < layout.Len(t) {
        return -1;
      }
      if index.nr >= PcIndex.MAX_INSTRUCTIONS {
        return -2;
      }
      var off := ptr;
      Copy(ptr, CodeOf(layout, Block(t, Blank(ParamCount(t)))));
      ptr := ptr + layout.Len(t);
      index.Add(p, off, lo);
      return 0;
    }

    /**
      COMMIT_TRANSLATION: add the template, look it up again and patch its parameters. With room for
      the block, neither of its assertions fails.
     */
    method Commit(p: Word, b: Block) returns (died: bool)
      requires Core() && OpenAt(layout, cache, p)
      requires ValidBlock(b) && Translated(seen, p, b) && p !in cache.index && PcIndex.InArc(lo, p)
      requires layout.Len(b.t) <= Room(layout, ptr, index.nr)
      modifies this`ptr, this`cache, index, index.items, cells
      ensures !died && Core() && OpenAt(layout, cache, Isa.Next(p)) && (Stops(b.t) ==> Closed(layout, cache))
      ensures index.nr == old(index.nr) + 1 && cache == Append(layout, old(cache), p, b)
      ensures ptr == old(ptr) + layout.Len(b.t) && ptr + layout.jumper <= cells.Length
    {
      hide Translated, Stored, Continues, Splice, CodeOf, OpenAt, Closed, Shape, PcIndex.InArc;
      AppendKeepsShape(layout, cache, p, b);
      var rc := AddItem(p, b.t);
      if rc != 0 { return true; }
      var found := index.Lookup(p, lo);
      if !found.Found? { return true; }
      Patch(cache.cells, index.items[found.index].offset, b);
      PcIndex.EntriesSize(index.Used());
      cache := Append(layout, cache, p, b);
      return false;
    }

    // ---- prefetching ----

    /** `prefetch_one_instruction` up to the choice of template and parameters. */
    method TranslateNext(p: Word) returns (t: Translation)
      requires guest.mem in seen
      ensures t == Source(guest.mem)(p)
      ensures t.Emit? ==> ValidBlock(t.block) && Translated(seen, p, t.block)
    {
      t := Source(guest.mem)(p);
      if t.Emit? {
        TranslatedNow(guest.mem, p, t.block);
      }
    }

    /** Translating one instruction of the run and putting it into the cache. */
    method CommitNext(ghost x: Setting, ghost flushed: bool, ghost count: nat, p: Word, b: Block)
      requires Core() && x.layout == layout && Running(x, cache, flushed, count)
      requires p == At(x.pc, count) && p !in cache.index && x.code(p) == Emit(b)
      requires PcIndex.InArc(lo, p) && ValidBlock(b) && Translated(seen, p, b)
      requires layout.Len(b.t) <= Room(layout, ptr, index.nr)
      requires count == 0 && !flushed ==> !StartsWithFlush(x.layout, x.code, x.pc, x.before)
      modifies this`ptr, this`cache, index, index.items, cells
      ensures Core() && index.nr == old(index.nr) + 1
      ensures cache.ptr == old(cache.ptr) + layout.Len(b.t) && cache.index == old(cache.index)[p := old(cache.ptr)]
      ensures if Stops(b.t) then Ended(x, cache, flushed, true, At(x.pc, count + 1))
        else Running(x, cache, flushed, count + 1)
    {
      hide Refill, Translated, Stored, Continues, Splice, CodeOf;
      CommitGoesOn(x, cache, flushed, count, b);
      var died := Commit(p, b);
    }

    /** The flush of PRECHECK_TRANSLATION_CACHE, before the first commit of a run. */
    method FlushForRun(ghost x: Setting)
      requires Core() && x.layout == layout && cache == x.before && StartsWithFlush(layout, x.code, x.pc, cache)
      modifies this`ptr, this`cache, this`lo, index
      ensures Core() && Running(x, cache, true, 0) && cache.index == map[] && index.nr == 0 && ptr == 0 && lo == x.pc
      ensures Foretold(x, cache, true, 0)
    {
      hide Translated, Refill, StartsWithFlush, Refilling, Stored, Continues;
      FlushedRun(x);
      ForetoldAtStart(x);
      Flush();
      lo := x.pc;
    }

    /** With nothing indexed, any half-circle will do. */
    ghost method Recentre()
      requires Valid() && cache.index == map[]
      modifies this`lo
      ensures Valid() && lo == guest.pc
    {
      hide Translated, Stored, Continues, Shape, Coherent, Closed;
      PcIndex.EntriesSize(index.Used());
      lo := guest.pc;
    }

    /** Appending the jumper when the fill pointer has moved. */
    method CloseRun(ghost x: Setting, ghost idle: bool, ghost flushed: bool, ghost control: bool, ghost next: Word,
                    oldPtr: nat)
      requires Core() && x.layout == layout && oldPtr == x.before.ptr
      requires if idle then cache == x.before && x.pc in cache.index && Closed(layout, cache)
               else Ended(x, cache, flushed, control, next)
      modifies this`ptr, this`cache, cells
      ensures Core() && x.pc in cache.index && cache.index == old(cache.index)
      ensures ptr == if old(ptr) == oldPtr then oldPtr else old(ptr) + layout.jumper
      ensures Closed(layout, cache) <==> !MissesJumper(layout, x.code, x.pc, x.before)
    {
      hide Refill, Translated, Stored, Continues, Splice, CodeOf;
      if !idle { EndIsClosed(x, cache, flushed, control, next); }
      if oldPtr != ptr {
        Copy(ptr, JumperCells(layout));
        ptr := ptr + layout.jumper;
        cache := AppendJumper(layout, cache);
      }
    }

    /** The half-circle in use during a run: a new one once the cache is filled from its beginning. */
    ghost predicate Centred(x: Setting, flushed: bool, before: Word)
      reads this
    {
      if flushed || x.before.index == map[] then lo == x.pc else lo == before
    }

    method IsCached(p: Word) returns (found: bool)
      requires Core()
      ensures found <==> p in cache.index
    {
      var r := index.Lookup(p, lo);
      found := r.Found?;
    }

    lemma Counters()
      requires Core()
      ensures cache.ptr == ptr && index.nr == |cache.index| <= PcIndex.MAX_INSTRUCTIONS
    {
      PcIndex.EntriesSize(index.Used());
    }

    lemma BeginRun(x: Setting)
      requires Valid() && x.layout == layout && x.before == cache
      ensures Running(x, cache, false, 0)
    {
      hide Shape, Closed, Coherent, Running, PcIndex.Entries;
      PcIndex.EntriesSize(index.Used());
      FreshRun(x);
    }

    /** `prefetch_one_instruction`: at most one flush, before the first commit of a run. */
    method PrefetchOne(ghost x: Setting, ghost was: bool, ghost count: nat, ghost before: Word, next: Word,
                       flushable: bool)
      returns (p: Progress, ghost flushed: bool)
      requires Core() && x.layout == layout && x.code == Source(guest.mem) && Running(x, cache, was, count) &&
        Centred(x, was, before)
      requires RunInArc(layout, x.code, before, x.pc, x.before)
      requires next == At(x.pc, count) && next !in cache.index && flushable == (count == 0) && (flushable ==> !was)
      requires Foretold(x, cache, was, count)
      modifies this`ptr, this`cache, this`lo, index, index.items, cells
      ensures p == Dies <==> x.code(next) == Rejected
      ensures p == Amo <==> x.code(next) == NotModelled
      ensures p == GoesOn ==> Foretold(x, cache, flushed, count + 1)
      ensures p == Dies || p == Amo ==> RunFailure(layout, x.code, x.pc, x.before) == Some(x.code(next))
      ensures p == Full || p == AtControl ==> RunFailure(layout, x.code, x.pc, x.before) == None
      ensures p == Full ==> count > 0 && flushed == was && Core() && Ended(x, cache, flushed, false, next)
      ensures p == Full ==> cache == old(cache) && ptr == old(ptr)
      ensures p == GoesOn ==> Core() && Running(x, cache, flushed, count + 1) && Centred(x, flushed, before)
      ensures p == GoesOn ==> At(x.pc, count + 1) == Isa.Next(next) && (count > 0 ==> index.nr == old(index.nr) + 1)
      ensures p == AtControl ==> Core() && Ended(x, cache, flushed, true, At(x.pc, count + 1))
    {
      hide Source, Refill, Translated, Stored, Continues, At, PcIndex.InArc, PcIndex.Entries, LastIsOpen, Refilling,
        Coherent, PcIndex.Indexed, Ended, Shape, OpenAt, Closed, FromZero, Reaches, RunInArc, MissesJumper, Foretold,
        RunFailure;
      flushed := was;
      AtNext(x.pc, 0);
      EndIsForetold(x, cache, was, count);
      var t := TranslateNext(next);
      if !t.Emit? { return if t.Rejected? then Dies else Amo, flushed; }
      if layout.Len(t.block.t) > Room(layout, ptr, index.nr) {
        if !flushable {
          RunStops(x, cache, flushed, count);
          return Full, flushed;
        }
        FlushForRun(x);
        flushed := true;
      }
      AtNext(x.pc, count);
      CommitsInArc(x, cache, flushed, count, before, lo);
      EndIsForetold(x, cache, flushed, count);
      ghost var c := cache;
      CommitNext(x, flushed, count, next, t.block);
      if !Stops(t.block.t) { ForetoldGoesOn(x, c, flushed, count, t.block, cache); }
      p := if Stops(t.block.t) then AtControl else GoesOn;
    }

    /** The loop of `prefetch_instructions`. */
    method TranslateLine(ghost x: Setting, ghost before: Word)
      returns (r: Prefetched, ghost idle: bool, ghost flushed: bool, ghost control: bool, ghost next: Word)
      requires Core() && Closed(layout, cache) && x == Setting(layout, Source(guest.mem), guest.pc, cache) &&
        Running(x, cache, false, 0)
      requires RunInArc(layout, x.code, before, x.pc, x.before) && Centred(x, false, before)
      modifies this`ptr, this`cache, this`lo, index, index.items, cells
      ensures r == PrefetchDied <==> RunFailure(layout, x.code, x.pc, x.before) == Some(Rejected)
      ensures r == PrefetchUnmodelled <==> RunFailure(layout, x.code, x.pc, x.before) == Some(NotModelled)
      ensures r == Ready ==> Core()
      ensures r == Ready && idle ==> cache == x.before && x.pc in cache.index && Closed(layout, cache)
      ensures r == Ready && !idle ==> Ended(x, cache, flushed, control, next)
    {
      hide Source, Refill, Translated, Stored, Continues, At, PcIndex.InArc, PcIndex.Entries, LastIsOpen, Refilling,
        Coherent, PcIndex.Indexed, Ended, Shape, OpenAt, Closed, FromZero, Reaches, RunInArc, MissesJumper, Core,
        Foretold, RunFailure;
      var p, flushable := guest.pc, true;
      ghost var count := 0;
      flushed, control := false, false;
      AtNext(x.pc, 0);
      ForetoldAtStart(x);
      while true
        invariant p == At(x.pc, count) && flushable == (count == 0) && (flushable ==> !flushed && cache == x.before)
        invariant Core() && Running(x, cache, flushed, count) && Centred(x, flushed, before)
        invariant Foretold(x, cache, flushed, count)
        decreases flushable, PcIndex.MAX_INSTRUCTIONS - index.nr
      {
        Counters();
        var found := IsCached(p);
        if found {
          MeetsOlder(x, cache, flushed, count);
          MeetingIsNoFailure(x, cache, flushed, count);
          return Ready, count == 0, flushed, false, p;
        }
        var progress;
        progress, flushed := PrefetchOne(x, flushed, count, before, p, flushable);
        match progress {
          case Dies => return PrefetchDied, false, flushed, false, p;
          case Amo => return PrefetchUnmodelled, false, flushed, false, p;
          case Full => return Ready, false, flushed, false, p;
          case AtControl => return Ready, false, flushed, true, At(x.pc, count + 1);
          case GoesOn =>
            Counters();
            flushable, count, p := false, count + 1, Isa.Next(p);
        }
      }
    }

    /**
      `prefetch_instructions`. The loop ends because a flush is possible only before the first commit
      and each commit fills one of the 512 entries. Unless the prefetch itself dies, the guest's pc
      ends up indexed, and every fall-through chain is closed exactly when the run did not flush and
      refill to its starting offset without a control block.
     */
    method Prefetch() returns (r: Prefetched)
      requires Valid() && RunInArc(layout, Source(guest.mem), lo, guest.pc, cache)
      modifies this`ptr, this`cache, this`lo, index, index.items, cells
      ensures r == Ready ==> Core() && guest.pc in cache.index
      ensures r == Ready && old(cache.index) == map[] && old(ptr) == 0 ==>
        var end := Refill(layout, Source(guest.mem), guest.pc, 0, 0);
        ptr == end.ptr + layout.jumper && |cache.index| == end.nr && cache.index.Keys <= Line(guest.pc, end.nr)
      ensures r == Ready ==>
        (Closed(layout, cache) <==> !MissesJumper(layout, Source(guest.mem), guest.pc, old(cache)))
      ensures r == PrefetchDied <==> RunFailure(layout, Source(guest.mem), guest.pc, old(cache)) == Some(Rejected)
      ensures r == PrefetchUnmodelled <==>
        RunFailure(layout, Source(guest.mem), guest.pc, old(cache)) == Some(NotModelled)
    {
      hide Source, Refill, Translated, Stored, Continues, At, PcIndex.InArc, PcIndex.Entries, LastIsOpen, Refilling,
        Coherent, PcIndex.Indexed, Ended, Shape, OpenAt, Closed, FromZero, Reaches, RunInArc, MissesJumper, Core, Line,
        RunFailure;
      ghost var x := Setting(layout, Source(guest.mem), guest.pc, cache);
      var oldPtr := ptr;
      ghost var before := lo;
      BeginRun(x);
      Counters();
      if cache.index == map[] { Recentre(); }
      ghost var idle, flushed, control, next;
      r, idle, flushed, control, next := TranslateLine(x, before);
      if r != Ready { return; }
      Counters();
      if !idle && x.before.index == map[] && x.before.ptr == 0 { FirstRunFills(x, cache, flushed, control, next); }
      CloseRun(x, idle, flushed, control, next, oldPtr);
      Counters();
    }

    // ---- running from the cache ----

    /** Control is at the first byte of the block for the guest's pc. */
    ghost predicate AtBlock(off: nat)
      reads this
    {
      guest.pc in cache.index && guest.pc in cache.blocks && cache.index[guest.pc] == off
    }

    /** Control is at the first byte of a jumper. */
    ghost predicate AtJumper(off: nat)
      reads this
    {
      off + layout.jumper <= cache.ptr && Holds(cache.cells, off, JumperCells(layout))
    }

    /** The guest moves on, and its memory joins the images an instruction fetch may see. */
    method MoveTo(g: Isa.Guest)
      requires Core() && Isa.ValidGuest(g)
      modifies this`guest, this`seen
      ensures Core() && guest == g && seen == old(seen) + {g.mem}
    {
      hide Translated, Coherent, Shape, PcIndex.Indexed, PcIndex.Entries;
      CoherenceGrows(cache.blocks, seen, seen + {g.mem});
      guest, seen := g, seen + {g.mem};
    }

    /** `flush_translation_cache` as fence.i calls it: afterwards only the current memory is in view. */
    method FlushAndMoveTo(g: Isa.Guest)
      requires Core() && Isa.ValidGuest(g)
      modifies this`guest, this`seen, this`ptr, this`cache, index
      ensures Valid() && guest == g && seen == {g.mem}
    {
      hide Translated, Stored, Continues;
      Flush();
      guest, seen := g, {g.mem};
    }

    lemma BlockIsTranslated()
      requires Core() && guest.pc in cache.blocks
      ensures Isa.ValidMachine(Machine())
      ensures ValidBlock(cache.blocks[guest.pc]) && Translated(seen, guest.pc, cache.blocks[guest.pc])
    {
      assert Translated(seen, guest.pc, cache.blocks[guest.pc]) && Stored(layout, cache, guest.pc);
    }

    /** Running one block: the host executes its template, and the guest takes one step of the machine. */
    method StepBlock(env: Isa.Env, b: Block, scratch: Host, k: Clobber) returns (o: Outcome)
      requires Core() && guest.pc in cache.blocks && b == cache.blocks[guest.pc]
      requires scratch.Valid() && scratch.guest == guest
      modifies this`guest, this`seen, this`ptr, this`cache, index
      ensures o.HostFault? ==> Refuses(env, old(Machine()), DivideError)
      ensures o.NoAccess? ==> Refuses(env, old(Machine()), NoRegion)
      ensures o.Fell? || o.Trapped? || o.Flushed? ==>
        Core() && guest == o.host.guest && o.host.Valid() && Isa.Step(env, old(Machine()), Machine())
      ensures o.Fell? ==> !Stops(b.t) && guest.pc == Isa.Next(old(guest.pc))
      ensures o.Fell? ==> Isa.StepAnywhere(old(Machine()), Machine())
      ensures o.Fell? || o.Trapped? ==> cache == old(cache)
      ensures o.Flushed? ==> Closed(layout, cache)
    {
      hide Translated, Shape, Coherent, Closed, ValidBlock, BlockEffect, Shows, Isa.Step, Isa.StepAnywhere, Refuses,
        PcIndex.Indexed, PcIndex.Entries;
      BlockIsTranslated();
      o := RunBlock(env, b, scratch, k);
      OutcomeIsStep(env, Machine(), b, o);
      if o.Fell? { FallIsStepAnywhere(env, Machine(), b, o); }
      if o.Fell? || o.Trapped? {
        MoveTo(o.host.guest);
      } else if o.Flushed? {
        FlushAndMoveTo(o.host.guest);
      }
    }

    /** After a block fell through, control is at the next block or at a jumper. */
    lemma FallsWell(p: Word, off: nat)
      requires Core() && Closed(layout, cache) && p in cache.index && p in cache.blocks && !Stops(cache.blocks[p].t)
      requires off == End(layout, cache, p) && guest.pc == Isa.Next(p)
      ensures AtBlock(off) || AtJumper(off)
      ensures cache.index[p] < off <= TRANSLATION_CACHE_SIZE
    {
      assert Continues(layout, cache, p) && Stored(layout, cache, p);
    }

    /** What the processor finds at a block or at a jumper, and nothing else. */
    lemma FindsCode(off: nat)
      requires Core() && (AtBlock(off) || AtJumper(off))
      ensures AtBlock(off) ==> FetchCode(layout, cache.cells, off) == Runs(cache.blocks[guest.pc])
      ensures !AtBlock(off) ==> FetchCode(layout, cache.cells, off) == Jumps
    {
      if AtBlock(off) {
        assert Stored(layout, cache, guest.pc);
        FetchBlock(layout, cache.cells, off, cache.blocks[guest.pc]);
      } else {
        FetchJumper(layout, cache.cells, off);
      }
    }

    /**
      The jump into the cache, up to the return to the VMM. The chain of blocks ends because each lies
      after the one before; every block is one step of the reference machine.
     */
    method Execute(env: Isa.Env, off0: nat, scratch: Host, k: nat -> Clobber)
      returns (x: Exit, ghost trail: seq<Isa.Machine>)
      requires Valid() && AtBlock(off0) && scratch.Valid() && scratch.guest == guest
      modifies this`guest, this`seen, this`ptr, this`cache, index
      ensures Isa.Run(env, trail) && trail[0] == old(Machine())
      ensures |trail| >= 2 ==> Isa.RunAnywhere(trail[..|trail| - 1])
      ensures x in {Resumed, DivideExit, AccessExit}
      ensures x == Resumed ==> Valid() && |trail| >= 2 && trail[|trail| - 1] == Machine()
      ensures x == DivideExit ==> Refuses(env, trail[|trail| - 1], DivideError)
      ensures x == AccessExit ==> Refuses(env, trail[|trail| - 1], NoRegion)
    {
      hide FetchCode, CodeOf, Isa.Step, Isa.StepAnywhere, Refuses, BlockEffect, Shape, Coherent, Closed;
      var off, h, steps := off0, scratch, 0;
      trail := [Machine()];
      while true
        invariant Valid() && (AtBlock(off) || (AtJumper(off) && |trail| >= 2))
        invariant h.Valid() && h.guest == guest
        invariant Isa.RunAnywhere(trail) && trail[0] == old(Machine()) && trail[|trail| - 1] == Machine()
        decreases TRANSLATION_CACHE_SIZE - off
      {
        FindsCode(off);
        Isa.RunAnywhereIsRun(env, trail);
        match FetchCode(layout, cells[..], off) {
          case Jumps => return Resumed, trail;
          case Runs(b) =>
            ghost var p := guest.pc;
            var o := StepBlock(env, b, h, k(steps));
            if o.HostFault? { return DivideExit, trail; }
            if o.NoAccess? { return AccessExit, trail; }
            if !o.Fell? {
              Isa.RunGoesOn(env, trail, Machine());
              assert (trail + [Machine()])[..|trail|] == trail;
              return Resumed, trail + [Machine()];
            }
            Isa.RunAnywhereGoesOn(trail, Machine());
            trail := trail + [Machine()];
            h, steps, off := o.host, steps + 1, off + layout.Len(b.t);
            FallsWell(p, off);
          case Garbage => assert false;
        }
      }
    }

    /** The search of `vmresume`: after a prefetch it always succeeds. */
    method FindStart() returns (off: nat)
      requires Core() && guest.pc in cache.index
      ensures AtBlock(off)
    {
      hide Stored, Coherent, PcIndex.Indexed;
      var found := index.Lookup(guest.pc, lo);
      assert found.Found? && guest.pc in cache.blocks;
      off := index.items[found.index].offset;
    }

    lemma StandsStill(env: Isa.Env)
      requires Core()
      ensures Isa.Run(env, [Machine()])
    {
    }

    /** The steps just taken join the life of the hart. */
    ghost method Record(env: Isa.Env, trail: seq<Isa.Machine>)
      requires Valid() && SharedRun(moves, life) && Isa.Run(env, trail) && life[|life| - 1] == trail[0]
      requires |trail| >= 2 && trail[|trail| - 1] == Machine()
      modifies this`life, this`moves
      ensures Lives() && life == old(life) + trail[1..] && moves == old(moves) + Stretch(env, |trail| - 1)
    {
      hide Isa.Step, Shape, Coherent, Closed, PcIndex.Indexed, PcIndex.Entries;
      SharedRunGrows(moves, life, env, trail);
      life, moves := life + trail[1..], moves + Stretch(env, |trail| - 1);
    }

    /**
      `vmresume`: prefetch, look the pc up, which succeeds, and jump. From any state with a coherent
      cache, control comes back to the VMM after one or more steps of the reference machine, with the
      invariant kept, or the emulator ends where the machine or the host divider refuses to step.
     */
    method VmResume(env: Isa.Env, scratch: Host, k: nat -> Clobber) returns (x: Exit, ghost trail: seq<Isa.Machine>)
      requires Lives() && RunInArc(layout, Source(guest.mem), lo, guest.pc, cache)
      requires !MissesJumper(layout, Source(guest.mem), guest.pc, cache)
      requires scratch.Valid() && scratch.guest == guest
      modifies this, index, index.items, cells
      ensures Isa.Run(env, trail) && trail[0] == old(Machine())
      ensures |trail| >= 2 ==> Isa.RunAnywhere(trail[..|trail| - 1])
      ensures x == Resumed ==> Lives() && |trail| >= 2 && trail[|trail| - 1] == Machine()
      ensures x == Resumed ==> life == old(life) + trail[1..] && moves == old(moves) + Stretch(env, |trail| - 1)
      ensures (forall i :: 0 <= i < |trail| - 1 ==> Isa.Settled(trail[i])) ==> Isa.PlainRun(env, Isa.Guests(trail))
      ensures x == DivideExit ==> Refuses(env, trail[|trail| - 1], DivideError)
      ensures x == AccessExit ==> Refuses(env, trail[|trail| - 1], NoRegion)
      ensures x == FetchExit <==>
        RunFailure(layout, Source(old(guest.mem)), old(guest.pc), old(cache)) == Some(Rejected)
      ensures x == Unmodelled <==>
        RunFailure(layout, Source(old(guest.mem)), old(guest.pc), old(cache)) == Some(NotModelled)
    {
      hide Core, RunFailure, MissesJumper, Source, SharedRun, Isa.Step, Refuses, Closed, PcIndex.Indexed, PcIndex.InArc;
      trail := [Machine()];
      assert Isa.Run(env, trail) by { StandsStill(env); }
      var r := Prefetch();
      if r == PrefetchDied { return FetchExit, trail; }
      if r == PrefetchUnmodelled { return Unmodelled, trail; }
      var off := FindStart();
      x, trail := Execute(env, off, scratch, k);
      if x == Resumed { Record(env, trail); }
      if forall i :: 0 <= i < |trail| - 1 ==> Isa.Settled(trail[i]) { Isa.SettledRunIsPlain(env, trail); }
    }

    /** Another task, or the kernel on its behalf, changes memory while this hart is in the VMM. */
    method Interfere(mem: Isa.Mem)
      requires Lives()
      modifies this`guest, this`seen, this`life, this`moves
      ensures Lives() && Interfered(old(Machine()), mem, Machine())
      ensures life == old(life) + [Machine()] && moves == old(moves) + [Suffers(mem)]
    {
      hide Isa.Step, Shape, Coherent, Closed, PcIndex.Indexed, PcIndex.Entries;
      MoveTo(guest.(mem := mem));
      life, moves := life + [Machine()], moves + [Suffers(mem)];
    }
  }
}
