/**
  A guest address space: a fixed array of regions changed in place by register, mmap, munmap and brk.
 */
module AddressSpace {
  import opened Words
  import opened Collections
  import opened Tables
  import opened Regions

  const SLOTS: nat := 128
  const PAGE: nat := 4096

  /** How a call ends. `Overrun` is a store past the last slot, `Aborted` a failed assertion or a null dereference. */
  datatype Reply = Done(value: Word) | NoMemory | Invalid | Aborted | Overrun

  /** PAGE_ROUNDUP, in 32 bits. */
  function PageUp(a: Word): Word {
    if a % PAGE == 0 then a else Wrap(a - a % PAGE + PAGE)
  }

  lemma PageUpFacts(a: Word)
    ensures PageUp(a) % PAGE == 0
    ensures if a <= TWO32 - PAGE then a <= PageUp(a) < a + PAGE else PageUp(a) == 0
  {
  }

  /** Whether the space below region `i` exceeds `len`. */
  predicate Roomy(t: seq<Region>, i: nat, len: Word)
    requires i < |t|
  {
    t[i].low - (if i == 0 then 0 else t[i - 1].high) > len
  }

  /** No gap below a region exceeds `len`. */
  predicate Crowded(t: seq<Region>, len: Word) {
    forall i :: 0 <= i < |t| ==> !Roomy(t, i, len)
  }

  /** No region of `t` meets the addresses from `low` up to `high`. */
  predicate RangeFree(t: seq<Region>, low: Word, high: Word) {
    forall i :: 0 <= i < |t| ==> t[i].high <= low || t[i].low >= high
  }

  /** A range of `size` bytes that starts less than a page above the address found is still inside the gap. */
  lemma GapIsFree(t: seq<Region>, i: nat, size: Word, low: int)
    requires IsTable(t) && i < |t| && size + PAGE < TWO32 && Roomy(t, i, size + PAGE)
    requires t[i].low - (size + PAGE) <= low < t[i].low - size
    ensures 0 < low && RangeFree(t, low, low + size)
  {
    forall j | 0 <= j < |t| ensures t[j].high <= low || t[j].low >= low + size {
      if j < i {
        assert j < i - 1 ==> t[j].high <= t[i - 1].low;
      }
    }
  }

  /** Raising the end of region `h` keeps the table exactly when no other region starts inside the new range. */
  lemma GrowKeepsTable(t: seq<Region>, h: nat, r: Region)
    requires IsTable(t) && h < |t| && r.low == t[h].low && t[h].high < r.high
    ensures IsTable(t[h := r]) <==> forall j :: 0 <= j < |t| && j != h ==> !(r.low < t[j].low < r.high)
  {
    var s := t[h := r];
    if IsTable(s) {
      forall j | 0 <= j < |t| && j != h ensures !(r.low < t[j].low < r.high) {
        assert s[j] == t[j] && s[h] == r;
      }
    }
  }

  predicate Grown(was: Region, addr: Word, now: Region) {
    now.low == was.low && now.high == addr && now.base != null && now.base.Length == addr - was.low
  }

  /** `to` begins with the bytes of `from`. */
  predicate Copied(from: array?<Byte>, to: array?<Byte>)
    reads from, to
  {
    from != null ==> to != null && forall i :: 0 <= i < from.Length && i < to.Length ==> to[i] == from[i]
  }

  /** A successful `realloc`. */
  method Reallocate(from: array?<Byte>, size: nat) returns (to: array<Byte>)
    ensures fresh(to) && to.Length == size && Copied(from, to)
  {
    to := new Byte[size];
    if from != null {
      for i := 0 to if from.Length < size then from.Length else size
        invariant forall j :: 0 <= j < i ==> to[j] == from[j]
      {
        to[i] := from[i];
      }
    }
  }

  lemma RemoveKeepsTable(t: seq<Region>, k: nat)
    requires IsTable(t) && k < |t|
    ensures IsTable(Without(t, k))
  {
  }

  lemma NotEmptyAt(t: seq<Region>, h: nat)
    requires IsTable(t) && h < |t|
    ensures t[h].low < t[h].high
  {
  }

  lemma InsertedAt(t: seq<Region>, k: nat, x: Region)
    requires k <= |t|
    ensures var s := InsertAt(t, k, x);
      |s| == |t| + 1 && forall i :: 0 <= i < |s| ==> s[i] == if i < k then t[i] else if i == k then x else t[i - 1]
    ensures InsertAt(t, k, x)[k] == x && forall r :: r in InsertAt(t, k, x) <==> r == x || r in t
  {
    assert t == t[..k] + t[k..];
  }

  /** A pointer to slot `h` still denotes its region after an insertion exactly when the new region lies above it. */
  lemma InsertKeepsSlot(t: seq<Region>, x: Region, h: nat)
    requires IsTable(t) && Free(t, x) && x.low < x.high && h < |t|
    ensures InsertAt(t, Slot(t, x), x)[h] == t[h] <==> t[h].high <= x.low
  {
    var k := Slot(t, x);
    SlotSplits(t, x);
    InsertedAt(t, k, x);
    hide Slot, InsertAt;
    assert Apart(t[h], x);
    if h < k {
      assert t[h].low < x.low;
    } else {
      assert x.low <= t[h].low;
      assert h > k ==> t[h - 1].high <= t[h].low;
    }
  }

  /** A pointer to slot `h` still denotes its region after a removal exactly when the region removed lies above it. */
  lemma RemoveKeepsSlot(t: seq<Region>, k: nat, h: nat)
    requires IsTable(t) && k < |t| && h < |t|
    ensures h < |t| - 1 && Without(t, k)[h] == t[h] <==> h < k
  {
    if k <= h < |t| - 1 {
      assert Without(t, k)[h] == t[h + 1];
    }
  }

  /** The initial program break: a page boundary, 16 pages up, in 32 bits. */
  function HeapEnd(proposed: Word): Word {
    Wrap(proposed + 16 * PAGE) - Wrap(proposed + 16 * PAGE) % PAGE
  }

  function InitialHeap(proposed: Word): Region {
    Region(Wrap(HeapEnd(proposed) - 1), HeapEnd(proposed), null)
  }

  predicate Hinted(t: seq<Region>, hint: Word, len: Word) {
    hint != 0 && RangeFree(t, PageUp(hint), Wrap(PageUp(hint) + len))
  }

  /** The highest of the first `n` regions with a gap above `len` below it, or -1. */
  function TopRoomy(t: seq<Region>, n: nat, len: Word): (i: int)
    requires n <= |t|
    ensures -1 <= i < n && (i >= 0 ==> Roomy(t, i, len)) && forall j :: i < j < n ==> !Roomy(t, j, len)
  {
    if n == 0 then -1 else if Roomy(t, n - 1, len) then n - 1 else TopRoomy(t, n - 1, len)
  }

  /**
    The region below which a request of `len` bytes is placed when its hint does not help; `len` plus a page may wrap.
   */
  function Above(t: seq<Region>, len: Word): (i: int)
    ensures -1 <= i < |t|
  {
    TopRoomy(t, |t|, Wrap(len + PAGE))
  }

  /** The address a request is given, before anything is checked about it. */
  function Chosen(t: seq<Region>, hint: Word, len: Word): Option<Word> {
    if Hinted(t, hint, len) then Some(PageUp(hint))
    else if Above(t, len) < 0 then None
    else Some(PageUp(t[Above(t, len)].low - Wrap(len + PAGE)))
  }

  /** The addresses from `low` up to `high` are in the 32-bit space and in no region. */
  predicate Clear(t: seq<Region>, low: int, high: int) {
    0 <= low && high < 0x1_0000_0000 && forall i :: 0 <= i < |t| ==> t[i].high <= low || high <= t[i].low
  }

  /** With no hint, and where no sum wraps, the range goes to the top of the highest gap that exceeds it by a page. */
  lemma HighestGapIsTaken(t: seq<Region>, len: Word) returns (i: nat)
    requires Chosen(t, 0, len).Some? && len + 0x1000 < 0x1_0000_0000
    ensures i < |t| && t[i].low - len - 0x1000 > if i == 0 then 0 else t[i - 1].high
    ensures forall j :: i < j < |t| ==> t[j].low - t[j - 1].high <= len + 0x1000
    ensures var a := Chosen(t, 0, len).value; a % 0x1000 == 0 && t[i].low - len - 0x1000 <= a < t[i].low - len
  {
    i := Above(t, len);
    assert Roomy(t, i, len + PAGE);
    forall j | i < j < |t| ensures t[j].low - t[j - 1].high <= len + 0x1000 {
      assert !Roomy(t, j, len + PAGE);
    }
    PageUpFacts(t[i].low - (len + PAGE));
  }

  /** No address is chosen exactly if the hint does not help and no gap exceeds the length plus a page. */
  lemma NoneIsCrowded(t: seq<Region>, hint: Word, len: Word)
    ensures Chosen(t, hint, len).None? <==> !Hinted(t, hint, len) && Crowded(t, Wrap(len + PAGE))
  {
    var i := Above(t, len);
    if i >= 0 {
      assert Roomy(t, i, Wrap(len + PAGE));
    }
  }

  predicate Unheld(t: seq<Region>, a: int) {
    forall i :: 0 <= i < |t| ==> !Holds(t[i], a)
  }

  /** A full table takes the store past its end before anything is found wrong with the region. */
  predicate Overruns(t: seq<Region>, a: int) {
    |t| == SLOTS && Unheld(t, a)
  }

  /**
    The requests that end the process: an accepted hint whose range wraps around, and a length within a page of 2^32
    that finds a gap. The latter is given an address in or next to the region above the gap; it survives only in the
    corner where that region starts in the last page of the address space and rounding up wraps to a free address 0.
   */
  predicate Aborts(t: seq<Region>, hint: Word, len: Word) {
    var a := Chosen(t, hint, len);
    if a.None? then false
    else if Hinted(t, hint, len) then PageUp(hint) + len >= TWO32 && !Overruns(t, a.value)
    else len + PAGE >= TWO32 &&
         (t[Above(t, len)].low < PAGE || (!(a.value == 0 && t[0].low >= len) && !Overruns(t, a.value)))
  }

  /** The region a request would register can be registered. */
  predicate Fits(t: seq<Region>, a: Word, len: Word) {
    a + len < TWO32 && RangeFree(t, a, a + len)
  }

  /** A length within a page of 2^32: the assertion of the search fails exactly below a region in the first page. */
  lemma HugeSearch(t: seq<Region>, i: nat, len: Word)
    requires IsTable(t) && i < |t| && len + PAGE >= TWO32 && Roomy(t, i, Wrap(len + PAGE))
    ensures var found := t[i].low - Wrap(len + PAGE);
      0 < found < TWO32 && (RangeFree(t, found, Wrap(found + len)) <==> t[i].low >= PAGE)
  {
    var low := t[i].low;
    var found := low - (len + PAGE - TWO32);
    assert Wrap(len + PAGE) == len + PAGE - TWO32;
    if low >= PAGE {
      assert Wrap(found + len) == low - PAGE;
      forall j | 0 <= j < |t| ensures t[j].high <= found || t[j].low >= low - PAGE {
        if j < i {
          assert j < i - 1 ==> t[j].high <= t[i - 1].low;
        }
      }
    } else {
      assert Wrap(found + len) == found + len;
      assert !(t[i].high <= found || t[i].low >= found + len);
    }
  }

  /** A range of such a length fits only at address 0. */
  lemma HugeFits(t: seq<Region>, a: Word, len: Word)
    requires IsTable(t) && t != [] && len + PAGE >= TWO32 && a % PAGE == 0
    ensures Fits(t, a, len) <==> a == 0 && t[0].low >= len
  {
    if a == 0 && t[0].low >= len {
      forall j | 0 <= j < |t| ensures t[j].low >= len {
        assert j > 0 ==> t[0].high <= t[j].low;
      }
    }
  }

  lemma FitsIsUnheld(t: seq<Region>, a: Word, len: Word)
    requires len > 0
    ensures Fits(t, a, len) ==> Unheld(t, a)
  {
  }

  lemma AboveIsRoomy(t: seq<Region>, len: Word)
    ensures Above(t, len) >= 0 ==> Roomy(t, Above(t, len), Wrap(len + PAGE)) && t[Above(t, len)].low >= Wrap(len + PAGE)
    ensures len + PAGE < TWO32 ==> Wrap(len + PAGE) == len + PAGE
  {
  }

  lemma HintFits(t: seq<Region>, a: Word, len: Word)
    requires RangeFree(t, a, Wrap(a + len))
    ensures Fits(t, a, len) <==> a + len < TWO32
  {
  }

  /** Rounding the address found up to a page stays inside the gap. */
  lemma FoundIsRounded(t: seq<Region>, i: nat, size: Word, found: Word)
    requires IsTable(t) && i < |t| && size + PAGE < TWO32 && Roomy(t, i, size + PAGE) &&
      found == t[i].low - (size + PAGE)
    ensures PageUp(found) + size < TWO32 && RangeFree(t, PageUp(found), PageUp(found) + size)
  {
    PageUpFacts(found);
    GapIsFree(t, i, size, PageUp(found));
  }

  /** What is wrong with a request is wrong with the region it would register. */
  lemma ChosenFits(t: seq<Region>, hint: Word, len: Word)
    requires IsTable(t) && len > 0 && Chosen(t, hint, len).Some?
    requires !Hinted(t, hint, len) && len + PAGE >= TWO32 ==> t[Above(t, len)].low >= PAGE
    ensures var a := Chosen(t, hint, len).value;
      && a % PAGE == 0
      && (Aborts(t, hint, len) <==> !Fits(t, a, len) && !Overruns(t, a))
      && (Fits(t, a, len) ==> Unheld(t, a))
  {
    hide RangeFree, Roomy, IsTable, PageUp, Overruns, Unheld, Wrap;
    var a, i := Chosen(t, hint, len).value, Above(t, len);
    FitsIsUnheld(t, a, len);
    AboveIsRoomy(t, len);
    if Hinted(t, hint, len) {
      PageUpFacts(hint);
      HintFits(t, a, len);
    } else if len + PAGE < TWO32 {
      PageUpFacts(t[i].low - (len + PAGE));
      FoundIsRounded(t, i, len, t[i].low - (len + PAGE));
    } else {
      PageUpFacts(t[i].low - Wrap(len + PAGE));
      HugeFits(t, a, len);
    }
  }

  /** No request aborts unless its hint's range or its length plus a page wraps around. */
  lemma AbortsOnlyOnWrap(t: seq<Region>, hint: Word, len: Word)
    requires Aborts(t, hint, len)
    ensures (hint != 0 && PageUp(hint) + len >= TWO32) || len + PAGE >= TWO32
  {
  }

  /** Two such requests: no hint and a length a page short of 2^32, and a hint whose range ends at 2^32. */
  lemma WrappingRequestsAbort()
    ensures var t := [Region(0x1_0000, 0x2_0000, null)];
      IsTable(t) && Aborts(t, 0, 0xFFFF_F000) && Aborts(t, 0xFFFF_F000, 0x1000)
  {
    var t := [Region(0x1_0000, 0x2_0000, null)];
    assert Roomy(t, 0, 0);
    assert Above(t, 0xFFFF_F000) == 0;
    assert Hinted(t, 0xFFFF_F000, 0x1000);
  }

  /** A hint whose range, from the next page boundary on, is clear is taken, and does not end the process. */
  lemma HintWins(t: seq<Region>, hint: Word, len: Word)
    ensures
      var at := (hint + 0xfff) / 0x1000 * 0x1000;
      hint != 0 && Clear(t, at, at + len) ==> Chosen(t, hint, len) == Some(at) && !Aborts(t, hint, len)
  {
    PageUpFacts(hint);
    hide Above;
  }

  // ---- host buffers ----

  /** The buffers that regions have are their own and as long as the region; a region may have none yet. */
  ghost predicate Sized(t: seq<Region>) {
    && (forall i :: 0 <= i < |t| && t[i].base != null ==> t[i].base.Length == t[i].high - t[i].low)
    && (forall i, j :: 0 <= i < j < |t| && t[i].base != null ==> t[i].base != t[j].base)
  }

  ghost function Buffers(t: seq<Region>): set<array<Byte>> {
    set r | r in t && r.base != null :: r.base
  }

  /** The buffer of `x`, if it has one, is as long as the region and belongs to no region of `t`. */
  ghost predicate Own(t: seq<Region>, x: Region) {
    x.base != null ==> x.base.Length == x.high - x.low && forall i :: 0 <= i < |t| ==> t[i].base != x.base
  }

  ghost function BufferOf(x: Region): set<array<Byte>> {
    if x.base == null then {} else {x.base}
  }

  lemma NoRegions()
    ensures Sized([]) && Buffers([]) == {}
  {
  }

  lemma InsertedBuffers(t: seq<Region>, k: nat, x: Region)
    requires k <= |t|
    ensures Buffers(InsertAt(t, k, x)) == Buffers(t) + BufferOf(x)
  {
    InsertedAt(t, k, x);
    hide InsertAt;
  }

  lemma InsertKeepsSized(t: seq<Region>, k: nat, x: Region)
    requires k <= |t|
    ensures Sized(t) && Own(t, x) ==> Sized(InsertAt(t, k, x))
  {
    InsertedAt(t, k, x);
    hide InsertAt;
  }

  lemma RemoveKeepsSized(t: seq<Region>, k: nat)
    requires k < |t|
    ensures Sized(t) ==> Sized(Without(t, k))
    ensures Buffers(Without(t, k)) <= Buffers(t)
  {
  }

  lemma ReplaceKeepsSized(t: seq<Region>, h: nat, x: Region)
    requires h < |t|
    ensures Sized(t) && Own(t, x) ==> Sized(t[h := x])
    ensures Buffers(t[h := x]) <= Buffers(t) + BufferOf(x)
  {
  }

  /** Every region ends at or below `a`. */
  predicate Below(t: seq<Region>, a: int) {
    forall i :: 0 <= i < |t| ==> t[i].high <= a
  }

  /** A region above all others is free and goes to the end of the table. */
  lemma GoesLast(t: seq<Region>, x: Region)
    requires IsTable(t) && Below(t, x.low)
    ensures Free(t, x) && InsertAt(t, Slot(t, x), x) == t + [x]
  {
    assert Slot(t, x) == |t|;
  }

  lemma NewIsFound(t: seq<Region>, x: Region, p: seq<Region>)
    requires IsTable(p) && multiset(p) == multiset(t + [x]) && x.low < x.high
    ensures x.low != LAST && exists i :: 0 <= i < |p| && Holds(p[i], x.low) && Against(x.low)(p[i]) == Order(0)
  {
    assert x in t + [x];
    assert x in multiset(p);
    var i :| 0 <= i < |p| && p[i] == x;
    AgainstRegion(x.low, x);
  }

  lemma TableIsEligible(p: seq<Region>, m: nat)
    requires IsTable(p) && m < |p|
    ensures forall j :: 0 <= j < |p| && j != m ==> !(p[m].low < p[j].low < p[m].high)
  {
  }

  datatype Request =
    | MapCall(hint: Word, len: Word, granted: bool)
    | UnmapCall(addr: Word, len: Word)
    | BreakCall(addr: Word, granted: bool)

  datatype Change = Change(region: Region, brk: Word)

  lemma InsertedSize(t: seq<Region>, x: Region)
    ensures |InsertAt(t, Slot(t, x), x)| == |t| + 1
  {
  }

  lemma AboveIsLater(t: seq<Region>, h: nat, k: nat)
    requires IsTable(t) && h < |t| && k < |t| && t[h].high <= t[k].low
    ensures h < k
  {
  }

  lemma HeldIsNotFree(t: seq<Region>, i: nat, x: Region)
    requires i < |t| && Holds(t[i], x.low)
    ensures !(x.low < x.high && Free(t, x))
  {
    if x.low < x.high {
      assert !Apart(t[i], x);
    }
  }

  lemma ChosenOrNot(t: seq<Region>, hint: Word, len: Word)
    requires Chosen(t, hint, len).None?
    ensures !Aborts(t, hint, len)
  {
  }

  lemma DeadSearchAborts(t: seq<Region>, hint: Word, len: Word)
    requires Chosen(t, hint, len).Some? && !Hinted(t, hint, len) && len + PAGE >= TWO32 && t[Above(t, len)].low < PAGE
    ensures Aborts(t, hint, len)
  {
  }

  /** The region of a request is well formed and free exactly if the range fits. */
  lemma MappedIsFree(t: seq<Region>, x: Region, len: Word)
    requires x.high == Wrap(x.low + len) && len > 0 && x.low % PAGE == 0
    ensures x.low != LAST && (x.low < x.high && Free(t, x) <==> Fits(t, x.low, len))
    ensures Fits(t, x.low, len) ==> x.high == x.low + len
  {
  }

  class Space {
    const ops: array<Region>
    var nr: nat
    var heap: Option<nat>

    ghost predicate Valid()
      reads this, ops
    {
      && ops.Length == SLOTS && nr <= SLOTS && (heap.Some? ==> heap.value < SLOTS)
      && IsTable(ops[..nr])
    }

    ghost function Table(): seq<Region>
      requires nr <= ops.Length
      reads this, ops
    {
      ops[..nr]
    }

    constructor ()
      ensures Valid() && fresh(ops) && Table() == [] && heap == None
    {
      ops := new Region[SLOTS](_ => Region(0, 0, null));
      nr, heap := 0, None;
    }

    /** `search_pm_region_callback`: the answer of a linear scan, except that the last address ends the process. */
    method Find(a: Word) returns (r: Lookup)
      requires Valid()
      ensures r.Died? <==> a == LAST && nr > 0
      ensures r.Found? ==> r.index < nr && Holds(ops[r.index], a)
      ensures r.Missing? ==> forall i :: 0 <= i < nr ==> !Holds(ops[i], a)
    {
      r := Search(ops, nr, Against(a));
      forall i | 0 <= i < nr
        ensures a == LAST ==> Against(a)(ops[i]) == Fatal
        ensures a != LAST ==> Against(a)(ops[i]).Order? && (Against(a)(ops[i]) == Order(0) <==> Holds(ops[i], a))
      {
        AgainstRegion(a, ops[i]);
      }
      if a != LAST { TableSearch(ops[..nr], a); }
    }

    /** `is_vma_eligible` on the region in slot `h`. */
    method IsVmaEligible(h: nat) returns (ok: bool)
      requires h < ops.Length && nr <= ops.Length
      ensures ok <==> h < nr && forall j :: 0 <= j < nr && j != h ==> !(ops[h].low < ops[j].low < ops[h].high)
    {
      var found, i := false, 0;
      while i < nr
        invariant i <= nr && (found <==> h < i)
        invariant forall j :: 0 <= j < i && j != h ==> !(ops[h].low < ops[j].low < ops[h].high)
      {
        if i == h {
          found := true;
        } else if ops[i].low > ops[h].low && ops[i].low < ops[h].high {
          break;
        }
        i := i + 1;
      }
      ok := found && i == nr;
    }

    method IsRangeEligible(low: Word, high: Word) returns (ok: bool)
      requires nr <= ops.Length
      ensures ok <==> RangeFree(ops[..nr], low, high)
    {
      var i := 0;
      while i < nr
        invariant i <= nr && RangeFree(ops[..i], low, high)
      {
        assert ops[..i + 1] == ops[..i] + [ops[i]];
        if !(ops[i].high <= low) && !(ops[i].low >= high) {
          assert ops[..nr][i] == ops[i];
          return false;
        }
        i := i + 1;
      }
      return true;
    }

    /** `search_free_mmap_region`: the highest gap with room for `size` bytes and a page. */
    method SearchFree(size: Word) returns (addr: Option<Word>, died: bool, ghost at: nat)
      requires Valid()
      ensures addr.None? <==> Crowded(Table(), Wrap(size + PAGE))
      ensures addr.None? <==> Above(Table(), size) < 0
      ensures addr.Some? ==> at == Above(Table(), size) && addr.value == ops[at].low - Wrap(size + PAGE)
      ensures died <==> addr.Some? && size + PAGE >= TWO32 && ops[at].low < PAGE
    {
      hide RangeFree, IsTable;
      var len := Wrap(size + PAGE);
      ghost var t := Table();
      addr, died, at := None, false, 0;
      var i := nr - 1;
      while i >= 0
        invariant -1 <= i < nr
        invariant forall j :: i < j < nr ==> !Roomy(t, j, len)
      {
        assert t[i] == ops[i] && (i > 0 ==> t[i - 1] == ops[i - 1]);
        if (i != 0 && ops[i].low - ops[i - 1].high > len) || (i == 0 && ops[i].low > len) { break; }
        i := i - 1;
      }
      if i >= 0 {
        addr, at := Some(ops[i].low - len), i;
        var ok := IsRangeEligible(addr.value, Wrap(addr.value + size));
        died := !ok;
        assert Roomy(Table(), at, len);
        if size + PAGE < TWO32 {
          assert Wrap(addr.value + size) == addr.value + size;
          GapIsFree(t, i, size, addr.value);
        } else {
          HugeSearch(t, i, size);
        }
      }
    }

    /** The first half of registration: the new region goes to the end, and everything is sorted. */
    method Store(x: Region) returns (died: bool)
      requires Valid() && nr < SLOTS
      modifies this`nr, ops
      ensures nr == old(nr) + 1 && multiset(ops[..nr]) == multiset(old(Table()) + [x])
      ensures x.low < x.high && Free(old(Table()), x) ==> !died && IsTable(ops[..nr])
    {
      hide Slot, InsertAt, Disjoint, Free, IsTable;
      ghost var t := Table();
      if Free(t, x) && x.low < x.high { InsertKeepsTable(t, x); }
      ops[nr] := x;
      nr := nr + 1;
      assert ops[..nr] == t + [x];
      died := BubbleSort(ops, nr);
    }

    /** The second half of registration: the new region is looked up and checked against the others. */
    method Recheck(ghost t: seq<Region>, x: Region) returns (r: Reply)
      requires ops.Length == SLOTS && nr <= SLOTS && (heap.Some? ==> heap.value < SLOTS)
      requires IsTable(t) && multiset(ops[..nr]) == multiset(t + [x])
      requires forall i :: 0 <= i < |t| ==> !Holds(t[i], x.low)
      requires Free(t, x) && x.low < x.high ==> IsTable(ops[..nr])
      ensures r in {Done(0), Aborted}
      ensures r == Done(0) <==> x.low < x.high && Free(t, x)
      ensures r == Done(0) ==> Valid() && Table() == InsertAt(t, Slot(t, x), x)
    {
      hide Slot, InsertAt, Free, IsTable;
      ghost var p := ops[..nr];
      ghost var good := Free(t, x) && x.low < x.high;
      if good {
        InsertKeepsTable(t, x);
        TablesAreUnique(p, InsertAt(t, Slot(t, x), x));
      }
      var after := Search(ops, nr, Against(x.low));
      if good {
        NewIsFound(t, x, p);
        TableSearch(p, x.low);
      }
      if !after.Found? { return Aborted; }
      AgainstRegion(x.low, ops[after.index]);
      if good { TableIsEligible(p, after.index); }
      var ok := IsVmaEligible(after.index);
      if ok { ChecksImplyFree(t, x, p, after.index); }
      return if ok then Done(0) else Aborted;
    }

    /**
      `register_pm_region_operation` succeeds exactly when the region is non-empty, overlaps none and a slot is left;
      the table then holds it in order. The guard on the count admits one region more than there are slots.
     */
    method Register(x: Region) returns (r: Reply)
      requires Valid()
      modifies this`nr, ops
      ensures r in {Done(0), Aborted, Overrun}
      ensures r == Done(0) <==> x.low < x.high && Free(old(Table()), x) && old(nr) < SLOTS
      ensures r == Done(0) ==> Valid() && nr <= SLOTS && Table() == InsertAt(old(Table()), Slot(old(Table()), x), x)
      ensures r == Overrun <==> old(nr) == SLOTS && x.low != LAST && forall i :: 0 <= i < SLOTS ==>
        !Holds(old(ops[i]), x.low)
      ensures r == Overrun ==> nr == old(nr) && Table() == old(Table())
    {
      hide Slot, InsertAt, Disjoint, Free, IsTable;
      ghost var t := Table();
      var before := Find(x.low);
      if before.Found? { HeldIsNotFree(t, before.index, x); }
      if !before.Missing? { return Aborted; }
      if nr >= 256 { return Aborted; }
      if nr == SLOTS { return Overrun; }
      var died := Store(x);
      if died { return Aborted; }
      r := Recheck(t, x);
    }

    /** `unregister_pm_region` on the region in slot `k`: the regions above it move down. */
    method Unregister(k: nat)
      requires Valid() && k < nr
      modifies this`nr, ops
      ensures Valid() && Table() == Without(old(Table()), k)
    {
      hide IsTable;
      ghost var t := Table();
      RemoveKeepsTable(t, k);
      var i := k;
      while i < nr - 1
        invariant k <= i <= nr - 1 && nr == old(nr)
        invariant forall j :: 0 <= j < k ==> ops[j] == t[j]
        invariant forall j :: k <= j < i ==> ops[j] == t[j + 1]
        invariant forall j :: i <= j < nr ==> ops[j] == t[j]
      {
        ops[i] := ops[i + 1];
        i := i + 1;
      }
      nr := nr - 1;
      assert ops[..nr] == Without(t, k);
    }

    /** `do_munmap`: it takes a whole region or nothing. */
    method Munmap(addr: Word, len: Word) returns (r: Reply, ghost k: nat)
      requires Valid()
      modifies this`nr, ops
      ensures Valid() && r in {Done(0), Invalid, Aborted}
      ensures r == Aborted <==> addr == LAST && old(nr) > 0
      ensures r == Done(0) <==>
        exists i :: 0 <= i < old(nr) && Holds(old(ops[i]), addr) && old(ops[i]).high - old(ops[i]).low == len
      ensures r == Done(0) ==> k < old(nr) && Holds(old(ops[k]), addr) && Table() == Without(old(Table()), k)
      ensures r != Done(0) ==> Table() == old(Table())
      ensures (old(Sized(Table())) ==> Sized(Table())) && Buffers(Table()) <= old(Buffers(Table()))
    {
      ghost var t := Table();
      k := 0;
      var found := Find(addr);
      if found.Died? { return Aborted, 0; }
      if found.Missing? { return Invalid, 0; }
      var at := found.index;
      forall i | 0 <= i < nr && Holds(t[i], addr) ensures i == at {
        HolderIsUnique(t, addr, i, at);
      }
      if ops[at].high - ops[at].low != len { return Invalid, 0; }
      Unregister(at);
      RemoveKeepsSized(t, at);
      return Done(0), at;
    }

    /** `allocate_mmap_region` up to the choice of an address. */
    method Place(hint: Word, len: Word) returns (low: Option<Word>, died: bool)
      requires Valid()
      ensures low == Chosen(Table(), hint, len)
      ensures died <==>
        !Hinted(Table(), hint, len) && low.Some? && len + PAGE >= TWO32 && Table()[Above(Table(), len)].low < PAGE
    {
      hide RangeFree, Roomy, IsTable, PageUp, Above;
      died := false;
      if hint != 0 {
        var from := PageUp(hint);
        var ok := IsRangeEligible(from, Wrap(from + len));
        if ok {
          return Some(from), false;
        }
      }
      ghost var at;
      low, died, at := SearchFree(len);
      if low.Some? {
        low := Some(PageUp(low.value));
      }
    }

    /**
      Anonymous `do_mmap`, with the exact condition for each of its five endings. A range that is mapped is page
      aligned, met no region, is zeroed and is now in the table.
     */
    method Mmap(hint: Word, len: Word, granted: bool) returns (r: Reply, ghost x: Region)
      requires Valid()
      modifies this`nr, ops
      ensures r == Invalid <==> len == 0
      ensures r == NoMemory <==> len > 0 && !Hinted(old(Table()), hint, len) && Crowded(old(Table()), Wrap(len + PAGE))
      ensures r == Aborted <==> len > 0 && Aborts(old(Table()), hint, len)
      ensures r == Overrun <==>
        len > 0 && Chosen(old(Table()), hint, len).Some? && !Aborts(old(Table()), hint, len) && old(nr) == SLOTS
      ensures r.Done? <==>
        len > 0 && Chosen(old(Table()), hint, len).Some? && !Aborts(old(Table()), hint, len) && old(nr) < SLOTS
      ensures r in {Invalid, NoMemory, Overrun} ==> Valid() && nr == old(nr) && Table() == old(Table())
      ensures r.Done? ==> Valid() && r.value % PAGE == 0 && Some(r.value) == Chosen(old(Table()), hint, len)
      ensures r.Done? ==> x.low == r.value && x.high == x.low + len && Free(old(Table()), x)
      ensures r.Done? ==> nr <= SLOTS && Table() == InsertAt(old(Table()), Slot(old(Table()), x), x)
      ensures r.Done? && x.base != null ==>
        fresh(x.base) && x.base.Length == len && forall i :: 0 <= i < len ==> x.base[i] == 0
      ensures
        var at := (hint + 0xfff) / 0x1000 * 0x1000;
        len > 0 && hint != 0 && old(nr) < 128 && Clear(old(Table()), at, at + len) ==> r == Done(at)
      ensures r.Done? && old(Sized(Table())) ==> Sized(Table())
      ensures r.Done? ==> fresh(Buffers(Table()) - old(Buffers(Table())))
    {
      hide Crowded, Sized, Buffers, RangeFree, Roomy, IsTable, Slot, InsertAt, Free, Hinted, PageUp, Above, Chosen,
        Aborts;
      ghost var t := Table();
      x := Region(0, 0, null);
      if len == 0 { return Invalid, x; }
      NoneIsCrowded(t, hint, len);
      HintWins(t, hint, len);
      var low, died := Place(hint, len);
      if low.None? { ChosenOrNot(t, hint, len); return NoMemory, x; }
      if died { DeadSearchAborts(t, hint, len); return Aborted, x; }
      ChosenFits(t, hint, len);
      var base: array?<Byte> := null;
      if granted { base := new Byte[len](_ => 0); }
      var mapped := Region(low.value, Wrap(low.value + len), base);
      x := mapped;
      MappedIsFree(t, mapped, len);
      r := Register(mapped);
      if r == Done(0) {
        InsertKeepsSized(t, Slot(t, x), x);
        InsertedBuffers(t, Slot(t, x), x);
        r := Done(low.value);
      }
    }

    /** `heap_init`: one byte below a page boundary 16 pages above the program. */
    method HeapInit(proposed: Word) returns (r: Reply)
      requires Valid()
      modifies this, ops
      ensures r.Done? <==> HeapEnd(proposed) > 0 && old(nr) < SLOTS && Free(old(Table()), InitialHeap(proposed))
      ensures r.Done? ==> Valid() && r.value == HeapEnd(proposed) && r.value % PAGE == 0
      ensures r.Done? ==> heap.Some? && heap.value < nr && ops[heap.value] == InitialHeap(proposed)
      ensures r.Done? && proposed + 0x1_0000 < 0x1_0000_0000 ==>
        proposed + 0xf000 < r.value <= proposed + 0x1_0000 && r.value % 0x1000 == 0
      ensures r.Done? ==> ops[heap.value] == Region(r.value - 1, r.value, null)
      ensures r.Done? ==> (old(Sized(Table())) ==> Sized(Table())) && Buffers(Table()) == old(Buffers(Table()))
    {
      hide Slot, Sized, Buffers, InsertAt;
      var brk := HeapEnd(proposed);
      var x := InitialHeap(proposed);
      ghost var t := Table();
      r := Register(x);
      if r != Done(0) { return; }
      var found := Find(x.low);
      InsertedAt(t, Slot(t, x), x);
      assert Table()[Slot(t, x)] == x;
      InsertKeepsSized(t, Slot(t, x), x);
      InsertedBuffers(t, Slot(t, x), x);
      if !found.Found? { return Aborted; }
      HolderIsUnique(Table(), x.low, found.index, Slot(t, x));
      heap := Some(found.index);
      r := Done(brk);
    }

    /** No region but the heap itself starts between the start of the heap and `addr`. */
    ghost predicate CanGrow(h: nat, addr: Word)
      requires h < ops.Length && nr <= ops.Length
      reads this, ops
    {
      h < nr && forall j :: 0 <= j < nr && j != h ==> !(ops[h].low < ops[j].low < addr)
    }

    /**
      `call_brk`: the break never goes down; a rejected call changes nothing, unless the host is out of memory; an
      accepted one keeps every byte below the old break.
     */
    method Brk(addr: Word, granted: bool) returns (r: Reply)
      requires Valid()
      modifies ops
      ensures Valid()
      ensures heap.None? ==> r == Aborted && ops[..] == old(ops[..])
      ensures heap.Some? ==>
        var h := heap.value;
        var was := old(ops[..])[h];
        var accepted := addr > was.high && old(CanGrow(heap.value, addr));
        && (addr <= was.high ==> r == Done(was.high) && ops[..] == old(ops[..]))
        && (addr > was.high && !accepted ==> r == NoMemory && ops[..] == old(ops[..]))
        && (accepted && !granted ==> r == NoMemory && ops[..] == old(ops[..])[h := Region(was.low, addr, null)])
        && (accepted && granted ==> r == Done(addr) && Grown(was, addr, ops[h]) && ops[..] == old(ops[..])[h := ops[h]])
        && (accepted && granted ==> fresh(ops[h].base) && Copied(was.base, ops[h].base))
      ensures (old(Sized(Table())) ==> Sized(Table())) && fresh(Buffers(Table()) - old(Buffers(Table())))
    {
      hide IsTable, Copied, Sized, Buffers;
      if heap.None? { return Aborted; }
      var h := heap.value;
      var was := ops[h];
      if addr == 0 || addr <= was.high { return Done(was.high); }
      ghost var s, t := ops[..], Table();
      assert s[..nr] == t;
      ops[h] := was.(high := addr);
      var ok := IsVmaEligible(h);
      if !ok {
        ops[h] := was;
        assert ops[..] == s && ops[..nr] == t;
        return NoMemory;
      }
      NotEmptyAt(t, h);
      assert forall j :: 0 <= j < nr && j != h ==> t[j] == ops[j];
      var base: array?<Byte> := null;
      if granted { base := Reallocate(was.base, addr - was.low); }
      ghost var grown := Region(was.low, addr, base);
      GrowKeepsTable(t, h, grown);
      ReplaceKeepsSized(t, h, grown);
      ops[h] := Region(was.low, addr, base);
      assert ops[..nr] == t[h := grown];
      return if granted then Done(addr) else NoMemory;
    }

    /** The heap pointer denotes a region that starts where the heap did and has not shrunk. */
    ghost predicate HeapFrom(was: Region)
      requires nr <= ops.Length
      reads this, ops
    {
      heap.Some? && heap.value < nr && ops[heap.value].low == was.low && ops[heap.value].high >= was.high
    }

    /** One request; `change` is the region it mapped or unmapped, with the program break at that time. */
    method Handle(q: Request) returns (alive: bool, ghost change: Option<Change>)
      requires Valid() && heap.Some?
      modifies this`nr, ops
      ensures alive ==> Valid()
      ensures change.Some? ==> change.value.brk == old(ops[heap.value]).high
      ensures alive && old(heap.value < nr) && (change.Some? ==> change.value.brk <= change.value.region.low) ==>
        HeapFrom(old(ops[heap.value]))
      ensures alive ==> (old(Sized(Table())) ==> Sized(Table())) && fresh(Buffers(Table()) - old(Buffers(Table())))
    {
      hide Sized, Buffers, Crowded, IsTable, Slot, InsertAt, Free, Hinted, Roomy, RangeFree;
      ghost var t, h, was := Table(), heap.value, ops[heap.value];
      alive, change := true, None;
      match q {
        case MapCall(hint, len, granted) =>
          var r, x := Mmap(hint, len, granted);
          alive := !r.Aborted? && !r.Overrun?;
          if r.Done? {
            change := Some(Change(x, was.high));
            if h < |t| { InsertKeepsSlot(t, x, h); InsertedSize(t, x); }
          }
          assert alive && h < |t| && (change.Some? ==> was.high <= x.low) ==> h < nr && Table()[h] == was;
        case UnmapCall(addr, len) =>
          var r, k := Munmap(addr, len);
          alive := !r.Aborted?;
          if r == Done(0) {
            change := Some(Change(t[k], was.high));
            if h < |t| {
              RemoveKeepsSlot(t, k, h);
              if t[h].high <= t[k].low { AboveIsLater(t, h, k); }
            }
          }
          assert alive && h < |t| && (change.Some? ==> h < k) ==> h < nr && Table()[h] == was;
        case BreakCall(addr, granted) =>
          var r := Brk(addr, granted);
          assert ops[..][h] == ops[h];
      }
    }

    /**
      Any run of mmap, munmap and brk that trips no assertion keeps the table sorted and pairwise disjoint, and every
      region with a buffer of its own and of its size; if whatever is mapped or unmapped lies above the break, the heap
      pointer stays on the heap and the break never decreases.
     */
    method Serve(requests: seq<Request>) returns (alive: bool, ghost changes: seq<Change>)
      requires Valid() && heap.Some? && heap.value < nr
      modifies this`nr, ops
      ensures alive ==> Valid()
      ensures alive && (forall c :: c in changes ==> c.brk <= c.region.low) ==> HeapFrom(old(ops[heap.value]))
      ensures alive ==> (old(Sized(Table())) ==> Sized(Table())) && fresh(Buffers(Table()) - old(Buffers(Table())))
    {
      hide IsTable, Sized, Buffers;
      ghost var news: set<array<Byte>> := {};
      alive, changes := true, [];
      for i := 0 to |requests|
        invariant alive && Valid() && heap == old(heap)
        invariant (forall c :: c in changes ==> c.brk <= c.region.low) ==> HeapFrom(old(ops[heap.value]))
        invariant (old(Sized(Table())) ==> Sized(Table())) && fresh(news) &&
          Buffers(Table()) <= old(Buffers(Table())) + news
      {
        ghost var change;
        ghost var now := Buffers(Table());
        label Before:
        alive, change := Handle(requests[i]);
        if !alive { return; }
        forall b | b in Buffers(Table()) - now ensures fresh(b) { assert fresh@Before(b); }
        news := news + (Buffers(Table()) - now);
        if change.Some? {
          ghost var before := changes;
          changes := changes + [change.value];
          assert forall c :: c in before ==> c in changes;
          assert change.value in changes;
        }
      }
    }
  }

  // ---- inputs on which the code goes wrong ----

  /** A search for the last address ends the process as soon as there is a region. */
  method LastAddressDies() returns (r: Lookup)
    ensures r.Died?
  {
    var s := new Space();
    var done := s.Register(Region(0, PAGE, null));
    r := s.Find(LAST);
  }

  /** The table takes 128 regions, and the guard lets a 129th pass. */
  method TableOverflows() returns (r: Reply)
    ensures r == Overrun
  {
    var s := new Space();
    for i := 0 to SLOTS
      invariant fresh(s) && fresh(s.ops) && s.Valid() && s.nr == i && Below(s.Table(), i * PAGE)
    {
      hide IsTable, InsertAt, Slot, Free;
      var x := Region(i * PAGE, (i + 1) * PAGE, null);
      GoesLast(s.Table(), x);
      var done := s.Register(x);
    }
    r := s.Register(Region(SLOTS * PAGE, SLOTS * PAGE + PAGE, null));
  }
}
