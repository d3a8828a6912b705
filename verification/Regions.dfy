/**
  The region table of a guest address space as a sequence: the comparator and its run-time checks, the bubble sort of
  `sort.h` over it, and what "sorted and pairwise disjoint" makes of a search.
 */
module Regions {
  import opened Words
  import opened Tables

  /** A `pm_region_operation`: guest addresses from `low` up to but excluding `high`, backed by a host buffer. */
  datatype Region = Region(low: Word, high: Word, base: array?<Byte>)

  predicate Holds(r: Region, a: int) {
    r.low <= a < r.high
  }

  predicate Apart(r: Region, s: Region) {
    r.high <= s.low || s.high <= r.low
  }

  /** `pm_region_operation_compare` in the debug build: it ends the process on malformed or half-overlapping regions. */
  function Compare(r: Region, s: Region): Verdict {
    if r.low > r.high || s.low > s.high then Fatal
    else if r.high <= s.low then Order(-1)
    else if r.low >= s.high then Order(1)
    else if (r.low <= s.low && r.high >= s.high) || (s.low <= r.low && s.high >= r.high) then Order(0)
    else Fatal
  }

  /** The region a search looks for; its upper end wraps around. */
  function Target(a: Word): Region {
    Region(a, Wrap(a + 1), null)
  }

  function Against(a: Word): Region -> Verdict {
    (r: Region) => Compare(Target(a), r)
  }

  const LAST: Word := 0xFFFF_FFFF

  /** Searching for an address compares it with a region the way one would expect, except for the last address. */
  lemma AgainstRegion(a: Word, r: Region)
    ensures a == LAST || r.low > r.high ==> Against(a)(r) == Fatal
    ensures Against(a)(r) == Order(0) ==> Holds(r, a)
    ensures a != LAST && r.low < r.high ==>
      Against(a)(r) == Order(if r.high <= a then 1 else if a < r.low then -1 else 0)
  {
  }

  // ---- tables ----

  ghost predicate Disjoint(t: seq<Region>) {
    && (forall i :: 0 <= i < |t| ==> t[i].low < t[i].high)
    && (forall i, j :: 0 <= i < j < |t| ==> Apart(t[i], t[j]))
  }

  /** Sorted, non-empty and pairwise disjoint. */
  ghost predicate IsTable(t: seq<Region>) {
    && (forall i :: 0 <= i < |t| ==> t[i].low < t[i].high)
    && (forall i, j :: 0 <= i < j < |t| ==> t[i].high <= t[j].low)
  }

  lemma TableSearch(t: seq<Region>, a: Word)
    requires IsTable(t) && a != LAST
    ensures Descending(t, Against(a))
  {
    forall i | 0 <= i < |t| ensures Against(a)(t[i]) ==
      Order(if t[i].high <= a then 1 else if a < t[i].low then -1 else 0) {
      AgainstRegion(a, t[i]);
    }
  }

  /** An address is in at most one region. */
  lemma HolderIsUnique(t: seq<Region>, a: int, i: nat, j: nat)
    requires IsTable(t) && i < |t| && j < |t| && Holds(t[i], a) && Holds(t[j], a)
    ensures i == j
  {
  }

  // ---- the bubble sort ----

  function Swapped(t: seq<Region>, i: nat): seq<Region>
    requires i + 1 < |t|
  {
    t[i := t[i + 1]][i + 1 := t[i]]
  }

  lemma SwapKeeps(t: seq<Region>, i: nat)
    requires i + 1 < |t|
    ensures multiset(Swapped(t, i)) == multiset(t)
    ensures Disjoint(t) ==> Disjoint(Swapped(t, i))
  {
    var s := Swapped(t, i);
    assert t == t[..i] + [t[i], t[i + 1]] + t[i + 2..];
    assert s == t[..i] + [t[i + 1], t[i]] + t[i + 2..];
    assert multiset([t[i], t[i + 1]]) == multiset([t[i + 1], t[i]]);
    if Disjoint(t) {
      forall m, n | 0 <= m < n < |s| ensures Apart(s[m], s[n]) {
        var m', n' := if m == i then i + 1 else if m == i + 1 then i else m, if n == i then i + 1
          else if n == i + 1 then i else n;
        assert s[m] == t[m'] && s[n] == t[n'] && m' != n';
        assert m' < n' ==> Apart(t[m'], t[n']);
        assert n' < m' ==> Apart(t[n'], t[m']);
      }
    }
  }

  /** Everything from index `k` on is above everything before it, and in order. */
  ghost predicate Settled(t: seq<Region>, k: int) {
    forall i, j :: 0 <= i < j < |t| && k <= j ==> t[i].high <= t[j].low
  }

  /** The element at `k` is above everything before it. */
  ghost predicate Tops(t: seq<Region>, k: int) {
    k < |t| && forall i :: 0 <= i < k ==> t[i].high <= t[k].low
  }

  lemma StepRaises(t: seq<Region>, i: nat)
    requires Disjoint(t) && i + 1 < |t|
    ensures Compare(t[i], t[i + 1]).Order?
    ensures var s := if Compare(t[i], t[i + 1]).sign > 0 then Swapped(t, i) else t;
      && (Tops(t, i) ==> Tops(s, i + 1))
      && forall k :: i + 1 < k && Settled(t, k) ==> Settled(s, k)
  {
    assert Apart(t[i], t[i + 1]);
  }

  /** One comparison of the inner loop: it dies only on regions that overlap. */
  method BubbleStep(a: array<Region>, num: nat, i: nat) returns (died: bool)
    requires i + 1 < num <= a.Length
    modifies a
    ensures multiset(a[..num]) == old(multiset(a[..num])) && a[num..] == old(a[num..])
    ensures Disjoint(old(a[..num])) ==> !died && Disjoint(a[..num])
    ensures forall k :: Disjoint(old(a[..num])) && i + 1 < k && Settled(old(a[..num]), k) ==> Settled(a[..num], k)
    ensures Disjoint(old(a[..num])) && Tops(old(a[..num]), i) ==> Tops(a[..num], i + 1)
  {
    hide Disjoint, Settled, Tops;
    ghost var t := a[..num];
    SwapKeeps(t, i);
    if Disjoint(t) { StepRaises(t, i); }
    var c := Compare(a[i], a[i + 1]);
    if c.Fatal? { return true; }
    died := false;
    if c.sign > 0 {
      a[i], a[i + 1] := a[i + 1], a[i];
      assert a[..num] == Swapped(t, i);
    }
  }

  lemma TopsNothing(t: seq<Region>)
    ensures 0 < |t| ==> Tops(t, 0)
  {
  }

  lemma TopSettles(t: seq<Region>, k: nat)
    requires Settled(t, k + 1) && Tops(t, k)
    ensures Settled(t, k)
  {
  }

  /** The inner loop: the highest of the first `out + 1` regions ends up at `out`. */
  method BubblePass(a: array<Region>, num: nat, out: nat) returns (died: bool)
    requires out < num <= a.Length
    modifies a
    ensures multiset(a[..num]) == old(multiset(a[..num])) && a[num..] == old(a[num..])
    ensures Disjoint(old(a[..num])) && Settled(old(a[..num]), out + 1) ==>
      !died && Disjoint(a[..num]) && Settled(a[..num], out)
  {
    hide Disjoint, Settled, Tops;
    ghost var good := Disjoint(a[..num]) && Settled(a[..num], out + 1);
    TopsNothing(a[..num]);
    var inn := 0;
    while inn < out
      invariant 0 <= inn <= out
      invariant multiset(a[..num]) == old(multiset(a[..num])) && a[num..] == old(a[num..])
      invariant good ==> Disjoint(a[..num]) && Settled(a[..num], out + 1) && Tops(a[..num], inn)
    {
      died := BubbleStep(a, num, inn);
      if died { return; }
      inn := inn + 1;
    }
    if good { TopSettles(a[..num], out); }
    died := false;
  }

  lemma SettledIsTable(t: seq<Region>, k: int)
    requires Disjoint(t) && Settled(t, k) && k <= 1
    ensures IsTable(t)
  {
  }

  /** SORT: always a permutation; on disjoint regions it never dies and the result is a table. */
  method BubbleSort(a: array<Region>, num: nat) returns (died: bool)
    requires num <= a.Length
    modifies a
    ensures multiset(a[..num]) == old(multiset(a[..num])) && a[num..] == old(a[num..])
    ensures Disjoint(old(a[..num])) ==> !died && IsTable(a[..num])
  {
    ghost var disjoint := Disjoint(a[..num]);
    var out := num - 1;
    while out > 0
      invariant -1 <= out < num
      invariant multiset(a[..num]) == old(multiset(a[..num])) && a[num..] == old(a[num..])
      invariant disjoint ==> Disjoint(a[..num]) && Settled(a[..num], out + 1)
    {
      hide Disjoint, Settled;
      died := BubblePass(a, num, out);
      if died { return; }
      out := out - 1;
    }
    if disjoint { SettledIsTable(a[..num], out + 1); }
    died := false;
  }

  // ---- what registering comes down to ----

  /** No region of `t` overlaps `x`. */
  ghost predicate Free(t: seq<Region>, x: Region) {
    forall i :: 0 <= i < |t| ==> Apart(t[i], x)
  }

  /** Where `x` belongs in a table. */
  function Slot(t: seq<Region>, x: Region): (k: nat)
    ensures k <= |t|
  {
    if t == [] || t[|t| - 1].low < x.low then |t| else Slot(t[..|t| - 1], x)
  }

  lemma {:induction false} SlotSplits(t: seq<Region>, x: Region)
    requires IsTable(t)
    ensures forall i :: 0 <= i < Slot(t, x) ==> t[i].low < x.low
    ensures forall i :: Slot(t, x) <= i < |t| ==> x.low <= t[i].low
  {
    if t != [] && t[|t| - 1].low >= x.low {
      SlotSplits(t[..|t| - 1], x);
    }
  }

  lemma InsertPermutes(t: seq<Region>, k: nat, x: Region)
    requires k <= |t|
    ensures multiset(InsertAt(t, k, x)) == multiset(t + [x])
  {
    assert t == t[..k] + t[k..];
  }

  lemma SlotIsBetween(t: seq<Region>, x: Region)
    requires IsTable(t) && Free(t, x) && x.low < x.high
    ensures forall i :: 0 <= i < Slot(t, x) ==> t[i].high <= x.low
    ensures forall i :: Slot(t, x) <= i < |t| ==> x.high <= t[i].low
  {
    SlotSplits(t, x);
    hide Slot;
    assert forall i :: 0 <= i < |t| ==> Apart(t[i], x);
  }

  lemma InsertBetween(t: seq<Region>, k: nat, x: Region)
    requires IsTable(t) && k <= |t| && x.low < x.high
    requires forall i :: 0 <= i < k ==> t[i].high <= x.low
    requires forall i :: k <= i < |t| ==> x.high <= t[i].low
    ensures IsTable(InsertAt(t, k, x))
  {
    var s := InsertAt(t, k, x);
    assert forall i :: 0 <= i < |s| ==> s[i] == if i < k then t[i] else if i == k then x else t[i - 1];
  }

  lemma AppendIsDisjoint(t: seq<Region>, x: Region)
    requires IsTable(t) && Free(t, x) && x.low < x.high
    ensures Disjoint(t + [x])
  {
  }

  /** A new region that overlaps none can be inserted in its slot. */
  lemma InsertKeepsTable(t: seq<Region>, x: Region)
    requires IsTable(t) && Free(t, x) && x.low < x.high
    ensures IsTable(InsertAt(t, Slot(t, x), x)) && Disjoint(t + [x])
    ensures multiset(InsertAt(t, Slot(t, x), x)) == multiset(t + [x])
  {
    SlotIsBetween(t, x);
    InsertBetween(t, Slot(t, x), x);
    InsertPermutes(t, Slot(t, x), x);
    AppendIsDisjoint(t, x);
    hide *;
  }

  lemma LastIsSame(s: seq<Region>, t: seq<Region>)
    requires IsTable(s) && IsTable(t) && multiset(s) == multiset(t) && s != [] && |s| == |t|
    ensures s[|s| - 1] == t[|t| - 1]
  {
    var x, y := s[|s| - 1], t[|t| - 1];
    assert x in multiset(t) && y in multiset(s);
    var i :| 0 <= i < |t| && t[i] == x;
    var j :| 0 <= j < |s| && s[j] == y;
  }

  lemma DropLast(s: seq<Region>)
    requires s != [] && IsTable(s)
    ensures IsTable(s[..|s| - 1]) && multiset(s[..|s| - 1]) == multiset(s) - multiset{s[|s| - 1]}
  {
    assert s == s[..|s| - 1] + [s[|s| - 1]];
  }

  lemma SameSize(s: seq<Region>, t: seq<Region>)
    requires multiset(s) == multiset(t)
    ensures |s| == |t|
  {
    assert |s| == |multiset(s)| && |t| == |multiset(t)|;
  }

  /** A table is determined by its regions. */
  lemma {:induction false} TablesAreUnique(s: seq<Region>, t: seq<Region>)
    requires IsTable(s) && IsTable(t) && multiset(s) == multiset(t)
    ensures s == t
    decreases |s|
  {
    hide IsTable;
    SameSize(s, t);
    if s != [] {
      LastIsSame(s, t);
      DropLast(s);
      DropLast(t);
      var s', t' := s[..|s| - 1], t[..|t| - 1];
      TablesAreUnique(s', t');
      assert forall i :: 0 <= i < |s| - 1 ==> s[i] == s'[i] && t[i] == t'[i];
    }
  }

  /** The region at `m` of a permutation of `t + [x]` holds `x.low`, but no region of `t` does: it is `x` itself. */
  lemma FoundIsNew(t: seq<Region>, x: Region, p: seq<Region>, m: nat)
    requires multiset(p) == multiset(t + [x]) && m < |p| && Holds(p[m], x.low)
    requires forall i :: 0 <= i < |t| ==> !Holds(t[i], x.low)
    ensures p[m] == x
  {
    assert p[m] in multiset(t + [x]);
    assert p[m] in t + [x];
  }

  /** The pre-check on `x.low` and the post-check on the sorted table together rule out every overlap. */
  lemma ChecksImplyFree(t: seq<Region>, x: Region, p: seq<Region>, m: nat)
    requires IsTable(t) && multiset(p) == multiset(t + [x]) && m < |p| && Holds(p[m], x.low)
    requires forall i :: 0 <= i < |t| ==> !Holds(t[i], x.low)
    requires forall j :: 0 <= j < |p| && j != m ==> !(p[m].low < p[j].low < p[m].high)
    ensures Free(t, x) && x.low < x.high
  {
    FoundIsNew(t, x, p, m);
    forall i | 0 <= i < |t| ensures Apart(t[i], x) {
      assert t[i] in t + [x];
      assert t[i] in multiset(p);
      var j :| 0 <= j < |p| && p[j] == t[i];
    }
  }
}
