/**
  What clone does to memory: without CLONE_VM every region gets a buffer of its own with the same bytes, with it the
  child resolves to the owner its parent resolves to.
 */
module ForkedMemory {
  import opened Words
  import opened Collections
  import opened Tables
  import opened Regions
  import opened AddressSpace
  import opened GuestMemory

  // ---- duplication ----

  /** Every region has a host buffer; the heap has none before the first accepted brk. */
  predicate Backed(t: seq<Region>) {
    forall i :: 0 <= i < |t| ==> t[i].base != null
  }

  method CopyBuffer(from: array<Byte>) returns (to: array<Byte>)
    ensures fresh(to) && to[..] == from[..]
  {
    to := new Byte[from.Length];
    for i := 0 to from.Length
      invariant to[..i] == from[..i]
    {
      to[i] := from[i];
    }
    assert to[..] == to[..to.Length] && from[..] == from[..from.Length];
  }

  /** Same addresses. */
  predicate SameRange(r: Region, s: Region) {
    r.low == s.low && r.high == s.high
  }

  lemma CopyIsTable(c: seq<Region>, t: seq<Region>)
    requires IsTable(t) && |c| == |t| && forall i :: 0 <= i < |t| ==> SameRange(c[i], t[i])
    ensures IsTable(c)
  {
  }

  lemma {:induction false} SameHolder(c: seq<Region>, t: seq<Region>, a: int)
    requires |c| == |t| && forall i :: 0 <= i < |t| ==> SameRange(c[i], t[i])
    ensures HolderOf(c, a) == HolderOf(t, a)
    decreases |t|
  {
    if t != [] {
      SameHolder(c[..|t| - 1], t[..|t| - 1], a);
    }
  }

  lemma CopyIsSeen(c: seq<Region>, t: seq<Region>)
    requires Sized(t) && Backed(t) && |c| == |t|
    requires forall i :: 0 <= i < |t| ==> SameRange(c[i], t[i]) && c[i].base != null && c[i].base[..] == t[i].base[..]
    requires forall i, j :: 0 <= i < j < |c| ==> c[i].base != c[j].base
    ensures Sized(c) && forall a :: ByteAt(c, a) == ByteAt(t, a)
  {
    forall i | 0 <= i < |c| ensures c[i].base.Length == c[i].high - c[i].low {
      assert |c[i].base[..]| == |t[i].base[..]|;
    }
    forall a ensures ByteAt(c, a) == ByteAt(t, a) {
      SameHolder(c, t, a);
      var h := HolderOf(t, a);
      if h.Some? {
        var i := a - t[h.value].low;
        assert c[h.value].base[..][i] == t[h.value].base[..][i];
      }
    }
  }

  /** The loop of `duplicate_virtual_memory`, region by region. */
  method CopyRegions(parent: Space) returns (child: Space, died: bool)
    requires Ready(parent)
    ensures died <==> !Backed(parent.Table())
    ensures fresh(child) && fresh(child.ops) && child.ops.Length == SLOTS && (died || child.nr == parent.nr)
    ensures !died ==> forall j :: 0 <= j < child.nr ==>
      && parent.ops[j].base != null && child.ops[j].base != null && fresh(child.ops[j].base)
      && child.ops[j].base[..] == parent.ops[j].base[..] && SameRange(child.ops[j], parent.ops[j])
    ensures !died ==> forall j, k :: 0 <= j < k < child.nr ==> child.ops[j].base != child.ops[k].base
    ensures !died ==>
      child.heap == if parent.heap.Some? && parent.heap.value < parent.nr then parent.heap else None
  {
    hide IsTable, Sized;
    child := new Space();
    ghost var t := parent.Table();
    for i := 0 to parent.nr
      invariant child.nr == 0 && fresh(child.ops) && child.ops.Length == SLOTS
      invariant child.heap == if parent.heap.Some? && parent.heap.value < i then parent.heap else None
      invariant forall j :: 0 <= j < i ==>
        && t[j].base != null
        && child.ops[j].base != null && fresh(child.ops[j].base) && child.ops[j].base[..] == t[j].base[..]
        && SameRange(child.ops[j], t[j])
      invariant forall j, k :: 0 <= j < k < i ==> child.ops[j].base != child.ops[k].base
    {
      var x := parent.ops[i];
      assert x == t[i];
      if x.base == null { return child, true; }
      var base := CopyBuffer(x.base);
      child.ops[i] := Region(x.low, x.high, base);
      if parent.heap == Some(i) { child.heap := Some(i); }
    }
    child.nr := parent.nr;
    died := false;
  }

  /**
    `duplicate_virtual_memory`: it copies from a null pointer, and dies, exactly if some region has no buffer; otherwise
    the child sees the same bytes through buffers that are all new.
   */
  method Duplicate(parent: Space) returns (child: Space, died: bool)
    requires Ready(parent)
    ensures died <==> !Backed(parent.Table())
    ensures fresh(child) && fresh(child.ops)
    ensures !died ==> Ready(child) && fresh(Buffers(child.Table()))
    ensures !died ==>
      child.heap == if parent.heap.Some? && parent.heap.value < parent.nr then parent.heap else None
    ensures !died ==> |child.Table()| == |parent.Table()| && forall a ::
      ByteAt(child.Table(), a) == ByteAt(parent.Table(), a)
  {
    hide IsTable, HolderOf, Sized, ByteAt;
    child, died := CopyRegions(parent);
    if !died {
      CopyIsTable(child.Table(), parent.Table());
      CopyIsSeen(child.Table(), parent.Table());
    }
  }

  // ---- isolation ----

  /** One store by the parent or by the child. */
  datatype Write = Write(byParent: bool, addr: Word, bytes: seq<Byte>)

  /** What the writes of one side leave at `a`. */
  function After(writes: seq<Write>, byParent: bool, a: int, was: Option<Byte>): Option<Byte> {
    if writes == [] then was else
    var w := writes[|writes| - 1];
    var before := After(writes[..|writes| - 1], byParent, a, was);
    if w.byParent == byParent then Written(w.addr, w.bytes, a, before) else before
  }

  /** A write of one side that covers `a`. */
  predicate Covers(w: Write, byParent: bool, a: int) {
    w.byParent == byParent && w.addr <= a < w.addr + |w.bytes|
  }

  /** No write from index `i` on covers `a`. */
  ghost predicate NoneFrom(writes: seq<Write>, i: nat, byParent: bool, a: int) {
    forall j :: i <= j < |writes| ==> !Covers(writes[j], byParent, a)
  }

  /** A byte that no write of its side covers is as it was. */
  lemma {:induction false} UncoveredStays(writes: seq<Write>, byParent: bool, a: int, was: Option<Byte>)
    requires NoneFrom(writes, 0, byParent, a)
    ensures After(writes, byParent, a, was) == was
    decreases |writes|
  {
    if writes != [] {
      assert !Covers(writes[|writes| - 1], byParent, a);
      UncoveredStays(writes[..|writes| - 1], byParent, a, was);
    }
  }

  /** The last write of its side that covers a byte leaves it. */
  lemma {:induction false} LastWriteStays(writes: seq<Write>, byParent: bool, a: int, was: Option<Byte>, i: nat)
    requires i < |writes| && Covers(writes[i], byParent, a) && NoneFrom(writes, i + 1, byParent, a)
    ensures After(writes, byParent, a, was) == Some(writes[i].bytes[a - writes[i].addr])
    decreases |writes|
  {
    var n := |writes| - 1;
    if i < n {
      assert !Covers(writes[n], byParent, a);
      LastWriteStays(writes[..n], byParent, a, was, i);
    }
  }

  /** Buffers that a store does not touch read as before. */
  twostate lemma Unaffected(t: seq<Region>)
    requires Sized(t)
    requires forall b :: b in Buffers(t) ==> old(allocated(b)) && b[..] == old(b[..])
    ensures forall a :: ByteAt(t, a) == old(ByteAt(t, a))
  {
    forall a ensures ByteAt(t, a) == old(ByteAt(t, a)) {
      var h := HolderOf(t, a);
      if h.Some? && t[h.value].base != null {
        assert t[h.value] in t;
        var b, i := t[h.value].base, a - t[h.value].low;
        assert b[..][i] == old(b[..])[i];
      }
    }
  }

  /** After a fork each side sees its own stores and none of the other's, however they interleave. */
  method Interleave(parent: Space, child: Space, writes: seq<Write>) returns (alive: bool)
    requires parent != child && parent.ops != child.ops && Ready(parent) && Ready(child)
    requires Buffers(parent.Table()) !! Buffers(child.Table())
    modifies Buffers(parent.Table()), Buffers(child.Table())
    ensures Ready(parent) && Ready(child)
    ensures alive ==> forall a :: ByteAt(parent.Table(), a) == After(writes, true, a, old(ByteAt(parent.Table(), a)))
    ensures alive ==> forall a :: ByteAt(child.Table(), a) == After(writes, false, a, old(ByteAt(child.Table(), a)))
  {
    ghost var p, c := parent.Table(), child.Table();
    alive := true;
    for i := 0 to |writes|
      invariant Ready(parent) && Ready(child) && parent.Table() == p && child.Table() == c
      invariant forall a :: ByteAt(p, a) == After(writes[..i], true, a, old(ByteAt(p, a)))
      invariant forall a :: ByteAt(c, a) == After(writes[..i], false, a, old(ByteAt(c, a)))
    {
      hide Sized, HolderOf, IsTable, Whole;
      var w := writes[i];
      assert writes[..i + 1][..i] == writes[..i];
      var r;
      label Before:
      if w.byParent {
        r := Store(parent, w.addr, w.bytes);
        Unaffected@Before(c);
      } else {
        r := Store(child, w.addr, w.bytes);
        Unaffected@Before(p);
      }
      if !r.Hit? { return false; }
    }
    assert writes[..|writes|] == writes;
  }

  /** Fork, then any interleaving of stores: both sides start from the parent's bytes and diverge on their own. */
  method ForkAndRun(parent: Space, writes: seq<Write>) returns (child: Space, forked: bool, alive: bool)
    requires Ready(parent)
    modifies Buffers(parent.Table())
    ensures forked <==> Backed(old(parent.Table()))
    ensures forked ==> fresh(child) && Ready(parent) && Ready(child)
    ensures forked && alive ==>
      && (forall a :: ByteAt(parent.Table(), a) == After(writes, true, a, old(ByteAt(parent.Table(), a))))
      && (forall a :: ByteAt(child.Table(), a) == After(writes, false, a, old(ByteAt(parent.Table(), a))))
  {
    hide Sized, Backed, HolderOf, IsTable, After, ByteAt;
    ghost var p := parent.Table();
    var died;
    child, died := Duplicate(parent);
    forked, alive := !died, false;
    if died { return; }
    assert parent.Table() == p;
    Unaffected(p);
    assert Buffers(p) !! Buffers(child.Table());
    alive := Interleave(parent, child, writes);
  }

  // ---- from the start of a program to its forks ----

  /** A part of the address space that is there from the start: a segment of the program or the stack. */
  datatype Segment = Segment(low: Word, high: Word)

  /** The segments of a program, each with a host buffer of its own. */
  method LoadSegments(segments: seq<Segment>) returns (s: Space, alive: bool)
    ensures fresh(s) && fresh(s.ops) && s.heap == None
    ensures alive ==> Ready(s) && fresh(Buffers(s.Table()))
  {
    hide IsTable, InsertAt, Slot, Sized, Buffers, Free;
    s := new Space();
    alive := true;
    NoRegions();
    for i := 0 to |segments|
      invariant fresh(s) && fresh(s.ops) && s.heap == None && Ready(s) && fresh(Buffers(s.Table()))
    {
      var seg := segments[i];
      var size := if seg.low < seg.high then seg.high - seg.low else 0;
      ghost var t := s.Table();
      var base := new Byte[size](_ => 0);
      var x := Region(seg.low, seg.high, base);
      var r := s.Register(x);
      if r != Done(0) { return s, false; }
      InsertKeepsSized(t, Slot(t, x), x);
      InsertedBuffers(t, Slot(t, x), x);
    }
  }

  /** A program is loaded, gets its heap and makes any mmap, munmap and brk calls: it is then ready to fork. */
  method Populate(segments: seq<Segment>, proposed: Word, requests: seq<Request>) returns (s: Space, alive: bool)
    ensures alive ==> fresh(s) && fresh(s.ops) && Ready(s) && fresh(Buffers(s.Table()))
  {
    hide IsTable, Sized, Buffers, Free;
    s, alive := LoadSegments(segments);
    if !alive { return; }
    var r := s.HeapInit(proposed);
    if !r.Done? { return s, false; }
    ghost var changes;
    label Before:
    ghost var now := Buffers(s.Table());
    alive, changes := s.Serve(requests);
    if alive {
      forall b | b in Buffers(s.Table()) ensures fresh(b) {
        if b !in now { assert b in Buffers(s.Table()) - now && fresh@Before(b); }
      }
    }
  }

  /** The whole story: load, run, fork, and any interleaving of stores by both sides. */
  method LiveAndFork(segments: seq<Segment>, proposed: Word, requests: seq<Request>, writes: seq<Write>)
    returns (parent: Space, child: Space, forked: bool, alive: bool, ghost bytes: imap<int, Option<Byte>>)
    ensures forked ==> Ready(parent) && Ready(child) && forall a: int :: a in bytes
    ensures forked && alive ==> forall a ::
      && ByteAt(parent.Table(), a) == After(writes, true, a, bytes[a])
      && ByteAt(child.Table(), a) == After(writes, false, a, bytes[a])
  {
    parent, alive := Populate(segments, proposed, requests);
    child, forked, bytes := parent, false, imap[];
    if alive {
      bytes := imap a: int :: ByteAt(parent.Table(), a);
      child, forked, alive := ForkAndRun(parent, writes);
    }
  }

  /** A fork before the first accepted brk. */
  method EarlyForkDies() returns (died: bool)
    ensures died
  {
    var s := new Space();
    var r := s.HeapInit(0x1_0000);
    assert HeapEnd(0x1_0000) == 0x2_0000;
    assert s.Table()[s.heap.value].base == null;
    var child;
    child, died := Duplicate(s);
  }

  // ---- sharing ----

  /** The linkage of a task: who cloned it, and what it shares with that task. */
  datatype Linkage = Linkage(parent: Option<nat>, clonedVm: bool, clonedFs: bool, clonedFiles: bool)

  datatype Hint = Native | Vm | Fs | Files

  predicate Shares(l: Linkage, hint: Hint) {
    match hint
    case Native => false
    case Vm => l.clonedVm
    case Fs => l.clonedFs
    case Files => l.clonedFiles
  }

  /** Parents are known and older, and only a task with a parent shares anything. */
  ghost predicate Linked(tasks: map<nat, Linkage>) {
    forall p :: p in tasks ==>
      && (tasks[p].parent.Some? ==> tasks[p].parent.value < p && tasks[p].parent.value in tasks)
      && (tasks[p].clonedVm || tasks[p].clonedFs || tasks[p].clonedFiles ==> tasks[p].parent.Some?)
  }

  /** The task whose resource `p` uses. */
  ghost function Owner(tasks: map<nat, Linkage>, p: nat, hint: Hint): (o: nat)
    requires Linked(tasks) && p in tasks
    ensures o in tasks && !Shares(tasks[o], hint) && o <= p
  {
    if Shares(tasks[p], hint) then Owner(tasks, tasks[p].parent.value, hint) else p
  }

  /** `get_linked_vm`: it always ends, at an owner, and its assertion never fails. */
  method GetLinkedVm(tasks: map<nat, Linkage>, current: nat, hint: Hint) returns (vm: nat, died: bool)
    requires Linked(tasks) && current in tasks
    ensures !died && vm == Owner(tasks, current, hint)
  {
    vm, died := current, false;
    while true
      invariant vm in tasks && !died && Owner(tasks, vm, hint) == Owner(tasks, current, hint)
      decreases vm
    {
      if !Shares(tasks[vm], hint) { break; }
      if tasks[vm].parent.None? { return vm, true; }
      vm := tasks[vm].parent.value;
    }
  }

  /** The linkage a clone makes for its child. */
  function Cloned(tasks: map<nat, Linkage>, current: nat, child: nat, vm: bool, fs: bool, files: bool): map<nat,
    Linkage> {
    tasks[child := Linkage(Some(current), vm, fs, files)]
  }

  lemma {:induction false} OwnerUnmoved(tasks: map<nat, Linkage>, child: nat, l: Linkage, p: nat, hint: Hint)
    requires Linked(tasks) && child !in tasks && p in tasks && Linked(tasks[child := l])
    ensures Owner(tasks[child := l], p, hint) == Owner(tasks, p, hint)
  {
    if Shares(tasks[p], hint) {
      OwnerUnmoved(tasks, child, l, tasks[p].parent.value, hint);
    }
  }

  /** A clone shares exactly what its flags say, and changes no one else's owner. */
  lemma CloneResolves(tasks: map<nat, Linkage>, current: nat, child: nat, vm: bool, fs: bool, files: bool, hint: Hint)
    requires Linked(tasks) && current in tasks && child !in tasks && current < child
    ensures var t := Cloned(tasks, current, child, vm, fs, files);
      && Linked(t)
      && Owner(t, child, hint) == (if Shares(t[child], hint) then Owner(tasks, current, hint) else child)
      && (hint == Native ==> Owner(t, child, hint) == child)
      && (hint == Vm ==> Owner(t, child, hint) == if vm then Owner(tasks, current, hint) else child)
      && (hint == Fs ==> Owner(t, child, hint) == if fs then Owner(tasks, current, hint) else child)
      && (hint == Files ==> Owner(t, child, hint) == if files then Owner(tasks, current, hint) else child)
      && (forall p :: p in tasks ==> Owner(t, p, hint) == Owner(tasks, p, hint))
  {
    var t := Cloned(tasks, current, child, vm, fs, files);
    forall p | p in tasks ensures Owner(t, p, hint) == Owner(tasks, p, hint) {
      OwnerUnmoved(tasks, child, t[child], p, hint);
    }
  }
}
