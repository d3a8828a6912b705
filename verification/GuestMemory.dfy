/**
  The bytes of a guest address space as the guest sees them: an access searches the region table and goes to the host
  buffer of one region. As long as it does not run past the end of that region, it is the access of the reference
  machine to one map from addresses to bytes.
 */
module GuestMemory {
  import opened Words
  import opened Collections
  import opened Tables
  import opened Regions
  import opened AddressSpace
  import Isa

  // ---- bytes as the guest sees them ----

  /** The region that holds `a`, by a linear scan. */
  ghost function HolderOf(t: seq<Region>, a: int): (r: Option<nat>)
    ensures r.Some? ==> r.value < |t| && Holds(t[r.value], a)
    ensures r.None? ==> forall i :: 0 <= i < |t| ==> !Holds(t[i], a)
  {
    if t == [] then None
    else if Holds(t[|t| - 1], a) then Some(|t| - 1)
    else HolderOf(t[..|t| - 1], a)
  }

  lemma HolderIs(t: seq<Region>, a: int, i: nat)
    requires IsTable(t) && i < |t| && Holds(t[i], a)
    ensures HolderOf(t, a) == Some(i)
  {
    HolderIsUnique(t, a, HolderOf(t, a).value, i);
  }

  /** The byte at guest address `a`, if it is mapped and backed. */
  ghost function ByteAt(t: seq<Region>, a: int): Option<Byte>
    requires Sized(t)
    reads Buffers(t)
  {
    var h := HolderOf(t, a);
    if h.None? || t[h.value].base == null then None else
    assert t[h.value] in t;
    Some(t[h.value].base[a - t[h.value].low])
  }

  ghost predicate Ready(s: Space)
    reads s, s.ops
  {
    s.Valid() && Sized(s.Table())
  }

  /** Where an access goes: to a region, to none, past the end of a buffer, or to the end of the process. */
  datatype Access = Hit(slot: nat) | Unmapped | PastEnd | Crash

  predicate IsWidth(n: nat) { n == 1 || n == 2 || n == 4 || n == 8 }

  /** All `n` bytes from `a` on are in one backed region. */
  ghost predicate Whole(t: seq<Region>, a: int, n: nat) {
    var h := HolderOf(t, a);
    h.Some? && t[h.value].base != null && a + n <= t[h.value].high
  }

  /** The access starts in a backed region and runs past its end. */
  ghost predicate Straddles(t: seq<Region>, a: int, n: nat) {
    var h := HolderOf(t, a);
    h.Some? && t[h.value].base != null && a + n > t[h.value].high
  }

  lemma NothingAtLast(t: seq<Region>)
    ensures HolderOf(t, LAST).None?
  {
  }

  /** The region search in front of an access of `n` bytes. */
  method Locate(s: Space, a: Word, n: nat) returns (r: Access)
    requires Ready(s)
    ensures r.Hit? <==> IsWidth(n) && Whole(s.Table(), a, n)
    ensures r.Hit? ==> HolderOf(s.Table(), a) == Some(r.slot)
    ensures r.Unmapped? <==> IsWidth(n) && HolderOf(s.Table(), a).None? && (a != LAST || s.nr == 0)
    ensures r.PastEnd? <==> IsWidth(n) && Straddles(s.Table(), a, n)
  {
    hide IsWidth, IsTable;
    if !IsWidth(n) { return Crash; }
    var found := s.Find(a);
    if found.Died? { NothingAtLast(s.Table()); return Crash; }
    if found.Missing? { return Unmapped; }
    HolderIs(s.Table(), a, found.index);
    var x := s.ops[found.index];
    if x.base == null { return Crash; }
    r := if a - x.low + n > x.base.Length then PastEnd else Hit(found.index);
  }

  /** `vma_generic_read` behind the region search: the bytes that the guest sees from `a` on. */
  method Load(s: Space, a: Word, n: nat) returns (r: Access, bytes: seq<Byte>)
    requires Ready(s)
    ensures r.Hit? <==> IsWidth(n) && Whole(s.Table(), a, n)
    ensures r.Hit? ==> |bytes| == n && forall i :: 0 <= i < n ==> ByteAt(s.Table(), a + i) == Some(bytes[i])
    ensures r.Unmapped? <==> IsWidth(n) && HolderOf(s.Table(), a).None? && (a != LAST || s.nr == 0)
    ensures r.PastEnd? <==> IsWidth(n) && Straddles(s.Table(), a, n)
  {
    r := Locate(s, a, n);
    bytes := [];
    if r.Hit? {
      ghost var t := s.Table();
      var x := s.ops[r.slot];
      bytes := x.base[a - x.low..a - x.low + n];
      forall i | 0 <= i < n ensures ByteAt(t, a + i) == Some(bytes[i]) {
        HolderIs(t, a + i, r.slot);
      }
    }
  }

  lemma SameTable(t: seq<Region>, i: nat, j: nat)
    requires Sized(t) && i < |t| && j < |t| && t[i].base == t[j].base && t[i].base != null
    ensures i == j
  {
  }

  /** What is at `b` once `bytes` have been written at `a`. */
  function Written(a: int, bytes: seq<Byte>, b: int, was: Option<Byte>): Option<Byte> {
    if a <= b < a + |bytes| then Some(bytes[b - a]) else was
  }

  /** `s` with `bytes` at `off`. */
  function Spliced(s: seq<Byte>, off: nat, bytes: seq<Byte>): (r: seq<Byte>)
    requires off + |bytes| <= |s|
    ensures |r| == |s|
  {
    s[..off] + bytes + s[off + |bytes|..]
  }

  method Overwrite(base: array<Byte>, off: nat, bytes: seq<Byte>)
    requires off + |bytes| <= base.Length
    modifies base
    ensures base[..] == Spliced(old(base[..]), off, bytes)
  {
    for i := 0 to |bytes|
      invariant base[..off] == old(base[..off]) && base[off..off + i] == bytes[..i] &&
        base[off + i..] == old(base[off + i..])
    {
      base[off + i] := bytes[i];
    }
    assert base[..] == base[..off] + base[off..off + |bytes|] + base[off + |bytes|..];
  }

  /** `vma_generic_write` behind the region search: it changes what is read from `a` on and nowhere else. */
  method Store(s: Space, a: Word, bytes: seq<Byte>) returns (r: Access)
    requires Ready(s)
    modifies Buffers(s.Table())
    ensures Ready(s) && s.Table() == old(s.Table())
    ensures r.Hit? <==> IsWidth(|bytes|) && Whole(s.Table(), a, |bytes|)
    ensures r.Hit? ==> forall b :: ByteAt(s.Table(), b) == Written(a, bytes, b, old(ByteAt(s.Table(), b)))
    ensures r.Hit? ==> forall i :: 0 <= i < |bytes| ==> ByteAt(s.Table(), a + i) == Some(bytes[i])
    ensures r.Hit? ==> forall b :: b < a || a + |bytes| <= b ==> ByteAt(s.Table(), b) == old(ByteAt(s.Table(), b))
    ensures !r.Hit? ==> forall b :: ByteAt(s.Table(), b) == old(ByteAt(s.Table(), b))
    ensures r.PastEnd? <==> IsWidth(|bytes|) && Straddles(s.Table(), a, |bytes|)
  {
    hide IsWidth, IsTable, HolderOf;
    r := Locate(s, a, |bytes|);
    if r.Hit? {
      ghost var t := s.Table();
      var x := s.ops[r.slot];
      assert t[r.slot] == x && x in t && x.base in Buffers(t);
      Overwrite(x.base, a - x.low, bytes);
      assert s.Table() == t;
      forall b ensures ByteAt(t, b) == Written(a, bytes, b, old(ByteAt(t, b))) {
        if a <= b < a + |bytes| { HolderIs(t, b, r.slot); }
        var g := HolderOf(t, b);
        if g.Some? && t[g.value].base != null {
          var i := b - t[g.value].low;
          assert t[g.value] in t && t[g.value].base[i] == t[g.value].base[..][i] &&
            old(t[g.value].base[i]) == old(t[g.value].base[..])[i];
          if t[g.value].base == x.base { SameTable(t, g.value, r.slot); }
        }
      }
    }
  }

  // ---- the memory of the reference machine ----

  /** The backed bytes of an address space as one map. */
  ghost function Image(t: seq<Region>): Isa.Mem
    requires Sized(t)
    reads Buffers(t)
  {
    map a: Word | 0 <= a < TWO32 && ByteAt(t, a).Some? :: ByteAt(t, a).value
  }

  lemma ImageAt(t: seq<Region>, a: int)
    requires Sized(t)
    ensures Isa.ByteAt(Image(t), a) == ByteAt(t, a)
  {
  }

  /** The bytes of a value, the lowest first. */
  function BytesOf(size: Isa.Size, v: Word): (b: seq<Byte>)
    ensures |b| == Isa.Width(size)
  {
    var b0: Byte, b1: Byte, b2: Byte, b3: Byte := v % 0x100, v / 0x100 % 0x100, v / 0x1_0000 % 0x100, v / 0x100_0000;
    match size
    case Byte8 => [b0]
    case Half16 => [b0, b1]
    case Word32 => [b0, b1, b2, b3]
  }

  function ValueOf(size: Isa.Size, b: seq<Byte>): (v: Word)
    requires |b| == Isa.Width(size)
  {
    match size
    case Byte8 => b[0]
    case Half16 => b[0] as int + 0x100 * b[1] as int
    case Word32 => b[0] as int + 0x100 * b[1] as int + 0x1_0000 * b[2] as int + 0x100_0000 * b[3] as int
  }

  /** An access that finds every byte goes to one region, unless it straddles two. */
  lemma ReadIsWhole(t: seq<Region>, a: Word, size: Isa.Size)
    requires IsTable(t) && Sized(t)
    ensures Whole(t, a, Isa.Width(size)) <==>
      Isa.Read(Image(t), a, size).Some? && !Straddles(t, a, Isa.Width(size))
  {
    ImageAt(t, a);
    ImageAt(t, a + 1);
    ImageAt(t, a + 2);
    ImageAt(t, a + 3);
    var h := HolderOf(t, a);
    if Whole(t, a, Isa.Width(size)) {
      forall b | a <= b < a + Isa.Width(size) ensures ByteAt(t, b).Some? {
        HolderIs(t, b, h.value);
      }
    }
    hide Image, HolderOf;
  }

  /** A load is the read of the reference machine, exactly unless it straddles two regions. */
  method LoadValue(s: Space, a: Word, size: Isa.Size) returns (r: Access, v: Word)
    requires Ready(s)
    ensures r.Hit? <==> Isa.Read(Image(s.Table()), a, size).Some? && !Straddles(s.Table(), a, Isa.Width(size))
    ensures r.Hit? ==> Isa.Read(Image(s.Table()), a, size) == Some(v)
  {
    hide Image, IsTable, HolderOf, Whole, Straddles, Sized;
    var bytes;
    r, bytes := Load(s, a, Isa.Width(size));
    v := 0;
    ReadIsWhole(s.Table(), a, size);
    if r.Hit? {
      v := ValueOf(size, bytes);
      forall i | 0 <= i < Isa.Width(size) ensures Isa.ByteAt(Image(s.Table()), a + i) == Some(bytes[i]) {
        ImageAt(s.Table(), a + i);
      }
    }
  }

  /** Two adjacent regions: a word across their seam is there for the reference machine. */
  lemma AcrossSeam(low: Region, high: Region)
    requires low.low == 0x1000 && low.high == high.low == 0x2000 && high.high == 0x3000 && low.base != null &&
      high.base != null
    requires IsTable([low, high]) && Sized([low, high])
    ensures Isa.Read(Image([low, high]), 0x1ffe, Isa.Word32).Some? && Straddles([low, high], 0x1ffe, 4)
  {
    var t := [low, high];
    HolderIs(t, 0x1ffe, 0);
    HolderIs(t, 0x1fff, 0);
    HolderIs(t, 0x2000, 1);
    HolderIs(t, 0x2001, 1);
    hide HolderOf, IsTable;
    forall b | 0x1ffe <= b < 0x2002 ensures Isa.ByteAt(Image(t), b).Some? {
      ImageAt(t, b);
    }
    hide Image;
  }

  method TwoRegions() returns (s: Space, low: Region, high: Region)
    ensures s.Valid() && s.Table() == [low, high] && Sized([low, high])
    ensures low.low == 0x1000 && low.high == high.low == 0x2000 && high.high == 0x3000 && low.base != null &&
      high.base != null
  {
    hide Slot, InsertAt, Free, IsTable;
    s := new Space();
    var lower := new Byte[0x1000];
    var upper := new Byte[0x1000];
    low, high := Region(0x1000, 0x2000, lower), Region(0x2000, 0x3000, upper);
    GoesLast([], low);
    var first := s.Register(low);
    GoesLast(s.Table(), high);
    var second := s.Register(high);
    assert [] + [low] + [high] == [low, high];
  }

  /** But the emulator reads on in the buffer of the lower one. */
  method SeamIsMissed() returns (s: Space, r: Access)
    ensures Ready(s) && r.PastEnd? && Isa.Read(Image(s.Table()), 0x1ffe, Isa.Word32).Some?
  {
    hide Straddles, Image, HolderOf, Isa.Read, Sized, Whole, IsTable;
    var low, high;
    s, low, high := TwoRegions();
    r := Locate(s, 0x1ffe, 4);
    AcrossSeam(low, high);
  }

  /** Equal bytes everywhere make equal maps. */
  lemma SameBytes(m: Isa.Mem, n: Isa.Mem)
    requires forall b :: Isa.ByteAt(m, b) == Isa.ByteAt(n, b)
    ensures m == n
  {
    forall b | b in m ensures b in n && n[b] == m[b] { assert Isa.ByteAt(m, b) == Isa.ByteAt(n, b); }
    forall b | b in n ensures b in m { assert Isa.ByteAt(m, b) == Isa.ByteAt(n, b); }
  }

  /** The write of the reference machine, byte by byte. */
  lemma WriteAt(m: Isa.Mem, a: Word, size: Isa.Size, v: Word, b: int)
    requires Isa.Read(m, a, size).Some?
    ensures Isa.ByteAt(Isa.Write(m, a, size, v).value, b) == Written(a, BytesOf(size, v), b, Isa.ByteAt(m, b))
  {
  }

  lemma WriteIs(m: Isa.Mem, a: Word, size: Isa.Size, v: Word, n: Isa.Mem)
    requires Isa.Read(m, a, size).Some?
    requires forall b :: Isa.ByteAt(n, b) == Written(a, BytesOf(size, v), b, Isa.ByteAt(m, b))
    ensures Isa.Write(m, a, size, v) == Some(n)
  {
    hide Isa.ByteAt, Written, BytesOf, Isa.Read, Isa.PutBytes;
    var w := Isa.Write(m, a, size, v).value;
    forall b ensures Isa.ByteAt(n, b) == Isa.ByteAt(w, b) {
      WriteAt(m, a, size, v, b);
    }
    SameBytes(n, w);
  }

  /** A store is the write of the reference machine, exactly unless it straddles two regions. */
  method StoreValue(s: Space, a: Word, size: Isa.Size, v: Word) returns (r: Access)
    requires Ready(s)
    modifies Buffers(s.Table())
    ensures Ready(s) && s.Table() == old(s.Table())
    ensures r.Hit? <==>
      Isa.Write(old(Image(s.Table())), a, size, v).Some? && !Straddles(s.Table(), a, Isa.Width(size))
    ensures r.Hit? ==> Isa.Write(old(Image(s.Table())), a, size, v) == Some(Image(s.Table()))
    ensures !r.Hit? ==> Image(s.Table()) == old(Image(s.Table()))
  {
    hide IsTable, HolderOf, Whole, Straddles, Sized, Image, ByteAt, Isa.ByteAt, Isa.Read, BytesOf, Written, Buffers;
    ghost var t, before := s.Table(), Image(s.Table());
    ReadIsWhole(t, a, size);
    forall b ensures Isa.ByteAt(before, b) == ByteAt(t, b) { ImageAt(t, b); }
    r := Store(s, a, BytesOf(size, v));
    forall b ensures Isa.ByteAt(Image(t), b) == ByteAt(t, b) { ImageAt(t, b); }
    if r.Hit? {
      WriteIs(before, a, size, v, Image(t));
    } else {
      SameBytes(before, Image(t));
    }
  }
}
