/**
  The initial stack of a program: argument and environment strings, the auxiliary vector, the two pointer vectors and
  the argument count, pushed downwards byte by byte; and what a program reads back from the stack pointer upwards.
 */
module InitialStack {
  import opened Words
  import opened Collections
  import Isa

  const MAX_STRINGS: nat := 128

  type Bytes = seq<Byte>

  // ---- what a program reads ----

  /** A little-endian word. */
  function WordAt(m: Bytes, i: nat): Word
    requires i + 4 <= |m|
  {
    m[i] as int + 0x100 * m[i + 1] as int + 0x1_0000 * m[i + 2] as int + 0x100_0000 * m[i + 3] as int
  }

  /** It is what the guest reads, once the bytes are at `low` in its memory. */
  lemma WordAtIsRead(m: Bytes, i: nat, mem: Isa.Mem, low: Word)
    requires i + 4 <= |m| && low + |m| < TWO32
    requires forall j :: i <= j < i + 4 ==> low + j in mem && mem[low + j] == m[j]
    ensures Isa.Read(mem, low + i, Isa.Word32) == Some(WordAt(m, i))
  {
    assert forall j :: i <= j < i + 4 ==> Isa.ByteAt(mem, low + j) == Some(m[j]);
  }

  /** The bytes from `i` up to the first zero. */
  function StringAt(m: Bytes, i: nat): Bytes
    decreases |m| - i
  {
    if i >= |m| || m[i] == 0 then [] else [m[i]] + StringAt(m, i + 1)
  }

  /** The words from `i` up to the first zero. */
  function VectorAt(m: Bytes, i: nat): seq<Word>
    decreases |m| - i
  {
    if i + 4 > |m| || WordAt(m, i) == 0 then [] else [WordAt(m, i)] + VectorAt(m, i + 4)
  }

  /** The bytes of `s`, and a zero after them. */
  ghost predicate Holds(m: Bytes, i: int, s: Bytes) {
    0 <= i && i + |s| < |m| && m[i..i + |s|] == s && m[i + |s|] == 0
  }

  /** `p` points into the memory `m` that starts at `low`, at the zero-terminated string `s`. */
  ghost predicate Points(m: Bytes, low: Word, p: Word, s: Bytes) {
    low <= p < low + |m| && StringAt(m, p - low) == s && Holds(m, p - low, s)
  }

  /** A vector of pointers to `list`. */
  ghost predicate PointsAll(m: Bytes, low: Word, v: seq<Word>, list: seq<Bytes>) {
    |v| == |list| && forall i :: 0 <= i < |list| ==> Points(m, low, v[i], list[i])
  }

  // ---- what is pushed ----

  function WordBytes(w: Word): (b: Bytes)
    ensures |b| == 4
  {
    var x := w / 0x100;
    var y := x / 0x100;
    [w % 0x100, x % 0x100, y % 0x100, y / 0x100]
  }

  lemma WordRoundTrip(w: Word, m: Bytes, i: nat)
    requires i + 4 <= |m| && m[i..i + 4] == WordBytes(w)
    ensures WordAt(m, i) == w
  {
    var b := m[i..i + 4];
    assert b[0] == m[i] && b[1] == m[i + 1] && b[2] == m[i + 2] && b[3] == m[i + 3];
  }

  function Encode(ws: seq<Word>): Bytes {
    if ws == [] then [] else WordBytes(ws[0]) + Encode(ws[1..])
  }

  lemma {:induction false} EncodeLength(ws: seq<Word>)
    ensures |Encode(ws)| == 4 * |ws|
  {
    if ws != [] { EncodeLength(ws[1..]); }
  }

  /** Strings pushed one after the other onto `below`. */
  function Pile(list: seq<Bytes>, below: Bytes): Bytes {
    if list == [] then below else (list[|list| - 1] + [0]) + Pile(list[..|list| - 1], below)
  }

  function PileSize(list: seq<Bytes>): nat {
    if list == [] then 0 else |list[|list| - 1]| + 1 + PileSize(list[..|list| - 1])
  }

  /** The addresses of the strings, when the memory ends at `end`. */
  ghost predicate Located(v: seq<Word>, list: seq<Bytes>, below: Bytes, end: int) {
    |v| == |list| && forall i :: 0 <= i < |list| ==> v[i] == end - |Pile(list[..i + 1], below)|
  }

  // ---- reading back ----

  lemma {:induction false} StringBack(m: Bytes, i: nat, s: Bytes)
    requires i + |s| < |m| && m[i..i + |s|] == s && m[i + |s|] == 0 && 0 !in s
    ensures StringAt(m, i) == s
    decreases |s|
  {
    if s != [] {
      assert m[i] == s[0] && m[i + 1..i + |s|] == s[1..];
      StringBack(m, i + 1, s[1..]);
    }
  }

  lemma {:induction false} EncodeBack(m: Bytes, i: nat, ws: seq<Word>, k: nat)
    requires k < |ws| && i + 4 * |ws| <= |m| && m[i..i + 4 * |ws|] == Encode(ws)
    ensures WordAt(m, i + 4 * k) == ws[k]
    decreases |ws|
  {
    EncodeLength(ws);
    EncodeLength(ws[1..]);
    if k == 0 {
      assert m[i..i + 4] == m[i..i + 4 * |ws|][..4];
      WordRoundTrip(ws[0], m, i);
    } else {
      assert m[i + 4..i + 4 * |ws|] == m[i..i + 4 * |ws|][4..];
      EncodeBack(m, i + 4, ws[1..], k - 1);
    }
  }

  lemma {:induction false} VectorBack(m: Bytes, i: nat, v: seq<Word>)
    requires i + 4 * |v| + 4 <= |m| && (forall k :: 0 <= k < |v| ==> WordAt(m, i + 4 * k) == v[k] && v[k] != 0)
    requires WordAt(m, i + 4 * |v|) == 0
    ensures VectorAt(m, i) == v
    decreases |v|
  {
    if v != [] {
      assert WordAt(m, i + 4 * 0) == v[0];
      forall k | 0 <= k < |v[1..]| ensures WordAt(m, i + 4 + 4 * k) == v[1..][k] && v[1..][k] != 0 {
        assert WordAt(m, i + 4 * (k + 1)) == v[k + 1];
      }
      VectorBack(m, i + 4, v[1..]);
    }
  }

  /** `b` is the upper end of `m`. */
  ghost predicate EndsWith(m: Bytes, b: Bytes) {
    |b| <= |m| && m[|m| - |b|..] == b
  }

  lemma {:induction false} PileEnds(m: Bytes, list: seq<Bytes>, below: Bytes, i: nat)
    requires EndsWith(m, Pile(list, below)) && i <= |list|
    ensures EndsWith(m, Pile(list[..i], below))
    decreases |list|
  {
    if i == |list| {
      assert list[..i] == list;
    } else {
      var front := list[..|list| - 1];
      assert m[|m| - |Pile(front, below)|..] == m[|m| - |Pile(list, below)|..][|list[|list| - 1]| + 1..];
      PileEnds(m, front, below, i);
      assert front[..i] == list[..i];
    }
  }

  lemma TopOfPile(m: Bytes, s: Bytes, rest: Bytes)
    requires EndsWith(m, (s + [0]) + rest) && 0 !in s
    ensures StringAt(m, |m| - |(s + [0]) + rest|) == s && Holds(m, |m| - |(s + [0]) + rest|, s)
  {
    var b := (s + [0]) + rest;
    var i := |m| - |b|;
    assert forall k :: 0 <= k < |b| ==> m[i + k] == m[i..][k];
    assert m[i..i + |s|] == s;
    StringBack(m, i, s);
  }

  /** Every string of a pile can be read back at its address. */
  lemma PileBack(m: Bytes, low: Word, list: seq<Bytes>, below: Bytes, v: seq<Word>)
    requires EndsWith(m, Pile(list, below)) && Located(v, list, below, low + |m|) && forall s :: s in list ==> 0 !in s
    ensures PointsAll(m, low, v, list)
  {
    forall i | 0 <= i < |list| ensures Points(m, low, v[i], list[i]) {
      PileEnds(m, list, below, i + 1);
      var upto := list[..i + 1];
      assert upto[..|upto| - 1] == list[..i] && upto[|upto| - 1] == list[i];
      TopOfPile(m, list[i], Pile(list[..i], below));
    }
  }

  // ---- pushing ----

  /** PUSH_BLOB: the bytes go just below offset `off` and nothing else changes. */
  method PushBlob(mem: array<Byte>, off: nat, blob: Bytes) returns (at: nat)
    requires |blob| <= off <= mem.Length
    modifies mem
    ensures at == off - |blob| && mem[at..] == blob + old(mem[off..]) && mem[..at] == old(mem[..at])
  {
    at := off - |blob|;
    for i := 0 to |blob|
      invariant mem[at..at + i] == blob[..i] && mem[off..] == old(mem[off..]) && mem[..at] == old(mem[..at])
    {
      mem[at + i] := blob[i];
    }
    assert mem[at..] == mem[at..off] + mem[off..];
  }

  lemma PileNone(list: seq<Bytes>, below: Bytes)
    ensures list[..0] == [] && Pile([], below) == below && PileSize([]) == 0
  {
  }

  lemma PileMore(list: seq<Bytes>, below: Bytes, i: nat)
    requires i < |list|
    ensures Pile(list[..i + 1], below) == (list[i] + [0]) + Pile(list[..i], below)
    ensures PileSize(list[..i + 1]) == |list[i]| + 1 + PileSize(list[..i])
  {
    assert list[..i + 1][..i] == list[..i];
  }

  lemma {:induction false} PileSizeUpTo(list: seq<Bytes>, i: nat)
    requires i <= |list|
    ensures PileSize(list[..i]) <= PileSize(list)
  {
    if i < |list| {
      PileSizeUpTo(list[..|list| - 1], i);
      assert list[..|list| - 1][..i] == list[..i];
    } else {
      assert list[..i] == list;
    }
  }

  lemma LocateOne(v: seq<Word>, list: seq<Bytes>, below: Bytes, end: int, i: nat, p: Word)
    requires i < |list| && Located(v, list[..i], below, end) && p == end - |Pile(list[..i + 1], below)|
    ensures Located(v + [p], list[..i + 1], below, end)
  {
    forall k | 0 <= k < i + 1 ensures (v + [p])[k] == end - |Pile(list[..i + 1][..k + 1], below)| {
      assert list[..i + 1][..k + 1] == list[..k + 1];
      if k < i {
        assert list[..i][..k + 1] == list[..k + 1];
      }
    }
  }

  /** Pushes at most 128 strings and notes the address of each. */
  method PushStrings(mem: array<Byte>, low: Word, off: nat, list: seq<Bytes>) returns (at: nat, v: seq<Word>)
    requires low + mem.Length < TWO32 && |list| <= MAX_STRINGS && PileSize(list) <= off <= mem.Length
    modifies mem
    ensures at == off - PileSize(list) && mem[at..] == Pile(list, old(mem[off..])) && mem[..at] == old(mem[..at])
    ensures Located(v, list, old(mem[off..]), low + mem.Length) && forall p :: p in v ==> p >= low + at
  {
    hide Pile;
    ghost var below, before := mem[off..], mem[..];
    at, v := off, [];
    PileNone(list, below);
    for i := 0 to |list|
      invariant at <= off && mem[at..] == Pile(list[..i], below) && mem[..at] == before[..at]
      invariant at + PileSize(list[..i]) == off && Located(v, list[..i], below, low + mem.Length)
      invariant forall p :: p in v ==> p >= low + at
    {
      PileMore(list, below, i);
      PileSizeUpTo(list, i + 1);
      at := PushBlob(mem, at, list[i] + [0]);
      LocateOne(v, list, below, low + mem.Length, i, low + at);
      v := v + [low + at];
    }
    assert list[..|list|] == list;
  }

  lemma EncodeNone(ws: seq<Word>)
    ensures Encode(ws[|ws|..]) == []
  {
  }

  lemma EncodeCons(ws: seq<Word>, i: nat)
    requires i < |ws|
    ensures Encode(ws[i..]) == WordBytes(ws[i]) + Encode(ws[i + 1..])
  {
    assert ws[i..][1..] == ws[i + 1..];
  }

  /** A vector of words, pushed from its last element to its first. */
  method PushWords(mem: array<Byte>, off: nat, ws: seq<Word>) returns (at: nat)
    requires 4 * |ws| <= off <= mem.Length
    modifies mem
    ensures at == off - 4 * |ws| && mem[at..] == Encode(ws) + old(mem[off..]) && mem[..at] == old(mem[..at])
  {
    hide Encode, WordBytes;
    ghost var below, before := mem[off..], mem[..];
    at := off;
    var i := |ws|;
    EncodeNone(ws);
    while i > 0
      invariant 0 <= i <= |ws| && at == off - 4 * (|ws| - i)
      invariant mem[at..] == Encode(ws[i..]) + below && mem[..at] == before[..at]
    {
      i := i - 1;
      EncodeCons(ws, i);
      at := PushBlob(mem, at, WordBytes(ws[i]));
    }
    assert ws[0..] == ws;
  }

  function FirstOf(list: seq<Bytes>): seq<Bytes> {
    if |list| <= MAX_STRINGS then list else list[..MAX_STRINGS]
  }

  lemma FirstMeans(list: seq<Bytes>)
    ensures |FirstOf(list)| == if |list| < 128 then |list| else 128
    ensures forall i :: 0 <= i < |FirstOf(list)| ==> FirstOf(list)[i] == list[i]
  {
  }

  /** The words from the stack pointer up to the end of the auxiliary vector. */
  function Header(args: seq<Word>, envs: seq<Word>, top: Word, pc: Word): seq<Word>
    requires |args| <= MAX_STRINGS
  {
    var argc: Word := |args|;
    [argc] + (args + ([0] + (envs + ([0] + [25, top, 9, pc, 0, 0]))))
  }

  lemma {:induction false} EncodeConcat(a: seq<Word>, b: seq<Word>)
    ensures Encode(a + b) == Encode(a) + Encode(b)
  {
    if a == [] {
      assert a + b == b;
    } else {
      assert (a + b)[1..] == a[1..] + b;
      EncodeConcat(a[1..], b);
    }
  }

  /** One more part in front. */
  lemma EncodeInFront(a: seq<Word>, b: seq<Word>, below: Bytes)
    ensures Encode(a) + (Encode(b) + below) == Encode(a + b) + below
  {
    EncodeConcat(a, b);
    hide Encode;
  }

  /** The auxiliary vector: random bytes at `top`, entry point `pc`, end. */
  ghost predicate AuxAt(m: Bytes, i: nat, top: Word, pc: Word) {
    && i + 24 <= |m|
    && WordAt(m, i) == 25 && WordAt(m, i + 4) == top && WordAt(m, i + 8) == 9 && WordAt(m, i + 12) == pc
    && WordAt(m, i + 16) == 0 && WordAt(m, i + 20) == 0
  }

  /** The memory at `i` holds the words `h`. */
  ghost predicate WordsAre(m: Bytes, i: nat, h: seq<Word>) {
    i + 4 * |h| <= |m| && forall k :: 0 <= k < |h| ==> WordAt(m, i + 4 * k) == h[k]
  }

  lemma WordsBack(m: Bytes, i: nat, h: seq<Word>)
    requires i + 4 * |h| <= |m| && m[i..i + 4 * |h|] == Encode(h)
    ensures WordsAre(m, i, h)
  {
    forall k | 0 <= k < |h| ensures WordAt(m, i + 4 * k) == h[k] {
      EncodeBack(m, i, h, k);
    }
  }

  lemma HeaderParts(args: seq<Word>, envs: seq<Word>, top: Word, pc: Word)
    requires |args| <= MAX_STRINGS
    ensures var h, n := Header(args, envs, top, pc), 3 + |args| + |envs|;
      && |h| == n + 6 && h[0] == |args|
      && h[1..1 + |args|] == args && h[1 + |args|] == 0
      && h[2 + |args|..2 + |args| + |envs|] == envs && h[2 + |args| + |envs|] == 0
      && h[n..] == [25, top, 9, pc, 0, 0]
  {
  }

  lemma WordIn(m: Bytes, i: nat, h: seq<Word>, k: nat)
    requires WordsAre(m, i, h) && k < |h|
    ensures i + 4 * k + 4 <= |m| && WordAt(m, i + 4 * k) == h[k]
  {
  }

  lemma VectorInWords(m: Bytes, i: nat, h: seq<Word>, from: nat, v: seq<Word>)
    requires WordsAre(m, i, h) && from + |v| < |h| && h[from..from + |v|] == v && h[from + |v|] == 0 && 0 !in v
    ensures VectorAt(m, i + 4 * from) == v
  {
    forall k | 0 <= k < |v| ensures WordAt(m, i + 4 * from + 4 * k) == v[k] && v[k] != 0 {
      assert WordAt(m, i + 4 * (from + k)) == h[from + k] && h[from..from + |v|][k] == h[from + k];
    }
    assert WordAt(m, i + 4 * (from + |v|)) == 0;
    VectorBack(m, i + 4 * from, v);
  }

  lemma AuxInWords(m: Bytes, i: nat, h: seq<Word>, n: nat, top: Word, pc: Word)
    requires WordsAre(m, i, h) && n + 6 == |h| && h[n..] == [25, top, 9, pc, 0, 0]
    ensures AuxAt(m, i + 4 * n, top, pc)
  {
    var x := h[n..];
    assert x[0] == h[n] && x[1] == h[n + 1] && x[2] == h[n + 2] && x[3] == h[n + 3] && x[4] == h[n + 4] &&
      x[5] == h[n + 5];
    WordIn(m, i, h, n);
    WordIn(m, i, h, n + 1);
    WordIn(m, i, h, n + 2);
    WordIn(m, i, h, n + 3);
    WordIn(m, i, h, n + 4);
    WordIn(m, i, h, n + 5);
    hide WordAt, WordsAre;
  }

  lemma HeaderReads(m: Bytes, i: nat, h: seq<Word>, args: seq<Word>, envs: seq<Word>, top: Word, pc: Word)
    requires WordsAre(m, i, h) && |h| == |args| + |envs| + 9 && h[0] == |args| && 0 !in args && 0 !in envs
    requires h[1..1 + |args|] == args && h[1 + |args|] == 0
    requires h[2 + |args|..2 + |args| + |envs|] == envs && h[2 + |args| + |envs|] == 0
    requires h[3 + |args| + |envs|..] == [25, top, 9, pc, 0, 0]
    ensures i + 4 <= |m| && WordAt(m, i) == |args| && VectorAt(m, i + 4) == args &&
      VectorAt(m, i + 8 + 4 * |args|) == envs
    ensures AuxAt(m, i + 12 + 4 * |args| + 4 * |envs|, top, pc)
  {
    hide WordsAre, WordAt, VectorAt, AuxAt;
    WordIn(m, i, h, 0);
    VectorInWords(m, i, h, 1, args);
    VectorInWords(m, i, h, 2 + |args|, envs);
    AuxInWords(m, i, h, 3 + |args| + |envs|, top, pc);
  }

  /** A header in memory reads back as the count, the two vectors and the auxiliary vector. */
  lemma HeaderBack(m: Bytes, i: nat, args: seq<Word>, envs: seq<Word>, top: Word, pc: Word)
    requires |args| <= MAX_STRINGS && 0 !in args && 0 !in envs
    requires var h := Header(args, envs, top, pc); i + 4 * |h| <= |m| && m[i..i + 4 * |h|] == Encode(h)
    ensures WordAt(m, i) == |args| && VectorAt(m, i + 4) == args && VectorAt(m, i + 8 + 4 * |args|) == envs
    ensures AuxAt(m, i + 12 + 4 * |args| + 4 * |envs|, top, pc)
  {
    var h := Header(args, envs, top, pc);
    hide Encode, Header, WordsAre, WordAt, VectorAt, AuxAt;
    WordsBack(m, i, h);
    HeaderParts(args, envs, top, pc);
    HeaderReads(m, i, h, args, envs, top, pc);
  }

  /** The bytes the image can take. */
  function Needed(argv: seq<Bytes>, envp: seq<Bytes>): nat {
    PileSize(argv) + PileSize(envp) + 15 + 4 * (|argv| + |envp| + 9)
  }

  /** LOCAL_ALIGN(16): the address goes down to a multiple of 16, nothing is written. */
  function AlignedDown(low: Word, off: nat): (at: int)
    ensures (low + at) % 16 == 0 && off - 15 <= at <= off
  {
    off - (low + off) % 16
  }

  /** More words below the words `ws` that are there. */
  method PushMore(mem: array<Byte>, off: nat, more: seq<Word>, ghost ws: seq<Word>, ghost below: Bytes,
                  ghost before: Bytes)
    returns (at: nat, ghost all: seq<Word>)
    requires 4 * |more| <= off <= mem.Length == |before| && mem[off..] == Encode(ws) + below &&
      mem[..off] == before[..off]
    modifies mem
    ensures at == off - 4 * |more| && all == more + ws && mem[at..] == Encode(all) + below && mem[..at] == before[..at]
  {
    hide Encode;
    at := PushWords(mem, off, more);
    all := more + ws;
    EncodeInFront(more, ws, below);
    assert mem[..at] == old(mem[..off])[..at];
  }

  /** The part of `env_setup` below the strings. */
  method PushHeader(mem: array<Byte>, off: nat, args: seq<Word>, envs: seq<Word>, top: Word, pc: Word) returns (at: nat)
    requires |args| <= MAX_STRINGS && 4 * (|args| + |envs| + 9) <= off <= mem.Length
    modifies mem
    ensures at == off - 4 * (|args| + |envs| + 9) && mem[..at] == old(mem[..at])
    ensures mem[at..] == Encode(Header(args, envs, top, pc)) + old(mem[off..])
  {
    hide Encode;
    ghost var below, before := mem[off..], mem[..];
    ghost var ws: seq<Word> := [25, top, 9, pc, 0, 0];
    at := PushWords(mem, off, [25, top, 9, pc, 0, 0]);
    at, ws := PushMore(mem, at, [0], ws, below, before);
    at, ws := PushMore(mem, at, envs, ws, below, before);
    at, ws := PushMore(mem, at, [0], ws, below, before);
    at, ws := PushMore(mem, at, args, ws, below, before);
    at, ws := PushMore(mem, at, [|args|], ws, below, before);
  }

  /** What a program finds at offset `i`: the count, the arguments, the environment, the auxiliary vector. */
  ghost predicate Image(m: Bytes, low: Word, i: nat, a: seq<Bytes>, e: seq<Bytes>, top: Word, pc: Word) {
    && i + 12 + 4 * |a| + 4 * |e| <= |m| && WordAt(m, i) == |a|
    && PointsAll(m, low, VectorAt(m, i + 4), a)
    && PointsAll(m, low, VectorAt(m, i + 8 + 4 * |a|), e)
    && AuxAt(m, i + 12 + 4 * |a| + 4 * |e|, top, pc)
  }

  /** The strings: the environment first, the arguments below it. */
  method PushAllStrings(mem: array<Byte>, low: Word, off: nat, a: seq<Bytes>, e: seq<Bytes>)
    returns (at: nat, args: seq<Word>, envs: seq<Word>)
    requires low + mem.Length < TWO32 && |a| <= MAX_STRINGS && |e| <= MAX_STRINGS &&
      PileSize(a) + PileSize(e) <= off <= mem.Length
    modifies mem
    ensures at == off - PileSize(e) - PileSize(a) && mem[..at] == old(mem[..at])
    ensures var rest := old(mem[off..]);
      && mem[at..] == Pile(a, Pile(e, rest))
      && Located(args, a, Pile(e, rest), low + mem.Length) && Located(envs, e, rest, low + mem.Length)
    ensures |args| == |a| && |envs| == |e| && (forall p :: p in args ==> p >= low + at) &&
      (forall p :: p in envs ==> p >= low + at)
  {
    hide Pile;
    ghost var before := mem[..];
    at, envs := PushStrings(mem, low, off, e);
    assert mem[..at] == before[..at];
    at, args := PushStrings(mem, low, at, a);
    assert mem[..at] == before[..at];
  }

  /** The header at `bottom`, what alignment left alone, and the strings at the end. */
  lemma ImageParts(m: Bytes, bottom: nat, header: Bytes, piled: Bytes, aligned: nat, at: nat, strings: Bytes)
    requires bottom <= |m| == |piled| && aligned == bottom + |header| && aligned <= at <= |m|
    requires m[bottom..] == header + piled[aligned..] && piled[at..] == strings
    ensures m[bottom..aligned] == header && EndsWith(m, strings)
  {
    assert m[bottom..aligned] == m[bottom..][..|header|];
    assert m[at..] == m[bottom..][at - bottom..];
  }

  lemma PileBelow(m: Bytes, list: seq<Bytes>, below: Bytes)
    requires EndsWith(m, Pile(list, below))
    ensures EndsWith(m, below)
  {
    PileEnds(m, list, below, 0);
    assert list[..0] == [];
  }

  lemma StringsBack(m: Bytes, low: Word, a: seq<Bytes>, e: seq<Bytes>, rest: Bytes, args: seq<Word>, envs: seq<Word>)
    requires EndsWith(m, Pile(a, Pile(e, rest))) && (forall s :: s in a ==> 0 !in s) && (forall s :: s in e ==> 0 !in s)
    requires Located(args, a, Pile(e, rest), low + |m|) && Located(envs, e, rest, low + |m|)
    ensures PointsAll(m, low, args, a) && PointsAll(m, low, envs, e) && EndsWith(m, rest)
  {
    PileBack(m, low, a, Pile(e, rest), args);
    PileBelow(m, a, Pile(e, rest));
    PileBack(m, low, e, rest, envs);
    PileBelow(m, e, rest);
  }

  lemma ImageOf(m: Bytes, low: Word, i: nat, a: seq<Bytes>, e: seq<Bytes>, args: seq<Word>, envs: seq<Word>, top: Word,
                pc: Word)
    requires |args| == |a| && |envs| == |e| && i + 12 + 4 * |a| + 4 * |e| <= |m| && WordAt(m, i) == |a|
    requires VectorAt(m, i + 4) == args && PointsAll(m, low, args, a)
    requires VectorAt(m, i + 8 + 4 * |a|) == envs && PointsAll(m, low, envs, e)
    requires AuxAt(m, i + 12 + 4 * |a| + 4 * |e|, top, pc)
    ensures Image(m, low, i, a, e, top, pc)
  {
    hide PointsAll, AuxAt, WordAt, VectorAt;
  }

  lemma ImageReads(m: Bytes, low: Word, i: nat, a: seq<Bytes>, e: seq<Bytes>, rest: Bytes, args: seq<Word>,
                   envs: seq<Word>, top: Word, pc: Word)
    requires |args| == |a| <= MAX_STRINGS && |envs| == |e| && 0 !in args && 0 !in envs
    requires var h := Header(args, envs, top, pc); i + 4 * |h| <= |m| && m[i..i + 4 * |h|] == Encode(h)
    requires EndsWith(m, Pile(a, Pile(e, rest))) && (forall s :: s in a ==> 0 !in s) && (forall s :: s in e ==> 0 !in s)
    requires Located(args, a, Pile(e, rest), low + |m|) && Located(envs, e, rest, low + |m|)
    ensures Image(m, low, i, a, e, top, pc) && EndsWith(m, rest)
  {
    hide Image, Pile, Encode, Header, Located, Points, PointsAll, AuxAt, WordAt, VectorAt, StringAt, EndsWith;
    HeaderParts(args, envs, top, pc);
    HeaderBack(m, i, args, envs, top, pc);
    StringsBack(m, low, a, e, rest, args, envs);
    ImageOf(m, low, i, a, e, args, envs, top, pc);
  }

  lemma {:induction false} VectorWord(m: Bytes, i: nat, j: nat)
    requires j < |VectorAt(m, i)|
    ensures i + 4 * j + 4 <= |m| && VectorAt(m, i)[j] == WordAt(m, i + 4 * j)
    decreases j
  {
    if j > 0 {
      VectorWord(m, i + 4, j - 1);
    }
  }

  lemma {:induction false} VectorEnd(m: Bytes, i: nat)
    ensures var n := |VectorAt(m, i)|; i + 4 * n + 4 <= |m| ==> WordAt(m, i + 4 * n) == 0
    decreases |m| - i
  {
    if i + 4 <= |m| && WordAt(m, i) != 0 {
      VectorEnd(m, i + 4);
    }
  }

  /** A null-terminated vector of pointers to the strings of `list`, word by word. */
  ghost predicate Vector(m: Bytes, low: Word, i: nat, list: seq<Bytes>, n: nat)
    requires n <= |list|
  {
    && i + 4 * n + 4 <= |m|
    && (forall j :: 0 <= j < n ==> Holds(m, WordAt(m, i + 4 * j) - low, list[j]))
    && WordAt(m, i + 4 * n) == 0
  }

  lemma VectorMeans(m: Bytes, low: Word, i: nat, list: seq<Bytes>)
    requires i + 4 * |FirstOf(list)| + 4 <= |m| && PointsAll(m, low, VectorAt(m, i), FirstOf(list))
    ensures Vector(m, low, i, list, if |list| < 128 then |list| else 128)
  {
    FirstMeans(list);
    var v, a := VectorAt(m, i), FirstOf(list);
    forall j | 0 <= j < |a| ensures Holds(m, WordAt(m, i + 4 * j) - low, list[j]) {
      VectorWord(m, i, j);
      assert Points(m, low, v[j], a[j]);
    }
    VectorEnd(m, i);
  }

  /**
    Word by word: the count, the pointers to the arguments and to the environment, 128 of each at most, with a zero
    after each vector, and the auxiliary vector.
   */
  ghost predicate Laid(m: Bytes, low: Word, i: nat, argv: seq<Bytes>, envp: seq<Bytes>, top: Word, pc: Word) {
    var n, k := (if |argv| < 128 then |argv| else 128), if |envp| < 128 then |envp| else 128;
    && i + 36 + 4 * n + 4 * k <= |m| && WordAt(m, i) == n
    && Vector(m, low, i + 4, argv, n) && Vector(m, low, i + 8 + 4 * n, envp, k)
    && AuxAt(m, i + 12 + 4 * n + 4 * k, top, pc)
  }

  lemma ImageMeans(m: Bytes, low: Word, i: nat, argv: seq<Bytes>, envp: seq<Bytes>, top: Word, pc: Word)
    requires Image(m, low, i, FirstOf(argv), FirstOf(envp), top, pc)
    ensures Laid(m, low, i, argv, envp, top, pc)
  {
    FirstMeans(argv);
    FirstMeans(envp);
    hide WordAt, VectorAt, PointsAll, FirstOf, Vector;
    VectorMeans(m, low, i + 4, argv);
    VectorMeans(m, low, i + 8 + 4 * |FirstOf(argv)|, envp);
  }

  lemma RestStays(m: Bytes, rest: Bytes)
    requires EndsWith(m, rest)
    ensures |rest| <= |m| && m[|m| - |rest|..] == rest
  {
  }

  lemma PrefixStays(a: Bytes, b: Bytes, c: Bytes, j: nat, i: nat)
    requires i <= j <= |a| == |b| == |c| && b[..j] == a[..j] && c[..i] == b[..i]
    ensures c[..i] == a[..i]
  {
    assert b[..i] == b[..j][..i] && a[..i] == a[..j][..i];
  }

  lemma FourDivides(low: int, aligned: int, n: int)
    requires (low + aligned) % 16 == 0
    ensures (low + (aligned - 4 * n)) % 4 == 0
  {
  }

  /** The image of two lists of at most 128 strings. */
  method SetUp(mem: array<Byte>, low: Word, top: Word, a: seq<Bytes>, e: seq<Bytes>, pc: Word) returns (sp: Word)
    requires low <= top <= low + mem.Length < TWO32 && |a| <= MAX_STRINGS && |e| <= MAX_STRINGS
    requires (forall s :: s in a ==> 0 !in s) && (forall s :: s in e ==> 0 !in s)
    requires Needed(a, e) <= top - low
    modifies mem
    ensures low <= sp <= top && sp % 4 == 0
    ensures mem[..sp - low] == old(mem[..sp - low]) && mem[top - low..] == old(mem[top - low..])
    ensures Image(mem[..], low, sp - low, a, e, top, pc)
  {
    hide Pile, Encode, Header, Located, PointsAll, AuxAt, WordAt, VectorAt, StringAt, EndsWith, Image;
    ghost var before, rest := mem[..], mem[top - low..];
    var at, args, envs := PushAllStrings(mem, low, top - low, a, e);
    ghost var piled, strings := mem[..], Pile(a, Pile(e, rest));
    var aligned := AlignedDown(low, at);
    var bottom := PushHeader(mem, aligned, args, envs, top, pc);
    sp := low + bottom;
    ghost var m := mem[..];
    EncodeLength(Header(args, envs, top, pc));
    HeaderParts(args, envs, top, pc);
    ImageParts(m, bottom, Encode(Header(args, envs, top, pc)), piled, aligned, at, strings);
    ImageReads(m, low, bottom, a, e, rest, args, envs, top, pc);
    RestStays(m, rest);
    PrefixStays(before, piled, m, at, bottom);
    FourDivides(low, aligned, |args| + |envs| + 9);
  }

  /**
    `env_setup`: a program that starts at the new stack pointer reads the argument count, the arguments, the environment
    and the auxiliary vector, and every pointer leads to exactly the original string. Of longer lists than 128 the first
    128 strings are there.
   */
  method EnvSetup(mem: array<Byte>, low: Word, top: Word, argv: seq<Bytes>, envp: seq<Bytes>, pc: Word)
    returns (sp: Word)
    requires low <= top <= low + mem.Length < TWO32
    requires (forall s :: s in argv ==> 0 !in s) && (forall s :: s in envp ==> 0 !in s)
    requires Needed(FirstOf(argv), FirstOf(envp)) <= top - low
    modifies mem
    ensures low <= sp <= top && sp % 4 == 0
    ensures mem[..sp - low] == old(mem[..sp - low]) && mem[top - low..] == old(mem[top - low..])
    ensures Image(mem[..], low, sp - low, FirstOf(argv), FirstOf(envp), top, pc)
    ensures Laid(mem[..], low, sp - low, argv, envp, top, pc)
  {
    hide Image, Laid, Needed;
    FirstMeans(argv);
    FirstMeans(envp);
    sp := SetUp(mem, low, top, FirstOf(argv), FirstOf(envp), pc);
    ImageMeans(mem[..], low, sp - low, argv, envp, top, pc);
  }
}
