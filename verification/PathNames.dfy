/**
  The path canonicaliser: an index stack over the source string and a rebuild of the words it points to.
  A word is a separator together with the name after it; the first character of a path is taken for a separator.
 */
module PathNames {
  const MAX_PATH: nat := 512
  const NUL: char := '\0'
  const SLASH: char := '/'

  // ---- words and their meaning ----

  /** The first index from `i` on that holds a slash, or the length. */
  function NextSlash(s: string, i: nat): (e: nat)
    requires i <= |s|
    ensures i <= e <= |s|
    ensures forall j :: i <= j < e ==> s[j] != SLASH
    ensures e < |s| ==> s[e] == SLASH
    decreases |s| - i
  {
    if i == |s| || s[i] == SLASH then i else NextSlash(s, i + 1)
  }

  function WordEnd(s: string, i: nat): (e: nat)
    requires i < |s|
    ensures i < e <= |s|
  {
    NextSlash(s, i + 1)
  }

  function WordAt(s: string, i: nat): (w: string)
    requires i < |s|
    ensures w != ""
  {
    s[i..WordEnd(s, i)]
  }

  /** The words of `s` from index `i` on. */
  function WordsFrom(s: string, i: nat): seq<string>
    requires i <= |s|
    decreases |s| - i
  {
    if i == |s| then [] else [WordAt(s, i)] + WordsFrom(s, WordEnd(s, i))
  }

  function Words(s: string): seq<string> {
    WordsFrom(s, 0)
  }

  function Name(w: string): string {
    if w == "" then "" else w[1..]
  }

  predicate Plain(w: string) {
    Name(w) !in {"", ".", ".."}
  }

  /** One path component: empty names and "." stay, ".." goes up, anything else goes down. */
  function Push(stack: seq<string>, w: string): seq<string> {
    if Name(w) in {"", "."} then stack
    else if Name(w) == ".." then if stack == [] then [] else stack[..|stack| - 1]
    else stack + [w]
  }

  function Fold(ws: seq<string>, stack: seq<string>): seq<string> {
    if ws == [] then stack else Fold(ws[1..], Push(stack, ws[0]))
  }

  function Concat(ws: seq<string>): string {
    if ws == [] then "" else Concat(ws[..|ws| - 1]) + ws[|ws| - 1]
  }

  /** Where a path leads, as the words from the root down. */
  function Resolve(s: string): seq<string> {
    Fold(Words(s), [])
  }

  /** A path that leads to the root is "/" if it ends in a slash, and empty otherwise. */
  function Canonical(s: string): string {
    if s == "" then ""
    else if Resolve(s) != [] then Concat(Resolve(s))
    else if |Words(s)[|Words(s)| - 1]| == 1 then Words(s)[|Words(s)| - 1]
    else ""
  }

  // ---- strings in buffers ----

  ghost predicate IsString(a: array<char>, s: string)
    reads a
  {
    |s| < a.Length && a[..|s|] == s && a[|s|] == NUL && NUL !in s
  }

  /** The words the index stack points to. */
  function Pointed(s: string, at: seq<nat>): seq<string>
    requires forall i :: 0 <= i < |at| ==> at[i] < |s|
  {
    if at == [] then [] else Pointed(s, at[..|at| - 1]) + [WordAt(s, at[|at| - 1])]
  }

  /** Ascending word starts, each at least two characters after the one before. */
  ghost predicate Starts(s: string, at: seq<nat>, limit: nat) {
    && (forall i :: 0 <= i < |at| ==> at[i] < |s| && 2 * i <= at[i] && WordEnd(s, at[i]) <= limit)
    && (forall i, j :: 0 <= i < j < |at| ==> WordEnd(s, at[i]) <= at[j])
  }

  /** The first loop has dealt with everything before the word at `start`. */
  ghost predicate Scanned(s: string, at: seq<nat>, start: nat) {
    && start <= |s| && Starts(s, at, start) && 2 * |at| <= start
    && Fold(WordsFrom(s, start), Pointed(s, at)) == Resolve(s)
  }

  lemma PointedSize(s: string, at: seq<nat>)
    requires forall i :: 0 <= i < |at| ==> at[i] < |s|
    ensures |Pointed(s, at)| == |at|
  {
  }

  lemma StartsGrow(s: string, at: seq<nat>, start: nat)
    requires start < |s| && Starts(s, at, start) && 2 * |at| <= start
    ensures var e := WordEnd(s, start);
      && Starts(s, at, e) && Starts(s, at + [start], e)
      && (at != [] ==> Starts(s, at[..|at| - 1], e))
  {
  }

  lemma StartsAreInside(s: string, at: seq<nat>, limit: nat)
    requires Starts(s, at, limit)
    ensures forall i :: 0 <= i < |at| ==> at[i] < |s|
  {
  }

  lemma FoldStep(s: string, at: seq<nat>, start: nat)
    requires start < |s| && forall i :: 0 <= i < |at| ==> at[i] < |s|
    ensures Fold(WordsFrom(s, start), Pointed(s, at)) ==
      Fold(WordsFrom(s, WordEnd(s, start)), Push(Pointed(s, at), WordAt(s, start)))
  {
    assert WordsFrom(s, start)[1..] == WordsFrom(s, WordEnd(s, start));
  }

  lemma PushPoints(s: string, at: seq<nat>, start: nat)
    requires start < |s| && forall i :: 0 <= i < |at| ==> at[i] < |s|
    ensures var w := WordAt(s, start);
      Push(Pointed(s, at), w) ==
        (if Name(w) in {"", "."} then Pointed(s, at)
         else if Name(w) == ".." then Pointed(s, if at == [] then [] else at[..|at| - 1])
         else Pointed(s, at + [start]))
  {
    PointedSize(s, at);
    assert (at + [start])[..|at|] == at;
  }

  lemma PlainIsLong(w: string)
    requires Plain(w)
    ensures |w| >= 2 && |Name(w)| == |w| - 1
  {
    assert Name(w) != "";
  }

  /** The word at `start` is handled: skipped, popped or pushed. */
  lemma ScanStep(s: string, at: seq<nat>, start: nat)
    requires start < |s| && Scanned(s, at, start)
    ensures var w, e := WordAt(s, start), WordEnd(s, start);
      if Name(w) in {"", "."} then Scanned(s, at, e)
      else if Name(w) == ".." then Scanned(s, if at == [] then [] else at[..|at| - 1], e)
      else Scanned(s, at + [start], e)
  {
    hide Fold, Pointed, Push, Starts, WordsFrom, Resolve;
    StartsAreInside(s, at, start);
    StartsGrow(s, at, start);
    FoldStep(s, at, start);
    PushPoints(s, at, start);
    if Plain(WordAt(s, start)) { PlainIsLong(WordAt(s, start)); }
  }

  /** What the index stack holds in the end. */
  ghost predicate Collected(s: string, at: seq<nat>) {
    Starts(s, at, |s|) && Concat(Pointed(s, at)) == Canonical(s)
  }

  lemma {:induction false} LastWord(s: string, i: nat, start: nat)
    requires i <= start < |s| && WordEnd(s, start) == |s|
    requires i == start || s[start] == SLASH
    ensures var ws := WordsFrom(s, i); ws != [] && ws[|ws| - 1] == WordAt(s, start)
    decreases |s| - i
  {
    if i < start {
      assert WordEnd(s, i) <= start;
      LastWord(s, WordEnd(s, i), start);
    }
  }

  /** The end of the first loop; a path that ends in a lone separator with nothing before it keeps that separator. */
  lemma ScanEnds(s: string, at: seq<nat>, start: nat)
    requires start < |s| && WordEnd(s, start) == |s| && Scanned(s, at, |s|) && (start == 0 || s[start] == SLASH)
    ensures if at == [] && |WordAt(s, start)| == 1 then Collected(s, [start]) else Collected(s, at)
  {
    LastWord(s, 0, start);
    PointedSize(s, at);
    assert Pointed(s, [start]) == [WordAt(s, start)];
    assert Concat([WordAt(s, start)]) == "" + WordAt(s, start);
  }

  // ---- the loops ----

  lemma Depth(s: string, at: seq<nat>, start: nat)
    requires Scanned(s, at, start)
    ensures 2 * |at| <= start <= |s|
  {
  }

  /** What the first loop does at the end of a word. */
  method HandleWord(src: array<char>, stack: array<nat>, ptr: nat, start: nat, idx: nat, ghost s: string)
    returns (top: nat)
    requires IsString(src, s) && |s| <= MAX_PATH - 2 && stack.Length == 256 && ptr <= 256
    requires start < |s| && idx == WordEnd(s, start) && Scanned(s, stack[..ptr], start) &&
      (start == 0 || s[start] == SLASH)
    modifies stack
    ensures top <= 256
    ensures if idx < |s| then Scanned(s, stack[..top], idx) else Collected(s, stack[..top])
  {
    hide Starts, Collected, Scanned;
    ghost var at, w := stack[..ptr], WordAt(s, start);
    ScanStep(s, at, start);
    Depth(s, at, start);
    var len := idx - start;
    assert |w| == len && src[idx - 1] == w[len - 1] && (len >= 2 ==> src[idx - 2] == w[len - 2]);
    top := ptr;
    if len == 1 {
      if src[idx] == NUL && ptr == 0 {
        stack[0] := start;
        top := 1;
        assert stack[..1] == [start];
      }
    } else if len == 2 && src[idx - 1] == '.' {
      assert Name(w) == ".";
    } else if len == 3 && src[idx - 1] == '.' && src[idx - 2] == '.' {
      assert Name(w) == "..";
      top := if ptr != 0 then ptr - 1 else 0;
      assert ptr != 0 ==> stack[..top] == at[..|at| - 1];
    } else {
      assert len == 2 ==> Name(w)[0] == w[1];
      assert len == 3 ==> Name(w)[0] == w[1] && Name(w)[1] == w[2];
      stack[ptr] := start;
      top := ptr + 1;
      assert stack[..top] == at + [start];
    }
    if idx == |s| {
      ScanEnds(s, if len == 1 then at else stack[..top], start);
    }
  }

  method FindEnd(src: array<char>, start: nat, ghost s: string) returns (end: nat)
    requires IsString(src, s) && |s| <= MAX_PATH - 2 && start < |s|
    ensures end == if WordEnd(s, start) < |s| then WordEnd(s, start) else |s| + 1
  {
    end := 0;
    var i := start + 1;
    while i < MAX_PATH
      invariant start < i <= |s| && forall j :: start < j < i ==> s[j] != SLASH
    {
      if src[i] == SLASH {
        return i;
      } else if src[i] == NUL {
        return i + 1;
      }
      assert src[i] == s[i];
      i := i + 1;
    }
  }

  /** The first `k` words have been copied, and the next one starts no earlier than where it will go. */
  ghost predicate Rebuilt(s: string, at: seq<nat>, k: nat, c: string) {
    && k <= |at| && Starts(s, at, |s|) && c == Concat(Pointed(s, at[..k])) && (forall x :: x in c ==> x in s)
    && |c| <= if k < |at| then at[k] else |s|
  }

  lemma RebuildStart(s: string, at: seq<nat>)
    requires Starts(s, at, |s|)
    ensures Rebuilt(s, at, 0, "")
  {
  }

  lemma RebuildStep(s: string, at: seq<nat>, k: nat, c: string)
    requires Rebuilt(s, at, k, c) && k < |at|
    ensures at[k] < |s| && |c| <= at[k] && Rebuilt(s, at, k + 1, c + WordAt(s, at[k]))
    ensures k + 1 < |at| ==> WordEnd(s, at[k]) < |s|
  {
    assert at[..k + 1][..k] == at[..k];
    PointedSize(s, at[..k + 1]);
    assert k + 1 < |at| ==> WordEnd(s, at[k]) <= at[k + 1];
  }

  method CopyRange(dst: array<char>, src: array<char>, start: nat, end: nat, out: nat)
    requires dst != src && start <= end <= src.Length && out + (end - start) <= dst.Length
    modifies dst
    ensures dst[..out] == old(dst[..out]) && dst[out..out + (end - start)] == src[start..end]
  {
    for i := start to end
      invariant dst[..out] == old(dst[..out]) && dst[out..out + (i - start)] == src[start..i]
    {
      dst[out + (i - start)] := src[i];
    }
  }

  /** One word; at the end of the source string its terminator is copied as well. */
  method CopyWord(dst: array<char>, src: array<char>, start: nat, out: nat, ghost s: string, ghost c: string)
    returns (end: nat)
    requires dst != src && dst.Length == MAX_PATH && IsString(src, s) && |s| <= MAX_PATH - 2
    requires start < |s| && |c| == out <= start && dst[..out] == c
    modifies dst
    ensures var d := c + WordAt(s, start);
      && |d| <= |s| && dst[..|d|] == d
      && (if WordEnd(s, start) < |s| then end == |d| else end == |d| + 1 && dst[|d|] == NUL)
  {
    var stop := FindEnd(src, start, s);
    CopyRange(dst, src, start, stop, out);
    end := out + (stop - start);
    ghost var w := WordAt(s, start);
    assert src[start..start + |w|] == w;
    assert dst[..end] == c + src[start..stop];
    assert dst[..out + |w|] == c + w;
  }

  lemma RebuildEnd(s: string, at: seq<nat>, c: string)
    requires Rebuilt(s, at, |at|, c)
    ensures c == Concat(Pointed(s, at)) && forall x :: x in c ==> x in s
  {
    assert at[..|at|] == at;
  }

  /** The second loop: the words on the stack, one after the other; the last one may bring its terminator along. */
  method Rebuild(dst: array<char>, src: array<char>, stack: array<nat>, ptr: nat, ghost s: string)
    requires dst != src && dst.Length == MAX_PATH && IsString(src, s) && |s| <= MAX_PATH - 2
    requires ptr <= stack.Length && Starts(s, stack[..ptr], |s|)
    modifies dst
    ensures IsString(dst, Concat(Pointed(s, stack[..ptr])))
  {
    hide Starts, WordAt, Pointed, Concat;
    ghost var at := stack[..ptr];
    var out, k := 0, 0;
    ghost var c := "";
    RebuildStart(s, at);
    while k < ptr
      invariant 0 <= k <= ptr && Rebuilt(s, at, k, c)
      invariant |c| <= out <= |c| + 1 && |c| <= |s| && (out == |c| + 1 ==> k == ptr && dst[|c|] == NUL)
      invariant dst[..|c|] == c
    {
      var start := stack[k];
      assert start == at[k];
      RebuildStep(s, at, k, c);
      out := CopyWord(dst, src, start, out, s, c);
      c := c + WordAt(s, start);
      k := k + 1;
    }
    dst[out] := NUL;
    RebuildEnd(s, at, c);
  }

  lemma BeginScan(s: string)
    ensures if s == "" then Collected(s, []) else Scanned(s, [], 0)
  {
  }

  lemma CollectedFacts(s: string, at: seq<nat>)
    requires Collected(s, at)
    ensures Starts(s, at, |s|) && Concat(Pointed(s, at)) == Canonical(s)
  {
  }

  /** `canonicalize_path_name` */
  method CanonicalizePathName(dst: array<char>, src: array<char>, ghost s: string)
    requires dst != src && dst.Length == MAX_PATH && IsString(src, s) && |s| <= MAX_PATH - 2
    modifies dst
    ensures IsString(dst, Canonical(s))
  {
    hide Scanned, Collected;
    var stack := new nat[256](_ => 0);
    var idx, start, ptr := 0, -1, 0;
    BeginScan(s);
    while idx < MAX_PATH
      invariant 0 <= idx <= |s| && 0 <= ptr <= 256 && -1 <= start < |s|
      invariant start == -1 ==> idx == 0 && ptr == 0
      invariant start >= 0 ==> start < idx && Scanned(s, stack[..ptr], start) && (start == 0 || s[start] == SLASH)
      invariant forall j :: start < j < idx ==> 0 <= start && s[j] != SLASH
    {
      if src[idx] != SLASH && src[idx] != NUL && idx != 0 { idx := idx + 1; continue; }
      if start == -1 && src[idx] != NUL {
        start, idx := idx, idx + 1;
        assert stack[..0] == [];
        continue;
      }
      if start == -1 && src[idx] == NUL { break; }
      ptr := HandleWord(src, stack, ptr, start, idx, s);
      if src[idx] == NUL { break; }
      start, idx := idx, idx + 1;
    }
    assert Collected(s, stack[..ptr]) by { assert s == "" ==> stack[..ptr] == []; }
    CollectedFacts(s, stack[..ptr]);
    Rebuild(dst, src, stack, ptr, s);
  }

  // ---- what canonical paths are good for ----

  /** A separator and a name without slashes. */
  ghost predicate WordLike(w: string) {
    w != "" && forall i :: 1 <= i < |w| ==> w[i] != SLASH
  }

  ghost predicate SlashLed(ws: seq<string>) {
    forall i :: 0 <= i < |ws| ==> WordLike(ws[i]) && ws[i][0] == SLASH
  }

  /** What a canonical path is made of: proper names, all but the first behind a slash. */
  ghost predicate Proper(ws: seq<string>) {
    && (forall i :: 0 <= i < |ws| ==> WordLike(ws[i]) && Plain(ws[i]))
    && (forall i :: 1 <= i < |ws| ==> ws[i][0] == SLASH)
  }

  lemma {:induction false} WordsShape(s: string, i: nat)
    requires i <= |s| && (i < |s| ==> s[i] == SLASH)
    ensures SlashLed(WordsFrom(s, i))
    decreases |s| - i
  {
    if i < |s| {
      WordsShape(s, WordEnd(s, i));
    }
  }

  lemma {:induction false} SlashAfter(s: string, t: string, i: nat)
    requires i <= |s| && (t != "" ==> t[0] == SLASH)
    ensures NextSlash(s + t, i) == NextSlash(s, i)
  {
    var e := NextSlash(s, i);
    assert forall j :: 0 <= j < |s| ==> (s + t)[j] == s[j];
    assert e < |s + t| ==> (s + t)[e] == SLASH;
  }

  lemma {:induction false} SlashShift(s: string, t: string, i: nat)
    requires i <= |t|
    ensures NextSlash(s + t, |s| + i) == |s| + NextSlash(t, i)
  {
    var u, e := s + t, NextSlash(t, i);
    assert forall j :: 0 <= j < |t| ==> u[|s| + j] == t[j];
    assert forall j :: |s| <= j < |u| ==> u[j] == t[j - |s|];
    assert e < |t| ==> u[|s| + e] == SLASH;
  }

  lemma WordShift(s: string, t: string, i: nat)
    requires i < |t|
    ensures WordEnd(s + t, |s| + i) == |s| + WordEnd(t, i) && WordAt(s + t, |s| + i) == WordAt(t, i)
  {
    SlashShift(s, t, i + 1);
    hide NextSlash;
  }

  lemma {:induction false} WordsShift(s: string, t: string, i: nat)
    requires i <= |t|
    ensures WordsFrom(s + t, |s| + i) == WordsFrom(t, i)
    decreases |t| - i
  {
    if i < |t| {
      hide WordEnd, WordAt;
      WordShift(s, t, i);
      WordsShift(s, t, WordEnd(t, i));
    }
  }

  lemma {:induction false} WordsAppend(s: string, t: string, i: nat)
    requires i <= |s| && (t != "" ==> t[0] == SLASH)
    ensures WordsFrom(s + t, i) == WordsFrom(s, i) + Words(t)
    decreases |s| - i
  {
    if i == |s| {
      WordsShift(s, t, 0);
    } else {
      SlashAfter(s, t, i + 1);
      var e := WordEnd(s, i);
      assert (s + t)[i..e] == s[i..e];
      WordsAppend(s, t, e);
    }
  }

  lemma WordOfWord(w: string)
    requires WordLike(w)
    ensures Words(w) == [w]
  {
    assert WordEnd(w, 0) == |w|;
    assert w[0..|w|] == w;
    assert WordsFrom(w, |w|) == [];
  }

  /** Splitting undoes joining. */
  lemma {:induction false} WordsOfConcat(ws: seq<string>)
    requires Proper(ws)
    ensures Words(Concat(ws)) == ws
  {
    if ws != [] {
      var front, last := ws[..|ws| - 1], ws[|ws| - 1];
      WordsOfConcat(front);
      WordOfWord(last);
      if front == [] {
        assert Concat(ws) == "" + last && ws == [last];
        assert "" + last == last;
      } else {
        WordsAppend(Concat(front), last, 0);
      }
    }
  }

  lemma {:induction false} FoldAppend(a: seq<string>, b: seq<string>, stack: seq<string>)
    ensures Fold(a + b, stack) == Fold(b, Fold(a, stack))
    decreases |a|
  {
    if a == [] {
      assert a + b == b;
    } else {
      assert (a + b)[1..] == a[1..] + b;
      FoldAppend(a[1..], b, Push(stack, a[0]));
    }
  }

  lemma {:induction false} FoldPlain(ws: seq<string>, stack: seq<string>)
    requires forall i :: 0 <= i < |ws| ==> Plain(ws[i])
    ensures Fold(ws, stack) == stack + ws
    decreases |ws|
  {
    if ws != [] {
      FoldPlain(ws[1..], stack + [ws[0]]);
    }
  }

  lemma {:induction false} FoldIsProper(ws: seq<string>, stack: seq<string>)
    requires SlashLed(ws) && Proper(stack)
    ensures Proper(Fold(ws, stack))
    ensures SlashLed(stack) ==> SlashLed(Fold(ws, stack))
    decreases |ws|
  {
    if ws != [] {
      assert WordLike(ws[0]) && ws[0][0] == SLASH;
      FoldIsProper(ws[1..], Push(stack, ws[0]));
    }
  }

  /** Where a path leads never goes through an empty name, "." or "..". */
  lemma ResolveIsProper(s: string)
    ensures Proper(Resolve(s)) && (s != "" && s[0] == SLASH ==> SlashLed(Resolve(s)))
  {
    if s != "" {
      var e := WordEnd(s, 0);
      WordsShape(s, e);
      var first := Push([], WordAt(s, 0));
      assert Words(s)[1..] == WordsFrom(s, e);
      assert WordLike(WordAt(s, 0));
      FoldIsProper(WordsFrom(s, e), first);
    }
  }

  /** The canonical path leads where the path does. */
  lemma CanonicalLeadsThere(s: string)
    ensures Resolve(Canonical(s)) == Resolve(s)
  {
    var st := Resolve(s);
    ResolveIsProper(s);
    if st != [] {
      WordsOfConcat(st);
      FoldPlain(st, []);
    } else if Canonical(s) != "" {
      WordOfWord(Canonical(s));
      assert Fold([Canonical(s)], []) == Fold([], Push([], Canonical(s)));
    }
  }

  lemma ConcatNotEmpty(ws: seq<string>)
    requires ws != [] && forall i :: 0 <= i < |ws| ==> WordLike(ws[i])
    ensures Concat(ws) != ""
  {
  }

  lemma Idempotent(s: string)
    ensures Canonical(Canonical(s)) == Canonical(s)
  {
    CanonicalLeadsThere(s);
    ResolveIsProper(s);
    if Resolve(s) != [] {
      ConcatNotEmpty(Resolve(s));
    } else if Canonical(s) != "" {
      WordOfWord(Canonical(s));
    }
  }

  lemma {:induction false} ConcatStartsLikeFirst(ws: seq<string>)
    requires ws != [] && forall i :: 0 <= i < |ws| ==> WordLike(ws[i])
    ensures Concat(ws) != "" && ws[0] != "" && Concat(ws)[0] == ws[0][0]
  {
    if |ws| > 1 {
      ConcatStartsLikeFirst(ws[..|ws| - 1]);
    } else {
      assert WordLike(ws[0]) && Concat(ws) == "" + ws[0];
    }
  }

  /** The canonical form of an absolute path is absolute or empty. */
  lemma CanonicalIsAbsolute(s: string)
    requires s != "" && s[0] == SLASH
    ensures Canonical(s) != "" ==> Canonical(s)[0] == SLASH
  {
    ResolveIsProper(s);
    WordsShape(s, 0);
    if Resolve(s) != [] {
      ConcatStartsLikeFirst(Resolve(s));
    }
  }

  // ---- where a path leads, component by component ----

  predicate NoSlash(n: string) {
    forall i :: 0 <= i < |n| ==> n[i] != '/'
  }

  /** A word with the name `n` on `stack`: an empty name or a dot stays, two dots go up, anything else goes down. */
  lemma OneWord(w: string, n: string, stack: seq<string>)
    requires w != "" && w[1..] == n && NoSlash(n)
    ensures Words(w) == [w]
    ensures Fold([w], stack) ==
      if n == "" || n == "." then stack
      else if n == ".." then if stack == [] then [] else stack[..|stack| - 1]
      else stack + [w]
  {
    assert forall i :: 1 <= i < |w| ==> w[i] == n[i - 1];
    assert WordLike(w);
    WordOfWord(w);
    assert [w][1..] == [];
    assert Fold([w], stack) == Push(stack, w);
  }

  /** One more component after a path. */
  lemma OneComponent(s: string, n: string)
    requires NoSlash(n)
    ensures Resolve("") == []
    ensures Resolve(s + "/" + n) ==
      if n == "" || n == "." then Resolve(s)
      else if n == ".." then if Resolve(s) == [] then [] else Resolve(s)[..|Resolve(s)| - 1]
      else Resolve(s) + ["/" + n]
  {
    var w := "/" + n;
    OneWord(w, n, Resolve(s));
    assert s + "/" + n == s + w;
    WordsAppend(s, w, 0);
    FoldAppend(Words(s), [w], []);
  }

  /** The first component of a path that does not begin with a slash: its first character counts as one. */
  lemma FirstComponent(c: char, n: string)
    requires NoSlash(n)
    ensures Resolve([c] + n) == if n in {"", ".", ".."} then [] else [[c] + n]
  {
    OneWord([c] + n, n, []);
  }

  /** A path that leads to the root: the canonical form is a slash if the path ends in one, and otherwise empty. */
  lemma RootForm(s: string, n: string)
    requires NoSlash(n) && Resolve(s + "/" + n) == []
    ensures Canonical(s + "/" + n) == if n == "" then "/" else ""
  {
    var w := "/" + n;
    OneWord(w, n, []);
    assert s + "/" + n == s + w;
    WordsAppend(s, w, 0);
    assert Words(s + w)[|Words(s)|] == w;
  }

  /** A string without its leading blanks. */
  function AfterBlanks(s: string): string {
    if s != "" && s[0] == ' ' then AfterBlanks(s[1..]) else s
  }

  /** Leading blanks, and nothing else, are skipped. */
  lemma {:induction false} AfterBlanksMeans(s: string) returns (n: nat)
    ensures n <= |s| && AfterBlanks(s) == s[n..] && (n < |s| ==> s[n] != ' ') && forall i :: 0 <= i < n ==> s[i] == ' '
  {
    if s != "" && s[0] == ' ' {
      n := AfterBlanksMeans(s[1..]);
      assert forall i :: 0 < i < n + 1 ==> s[i] == s[1..][i - 1];
      n := n + 1;
    } else {
      n := 0;
    }
  }

  // ---- confinement ----

  /** Whether `do_openat` takes a guest path for a relative one. */
  predicate Relative(g: string) {
    var p := AfterBlanks(g);
    p == "" || p[0] != SLASH
  }

  /** The string that `do_openat` canonicalises for the host. */
  function HostString(root: string, cwd: string, g: string): string {
    root + (if Relative(g) then cwd else "") + Canonical(g)
  }

  predicate EmptyOrAbsolute(s: string) {
    s == "" || s[0] == SLASH
  }

  /** A working directory: a canonical absolute path, or nothing, and a slash. */
  predicate IsCwd(cwd: string) {
    cwd != "" && cwd[|cwd| - 1] == SLASH && var dir := cwd[..|cwd| - 1]; dir == Canonical(dir) && EmptyOrAbsolute(dir)
  }

  /** No word goes up. */
  ghost predicate NoUp(ws: seq<string>) {
    forall i :: 0 <= i < |ws| ==> Name(ws[i]) != ".."
  }

  lemma Associate(a: seq<string>, b: seq<string>, c: seq<string>)
    ensures (a + b) + c == a + (b + c)
  {
  }

  lemma NoUpTail(ws: seq<string>)
    requires NoUp(ws) && ws != []
    ensures NoUp(ws[1..])
  {
  }

  lemma PushOnto(stack: seq<string>, w: string)
    requires Name(w) != ".."
    ensures Push(stack, w) == stack + Push([], w)
  {
    assert stack + [] == stack;
  }

  lemma {:induction false} FoldNoUp(ws: seq<string>, stack: seq<string>)
    requires NoUp(ws)
    ensures Fold(ws, stack) == stack + Fold(ws, [])
    decreases |ws|
  {
    if ws == [] {
      assert stack + [] == stack;
    } else {
      var p, rest := Push([], ws[0]), ws[1..];
      PushOnto(stack, ws[0]);
      NoUpTail(ws);
      FoldNoUp(rest, stack + p);
      FoldNoUp(rest, p);
      Associate(stack, p, Fold(rest, []));
      hide Push, NoUp;
      assert Fold(ws, stack) == Fold(rest, stack + p) && Fold(ws, []) == Fold(rest, p);
    }
  }

  /** The words of a canonical path never go up. */
  lemma CanonicalNoUp(s: string)
    ensures NoUp(Words(Canonical(s)))
  {
    ResolveIsProper(s);
    if Resolve(s) != [] {
      WordsOfConcat(Resolve(s));
    } else if Canonical(s) != "" {
      WordOfWord(Canonical(s));
    }
  }

  lemma ConcatOne(w: string)
    ensures Concat([w]) == w
  {
    assert [w][..0] == [];
    assert Concat([w]) == "" + w;
  }

  lemma {:induction false} ConcatFront(w: string, ws: seq<string>, x: string)
    requires ws != [] && ws[0] == w
    ensures x + Concat(ws) == Concat([x + w] + ws[1..])
    decreases |ws|
  {
    var front := ws[..|ws| - 1];
    if |ws| == 1 {
      assert ws == [w] && [x + w] + ws[1..] == [x + w];
      ConcatOne(w);
      ConcatOne(x + w);
    } else {
      ConcatFront(w, front, x);
      var ys := [x + w] + ws[1..];
      assert ys[..|ys| - 1] == [x + w] + front[1..];
      assert x + Concat(ws) == (x + Concat(front)) + ws[|ws| - 1];
    }
  }

  lemma SlashedIsProper(st: seq<string>)
    requires Proper(st) && st != [] && st[0][0] != SLASH
    ensures Proper([[SLASH] + st[0]] + st[1..])
  {
    var ws := [[SLASH] + st[0]] + st[1..];
    assert WordLike(st[0]) && Plain(st[0]) && Name(ws[0]) == st[0];
    assert Name("..") == ".";
    assert forall i :: 1 <= i < |ws| ==> ws[i] == st[i];
  }

  /** A slash in front of a canonical path, relative ones included, brings in nothing that goes up. */
  lemma SlashedNoUp(s: string)
    ensures NoUp(Words([SLASH] + Canonical(s)))
  {
    var c, st := Canonical(s), Resolve(s);
    ResolveIsProper(s);
    CanonicalNoUp(s);
    WordOfWord([SLASH]);
    if EmptyOrAbsolute(c) {
      WordsAppend([SLASH], c, 0);
    } else if st == [] {
      WordOfWord([SLASH] + c);
    } else {
      ConcatStartsLikeFirst(st);
      ConcatFront(st[0], st, [SLASH]);
      SlashedIsProper(st);
      WordsOfConcat([[SLASH] + st[0]] + st[1..]);
    }
  }

  /** Appending an absolute piece that never goes up leads down from where the front leads. */
  lemma AppendLeadsDown(s: string, t: string)
    requires EmptyOrAbsolute(t) && NoUp(Words(t))
    ensures Resolve(s + t) == Resolve(s) + Resolve(t)
  {
    WordsAppend(s, t, 0);
    FoldAppend(Words(s), Words(t), []);
    FoldNoUp(Words(t), Resolve(s));
  }

  /**
    Confinement of absolute guest paths: the host path leads to what the root leads to, and from there down to what the
    guest path leads to.
   */
  lemma GuestStaysUnderRoot(root: string, guest: string)
    requires EmptyOrAbsolute(Canonical(guest))
    ensures Resolve(root + Canonical(guest)) == Resolve(root) + Resolve(guest)
    ensures Resolve(guest) != [] ==> Canonical(root + Canonical(guest)) == Concat(Resolve(root) + Resolve(guest))
  {
    CanonicalNoUp(guest);
    CanonicalLeadsThere(guest);
    AppendLeadsDown(root, Canonical(guest));
  }

  lemma Regroup(a: string, b: string, c: string, d: string)
    ensures a + (b + c) + d == (a + b) + (c + d)
  { }

  lemma SlashLeadsNowhere(dir: string)
    ensures Resolve(dir + [SLASH]) == Resolve(dir)
  {
    WordOfWord([SLASH]);
    AppendLeadsDown(dir, [SLASH]);
    assert Fold([[SLASH]], []) == Fold([], Push([], [SLASH]));
  }

  /** Confinement of relative guest paths: root, working directory and guest path, in this order, and always down. */
  lemma RelativeStaysUnderRoot(root: string, cwd: string, guest: string)
    requires IsCwd(cwd)
    ensures Resolve(root + cwd + Canonical(guest)) == Resolve(root) + Resolve(cwd) + Resolve([SLASH] + Canonical(guest))
  {
    var dir, c := cwd[..|cwd| - 1], Canonical(guest);
    hide Resolve, Canonical, Words, NoUp;
    assert cwd == dir + [SLASH];
    CanonicalNoUp(dir);
    SlashedNoUp(guest);
    assert Resolve(root + dir) == Resolve(root) + Resolve(dir) by { AppendLeadsDown(root, dir); }
    assert Resolve((root + dir) + ([SLASH] + c)) == Resolve(root + dir) + Resolve([SLASH] + c) by {
      AppendLeadsDown(root + dir, [SLASH] + c);
    }
    Regroup(root, dir, [SLASH], c);
    SlashLeadsNowhere(dir);
  }

  /** The piece of a host path after the root. */
  function Below(cwd: string, g: string): seq<string> {
    if Relative(g) then Resolve(cwd) + Resolve([SLASH] + Canonical(g)) else Resolve(g)
  }

  /** Every guest path stays under the root, unless blanks in front of its slash are left over in its canonical form. */
  lemma HostStaysUnderRoot(root: string, cwd: string, g: string)
    requires IsCwd(cwd) && (Relative(g) || EmptyOrAbsolute(Canonical(g)))
    ensures Resolve(HostString(root, cwd, g)) == Resolve(root) + Below(cwd, g)
  {
    if Relative(g) {
      RelativeStaysUnderRoot(root, cwd, g);
    } else {
      GuestStaysUnderRoot(root, g);
      assert root + "" == root;
    }
  }

  /** A guest path that counts as absolute and leads nowhere has a canonical form that is empty or "/". */
  lemma LeadsNowhere(g: string)
    requires !Relative(g) && Resolve(g) == []
    ensures EmptyOrAbsolute(Canonical(g))
  {
    if g != "" {
      var e := WordEnd(g, 0);
      WordsShape(g, e);
      assert Words(g) == [WordAt(g, 0)] + WordsFrom(g, e);
      if e == |g| {
        assert g[0..e] == g && WordsFrom(g, e) == [];
        assert Words(g) == [g];
        if |g| == 1 {
          assert AfterBlanks(g) == if g[0] == ' ' then AfterBlanks("") else g;
        }
      }
    }
  }

  /** The path ends in a name that leads down, with no slash after it. */
  predicate EndsInName(s: string) {
    s != "" && var ws := Words(s); Plain(ws[|ws| - 1])
  }

  /** Where the last word of `s` goes on in `t`. */
  lemma {:induction false} SeamEnd(s: string, t: string, i: nat)
    requires i < |s| && WordEnd(s, i) == |s| && t != "" && t[0] != SLASH
    ensures WordEnd(s + t, i) == |s| + WordEnd(t, 0) && WordAt(s + t, i) == WordAt(s, i) + WordAt(t, 0)
  {
    var u, e := s + t, WordEnd(t, 0);
    assert forall j :: 0 <= j < |s| ==> u[j] == s[j];
    assert forall j :: 0 <= j < |t| ==> u[|s| + j] == t[j];
    assert forall j :: |s| <= j < |u| ==> u[j] == t[j - |s|];
    assert forall j :: i + 1 <= j < |s| + e ==> u[j] != SLASH;
    assert e < |t| ==> u[|s| + e] == SLASH;
    assert u[i..|s| + e] == s[i..] + t[..e];
  }

  lemma {:induction false} SlashKept(s: string, t: string, i: nat)
    requires i <= |s| && NextSlash(s, i) < |s|
    ensures NextSlash(s + t, i) == NextSlash(s, i)
  {
    assert forall j :: 0 <= j < |s| ==> (s + t)[j] == s[j];
  }

  /** Joining two paths without a slash between them makes one word of the two at the seam. */
  lemma {:induction false} WordsGlue(s: string, t: string, i: nat)
    requires i < |s| && t != "" && t[0] != SLASH
    ensures var ws := WordsFrom(s, i);
      ws != [] && WordsFrom(s + t, i) == ws[..|ws| - 1] + ([ws[|ws| - 1] + WordAt(t, 0)] + WordsFrom(t, WordEnd(t, 0)))
    decreases |s| - i
  {
    hide NextSlash;
    var u, e := s + t, WordEnd(s, i);
    var ws := WordsFrom(s, i);
    if e == |s| {
      SeamEnd(s, t, i);
      WordsShift(s, t, WordEnd(t, 0));
      assert ws == [WordAt(s, i)] && ws[..0] == [];
    } else {
      SlashKept(s, t, i + 1);
      assert u[i..e] == s[i..e];
      WordsGlue(s, t, e);
      var rest := WordsFrom(s, e);
      assert ws == [WordAt(s, i)] + rest && ws[..|ws| - 1] == [WordAt(s, i)] + rest[..|rest| - 1];
    }
  }

  /** A word that goes on in a name becomes a name. */
  lemma GluedIsPlain(w: string, n: string)
    requires w != "" && Plain(n)
    ensures Plain(w + n)
  {
    PlainIsLong(n);
    assert Name(w + n) == Name(w) + n;
    assert Name("..") == ".";
  }

  lemma {:induction false} WordsAreNotEmpty(s: string, i: nat)
    requires i <= |s|
    ensures forall j :: 0 <= j < |WordsFrom(s, i)| ==> WordsFrom(s, i)[j] != ""
    decreases |s| - i
  {
    if i < |s| {
      WordsAreNotEmpty(s, WordEnd(s, i));
    }
  }

  /** Where a root leads with a path of proper names joined to it: its last word is lost to the first of them. */
  lemma GluedLeads(root: string, gs: seq<string>)
    requires root != "" && Proper(gs) && gs != [] && gs[0][0] != SLASH
    ensures var ws := Words(root);
      ws != [] && Resolve(root + Concat(gs)) == Fold(ws[..|ws| - 1], []) + ([ws[|ws| - 1] + gs[0]] + gs[1..])
  {
    var c := Concat(gs);
    ConcatStartsLikeFirst(gs);
    WordsOfConcat(gs);
    assert [WordAt(c, 0)] + WordsFrom(c, WordEnd(c, 0)) == gs;
    WordsGlue(root, c, 0);
    var ws := Words(root);
    var front, tail := ws[..|ws| - 1], [ws[|ws| - 1] + gs[0]] + gs[1..];
    assert Words(root + c) == front + tail;
    WordsAreNotEmpty(root, 0);
    GluedIsPlain(ws[|ws| - 1], gs[0]);
    FoldAppend(front, tail, []);
    FoldPlain(tail, Fold(front, []));
  }

  /** Where a path leads, by its last word. */
  lemma ResolveByLast(s: string)
    requires Words(s) != []
    ensures var ws := Words(s); Resolve(s) == Push(Fold(ws[..|ws| - 1], []), ws[|ws| - 1])
  {
    var ws := Words(s);
    var front, last := ws[..|ws| - 1], ws[|ws| - 1];
    assert ws == front + [last];
    FoldAppend(front, [last], []);
    assert Fold([last], Fold(front, [])) == Push(Fold(front, []), last);
  }

  /** A path glued to a root leads below it exactly if the root does not end in a name. */
  lemma GluedUnderRootIff(root: string, gs: seq<string>)
    requires root != "" && Proper(gs) && gs != [] && gs[0][0] != SLASH
    ensures Resolve(root) <= Resolve(root + Concat(gs)) <==> !EndsInName(root)
  {
    GluedLeads(root, gs);
    ResolveByLast(root);
    hide Fold, Words, Concat, Proper;
    var ws := Words(root);
    var base, last := Fold(ws[..|ws| - 1], []), ws[|ws| - 1];
    var there := base + ([last + gs[0]] + gs[1..]);
    assert there[|base|] == last + gs[0] && there[..|base|] == base;
    assert |last + gs[0]| > |last|;
  }

  /**
    Exactly when a guest path stays under the root: otherwise what is left of its leading blanks is glued to the name
    that the root ends in, and the path leads next to the root.
   */
  lemma UnderRootIff(root: string, cwd: string, g: string)
    requires IsCwd(cwd)
    ensures Resolve(root) <= Resolve(HostString(root, cwd, g)) <==>
      Relative(g) || EmptyOrAbsolute(Canonical(g)) || !EndsInName(root)
  {
    if Relative(g) || EmptyOrAbsolute(Canonical(g)) {
      HostStaysUnderRoot(root, cwd, g);
    } else {
      if Resolve(g) == [] { LeadsNowhere(g); }
      ResolveIsProper(g);
      ConcatStartsLikeFirst(Resolve(g));
      assert root + "" == root;
      if root == "" {
        assert Resolve(root) == [];
      } else {
        GluedUnderRootIff(root, Resolve(g));
      }
    }
  }

  /** A root that ends in a slash keeps every guest path below it. */
  lemma SlashedRootConfines(root: string, cwd: string, g: string)
    requires IsCwd(cwd)
    ensures Resolve(root + [SLASH]) <= Resolve(HostString(root + [SLASH], cwd, g))
  {
    WordOfWord([SLASH]);
    WordsAppend(root, [SLASH], 0);
    assert !EndsInName(root + [SLASH]);
    UnderRootIff(root + [SLASH], cwd, g);
  }

  /** The working directory of the first process. */
  lemma FirstCwd()
    ensures IsCwd("/")
  {
    assert "/"[..0] == "";
  }

  /** Such a path: two blanks in front of the slash. */
  lemma TwoBlanksLeaveRoot()
    ensures !Relative("  /x") && Canonical("  /x") == "  /x" &&
      !(Resolve("/r") <= Resolve(HostString("/r", "/", "  /x")))
  {
    assert AfterBlanks("  /x") == AfterBlanks(" /x") == AfterBlanks("/x") == "/x";
    var ws := ["  ", "/x"];
    assert Concat(ws[..1]) == Concat([]) + "  ";
    assert ws[..1] == ["  "];
    assert Concat(ws) == "  /x";
    assert Name("  ") == " " && Name("/x") == "x" && Name("/r") == "r";
    WordsOfConcat(ws);
    FoldPlain(ws, []);
    WordOfWord("/r");
    FoldPlain(["/r"], []);
    assert Concat(["/r"]) == Concat([]) + "/r";
    FirstCwd();
    UnderRootIff("/r", "/", "  /x");
  }

  /** `call_chdir`, with the path after its blanks. */
  function Chdir(cwd: string, p: string): string {
    Canonical(if Relative(p) then cwd + [SLASH] + AfterBlanks(p) else AfterBlanks(p)) + [SLASH]
  }

  /** Every chdir leaves a working directory. */
  lemma ChdirKeepsCwd(cwd: string, p: string)
    requires IsCwd(cwd)
    ensures IsCwd(Chdir(cwd, p))
  {
    var s := if Relative(p) then cwd + [SLASH] + AfterBlanks(p) else AfterBlanks(p);
    CanonicalIsAbsolute(s);
    Idempotent(s);
    var next := Chdir(cwd, p);
    assert next[..|next| - 1] == Canonical(s);
  }

  /** Where a chdir leads: an absolute path from the root, a relative one from the working directory. */
  lemma ChdirLeadsThere(cwd: string, p: string)
    ensures Resolve(Chdir(cwd, p)) ==
      if Relative(p) then Fold(Words("/" + AfterBlanks(p)), Resolve(cwd)) else Resolve(AfterBlanks(p))
  {
    var s := if Relative(p) then cwd + [SLASH] + AfterBlanks(p) else AfterBlanks(p);
    SlashLeadsNowhere(Canonical(s));
    CanonicalLeadsThere(s);
    if Relative(p) {
      var t := [SLASH] + AfterBlanks(p);
      assert s == cwd + t && t == "/" + AfterBlanks(p);
      WordsAppend(cwd, t, 0);
      FoldAppend(Words(cwd), Words(t), []);
    }
  }

  function TotalLength(ws: seq<string>): nat {
    if ws == [] then 0 else |ws[0]| + TotalLength(ws[1..])
  }

  lemma {:induction false} WordsLength(s: string, i: nat)
    requires i <= |s|
    ensures TotalLength(WordsFrom(s, i)) == |s| - i
    decreases |s| - i
  {
    if i < |s| {
      WordsLength(s, WordEnd(s, i));
      assert WordsFrom(s, i)[1..] == WordsFrom(s, WordEnd(s, i));
    }
  }

  lemma {:induction false} FoldShrinks(ws: seq<string>, stack: seq<string>)
    ensures |Concat(Fold(ws, stack))| <= |Concat(stack)| + TotalLength(ws)
    decreases |ws|
  {
    if ws != [] {
      FoldShrinks(ws[1..], Push(stack, ws[0]));
      assert (stack + [ws[0]])[..|stack|] == stack;
    }
  }

  lemma CanonicalIsShorter(s: string)
    ensures |Canonical(s)| <= |s|
  {
    WordsLength(s, 0);
    FoldShrinks(Words(s), []);
  }

  /** The scan over leading blanks. */
  method IsRelative(guest: array<char>, ghost g: string) returns (relative: bool)
    requires IsString(guest, g)
    ensures relative == Relative(g)
  {
    var i := 0;
    assert g[0..] == g;
    while guest[i] != NUL && guest[i] == ' '
      invariant 0 <= i <= |g| && AfterBlanks(g) == AfterBlanks(g[i..])
      decreases |g| - i
    {
      assert guest[i] == g[i] && g[i..][1..] == g[i + 1..];
      i := i + 1;
    }
    assert i < |g| ==> guest[i] == g[i] && g[i..][0] == g[i];
    relative := guest[i] != SLASH;
  }

  /** `append_string`, with the buffer and the position in it. */
  method AppendString(a: array<char>, at: nat, b: array<char>, ghost before: string, ghost s: string) returns (end: nat)
    requires a != b && IsString(b, s) && at == |before| && at + |s| < a.Length && a[..at] == before && NUL !in before
    modifies a
    ensures end == at + |s| && IsString(a, before + s)
  {
    var i := 0;
    while b[i] != NUL
      invariant 0 <= i <= |s| && a[..at + i] == before + s[..i]
      decreases |s| - i
    {
      assert b[i] == s[i];
      a[at + i] := b[i];
      i := i + 1;
    }
    assert i == |s| && s[..i] == s;
    a[at + i] := NUL;
    end := at + i;
  }

  /** The path part of `do_openat`. */
  method HostPath(root: array<char>, cwd: array<char>, guest: array<char>, host: array<char>,
                  ghost r: string, ghost d: string, ghost g: string)
    requires IsString(root, r) && IsString(cwd, d) && IsString(guest, g)
    requires host.Length == MAX_PATH && host != root && host != cwd && host != guest && |r| + |d| + |g| <= MAX_PATH - 2
    modifies host
    ensures IsString(host, Canonical(HostString(r, d, g)))
    ensures IsCwd(d) && (Relative(g) || EmptyOrAbsolute(Canonical(g))) ==>
      Resolve(HostString(r, d, g)) == Resolve(r) + Below(d, g)
  {
    if IsCwd(d) && (Relative(g) || EmptyOrAbsolute(Canonical(g))) { HostStaysUnderRoot(r, d, g); }
    CanonicalIsShorter(g);
    var relative := IsRelative(guest, g);
    var guestCpath := new char[MAX_PATH](_ => NUL);
    CanonicalizePathName(guestCpath, guest, g);
    var hostPath := new char[MAX_PATH](_ => NUL);
    var end := AppendString(hostPath, 0, root, "", r);
    ghost var front := r;
    if relative {
      end := AppendString(hostPath, end, cwd, r, d);
      front := r + d;
    }
    assert front == r + if Relative(g) then d else "";
    end := AppendString(hostPath, end, guestCpath, front, Canonical(g));
    CanonicalizePathName(host, hostPath, front + Canonical(g));
  }
}
