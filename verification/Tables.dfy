/**
  The two table algorithms of `sort.h` and `search.h`, over an arbitrary element type:
  insertion of the last element by binary search, and binary search with endpoint tests.
  A comparator may end the process (a failed assertion inside it); that is the verdict `Fatal`.
 */
module Tables {
  datatype Verdict = Order(sign: int) | Fatal

  datatype Lookup = Found(index: nat) | Missing | Died

  /** Searching goes from positive through at most one zero to negative verdicts. */
  ghost predicate Descending<T>(s: seq<T>, cmp: T -> Verdict) {
    && (forall i :: 0 <= i < |s| ==> cmp(s[i]).Order?)
    && (forall i, j :: 0 <= i < j < |s| && cmp(s[i]).sign <= 0 ==> cmp(s[j]).sign < 0)
  }

  /**
    Binary search. What it returns is always a hit; a miss is conclusive on a descending table,
    that is, it is then the answer of the linear scan; and it dies only on a fatal comparison.
   */
  method Search<T>(a: array<T>, num: nat, cmp: T -> Verdict) returns (r: Lookup)
    requires num <= a.Length
    ensures r.Found? ==> r.index < num && cmp(a[r.index]) == Order(0)
    ensures r.Died? ==> exists i :: 0 <= i < num && cmp(a[i]).Fatal?
    ensures r.Missing? && Descending(a[..num], cmp) ==> forall i :: 0 <= i < num ==> cmp(a[i]) != Order(0)
    ensures 0 < num && (forall i :: 0 <= i < num ==> cmp(a[i]).Fatal?) ==> r.Died?
  {
    var low, high := 0, num - 1;
    ghost var s := a[..num];
    while low <= high
      invariant 0 <= low && high < num
      invariant low <= high || num == 0
      invariant (forall i :: 0 <= i < num ==> cmp(a[i]).Fatal?) ==> low == 0 && high == num - 1
      invariant Descending(s, cmp) ==>
        forall i :: 0 <= i < num && !(low <= i <= high) ==> cmp(s[i]) != Order(0)
      decreases high - low
    {
      var atLow, atHigh := cmp(a[low]), cmp(a[high]);
      if atLow.Fatal? { return Died; }
      if atLow.sign == 0 { return Found(low); }
      if atHigh.Fatal? { return Died; }
      if atHigh.sign == 0 { return Found(high); }
      var mid := (low + high) / 2;
      if mid == low || mid == high {
        assert Descending(s, cmp) ==> forall i :: 0 <= i < num ==> cmp(s[i]) != Order(0);
        return Missing;
      }
      var atMid := cmp(a[mid]);
      if atMid.Fatal? { return Died; }
      if atMid.sign < 0 {
        assert Descending(s, cmp) ==> forall i :: mid < i < num ==> cmp(s[i]).sign < 0;
        high := mid;
      } else {
        assert Descending(s, cmp) ==> forall i :: 0 <= i < mid ==> cmp(s[i]).sign > 0;
        low := mid;
      }
    }
    return Missing;
  }

  /** The comparator orders the elements of `s` the way their ranks are ordered. */
  ghost predicate RankedBy<T(!new)>(s: seq<T>, comp: (T, T) -> int, rank: T -> int) {
    forall i, j :: 0 <= i < |s| && 0 <= j < |s| ==>
      && (comp(s[i], s[j]) < 0 <==> rank(s[i]) < rank(s[j]))
      && (comp(s[i], s[j]) == 0 <==> rank(s[i]) == rank(s[j]))
  }

  ghost predicate Ascending<T(!new)>(s: seq<T>, rank: T -> int) {
    forall i, j :: 0 <= i < j < |s| ==> rank(s[i]) <= rank(s[j])
  }

  function InsertAt<T>(s: seq<T>, k: nat, x: T): seq<T>
    requires k <= |s|
  {
    s[..k] + [x] + s[k..]
  }

  /** The index at which `INSERTION_SORT` decides to put the last element of `s`. */
  method InsertionPoint<T(!new)>(s: seq<T>, comp: (T, T) -> int, ghost rank: T -> int) returns (move: nat)
    requires 0 < |s|
    ensures move < |s|
    ensures RankedBy(s, comp, rank) && Ascending(s[..|s| - 1], rank) ==>
      && (forall i :: 0 <= i < move ==> rank(s[i]) <= rank(s[|s| - 1]))
      && (forall i :: move <= i < |s| - 1 ==> rank(s[|s| - 1]) <= rank(s[i]))
  {
    var last := |s| - 1;
    var low, high := 0, last - 1;
    ghost var ordered := RankedBy(s, comp, rank) && Ascending(s[..last], rank);
    assert ordered ==> forall i, j :: 0 <= i < j < last ==> rank(s[i]) <= rank(s[j]) by {
      assert forall i :: 0 <= i < last ==> s[..last][i] == s[i];
    }
    move := 0;
    while low <= high
      invariant 0 <= low <= last && -1 <= high < last
      invariant low <= high || (last == 0 && move == 0)
      invariant ordered ==> forall i :: 0 <= i < low ==> rank(s[i]) <= rank(s[last])
      invariant ordered ==> forall i :: high < i < last ==> rank(s[last]) <= rank(s[i])
      decreases high - low
    {
      if comp(s[last], s[low]) <= 0 {
        move := low;
        break;
      } else if comp(s[high], s[last]) <= 0 {
        move := high + 1;
        break;
      } else {
        var mid := (low + high) / 2;
        if mid == low || mid == high {
          move := mid + 1;
          break;
        }
        if comp(s[last], s[mid]) < 0 {
          high := mid;
        } else {
          low := mid;
        }
      }
    }
  }

  lemma InsertedIsAscending<T(!new)>(s: seq<T>, k: nat, x: T, rank: T -> int)
    requires k <= |s| && Ascending(s, rank)
    requires forall i :: 0 <= i < k ==> rank(s[i]) <= rank(x)
    requires forall i :: k <= i < |s| ==> rank(x) <= rank(s[i])
    ensures Ascending(InsertAt(s, k, x), rank)
  {
  }

  /** The shifting loop of `INSERTION_SORT`. */
  method ShiftUp<T>(a: array<T>, num: nat, k: nat)
    requires k < num <= a.Length
    modifies a
    ensures a[..num] == InsertAt(old(a[..num - 1]), k, old(a[num - 1]))
    ensures a[num..] == old(a[num..])
  {
    if k < num - 1 {
      var saved := a[num - 1];
      var idx := num - 1;
      while idx > k
        invariant k <= idx <= num - 1
        invariant forall i :: 0 <= i < idx ==> a[i] == old(a[i])
        invariant forall i :: idx < i < num ==> a[i] == old(a[i - 1])
        invariant forall i :: num <= i < a.Length ==> a[i] == old(a[i])
      {
        a[idx] := a[idx - 1];
        idx := idx - 1;
      }
      a[k] := saved;
    }
    ghost var s := old(a[..num - 1]);
    assert forall i :: 0 <= i < num - 1 ==> s[i] == old(a[i]);
    assert forall i :: 0 <= i < num ==> a[..num][i] == InsertAt(s, k, old(a[num - 1]))[i];
  }

  /** `INSERTION_SORT`: the last of the `num` elements moves to index `k`, the others keep their order. */
  method InsertionSort<T(!new)>(a: array<T>, num: nat, comp: (T, T) -> int, ghost rank: T -> int) returns (k: nat)
    requires num <= a.Length
    modifies a
    ensures num == 0 ==> a[..] == old(a[..])
    ensures 0 < num ==> k < num && a[..num] == InsertAt(old(a[..num - 1]), k, old(a[num - 1]))
    ensures a[num..] == old(a[num..])
    ensures 0 < num && RankedBy(old(a[..num]), comp, rank) && Ascending(old(a[..num - 1]), rank) ==>
      Ascending(a[..num], rank)
  {
    k := 0;
    if num == 0 { return; }
    k := InsertionPoint(a[..num], comp, rank);
    ghost var s, x := a[..num - 1], a[num - 1];
    assert a[..num][..num - 1] == s;
    if RankedBy(a[..num], comp, rank) && Ascending(s, rank) {
      forall i | 0 <= i < num - 1 ensures s[i] == a[..num][i] {}
      InsertedIsAscending(s, k, x, rank);
    }
    ShiftUp(a, num, k);
  }
}
