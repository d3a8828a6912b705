/**
  The per-hart index from guest pc to cache offset: an array kept sorted under the comparator
  `(int)(a - b)`, which wraps around and is an order only on keys within half of the address circle.
 */
module PcIndex {
  import opened Words
  import opened Tables

  const MAX_INSTRUCTIONS: nat := 512

  /** One `struct program_counter_mapping_item`. */
  datatype Item = Item(pc: Word, offset: Word)

  /** `comparing_mapping_item`: the 32-bit difference, read as signed. */
  function Compare(a: Word, b: Word): int {
    Signed(Wrap(a - b))
  }

  /** `k` lies on the half-circle of addresses that starts at `lo`. */
  predicate InArc(lo: Word, k: Word) {
    Wrap(k - lo) < TWO31
  }

  lemma CompareInArc(lo: Word, a: Word, b: Word)
    requires InArc(lo, a) && InArc(lo, b)
    ensures Compare(a, b) == Wrap(a - lo) - Wrap(b - lo)
  {
  }

  // ---- exactly when the wrapping comparator is an order ----

  predicate Before(a: Word, b: Word) {
    Compare(a, b) < 0
  }

  /** The comparator is a strict total order on the keys: asymmetric and transitive. */
  ghost predicate OrdersKeys(keys: set<Word>) {
    && (forall a, b :: a in keys && b in keys && Before(a, b) ==> !Before(b, a))
    && (forall a, b, c :: a in keys && b in keys && c in keys && Before(a, b) && Before(b, c) ==> Before(a, c))
  }

  lemma BeforeIsTotal(a: Word, b: Word)
    ensures a == b || Before(a, b) || Before(b, a)
  {
  }

  lemma OrdersSubset(keys: set<Word>, sub: set<Word>)
    requires OrdersKeys(keys) && sub <= keys
    ensures OrdersKeys(sub)
  {
  }

  ghost predicate IsFirst(keys: set<Word>, lo: Word) {
    lo in keys && forall k :: k in keys ==> k == lo || Before(lo, k)
  }

  lemma ExtendFirst(keys: set<Word>, x: Word, y: Word)
    requires OrdersKeys(keys) && x in keys && IsFirst(keys - {x}, y)
    ensures IsFirst(keys, if Before(x, y) then x else y)
  {
    BeforeIsTotal(x, y);
    if Before(x, y) {
      forall k | k in keys && k != x ensures Before(x, k) {
        assert k in keys - {x};
        assert k == y || Before(y, k);
      }
    } else {
      forall k | k in keys && k != y ensures Before(y, k) {
        assert k == x || k in keys - {x};
      }
    }
  }

  lemma {:induction false} FirstKey(keys: set<Word>) returns (lo: Word)
    requires keys != {} && OrdersKeys(keys)
    ensures IsFirst(keys, lo)
    decreases |keys|
  {
    var x :| x in keys;
    if keys == {x} {
      lo := x;
    } else {
      OrdersSubset(keys, keys - {x});
      var y := FirstKey(keys - {x});
      ExtendFirst(keys, x, y);
      lo := if Before(x, y) then x else y;
    }
  }

  /** The comparator orders a set of keys if and only if they all fit in one half-circle. */
  lemma OrderIffHalfCircle(keys: set<Word>)
    ensures OrdersKeys(keys) <==> keys == {} || exists lo :: lo in keys && forall k :: k in keys ==> InArc(lo, k)
  {
    if keys != {} && OrdersKeys(keys) {
      var lo := FirstKey(keys);
      forall k | k in keys ensures InArc(lo, k) {
        if k != lo {
          assert !Before(k, lo);
        }
      }
    }
    if lo :| lo in keys && forall k :: k in keys ==> InArc(lo, k) {
      forall a, b | a in keys && b in keys ensures Before(a, b) <==> Wrap(a - lo) < Wrap(b - lo) {
        CompareInArc(lo, a, b);
      }
    }
  }

  /** Three keys a third of the circle apart are compared in a cycle, so no array of them is sorted. */
  lemma WideKeysAreNotOrdered()
    ensures Before(0, 0x5000_0000) && Before(0x5000_0000, 0xA000_0000) && Before(0xA000_0000, 0)
    ensures !OrdersKeys({0, 0x5000_0000, 0xA000_0000})
  {
    var keys: set<Word> := {0, 0x5000_0000, 0xA000_0000};
    assert !Before(0, 0xA000_0000);
  }

  // ---- the array and the finite map it stands for ----

  ghost predicate DistinctKeys(s: seq<Item>) {
    forall i, j :: 0 <= i < j < |s| ==> s[i].pc != s[j].pc
  }

  /** The finite map the array stands for. */
  function Entries(s: seq<Item>): map<Word, Word> {
    if s == [] then map[] else Entries(s[..|s| - 1])[s[|s| - 1].pc := s[|s| - 1].offset]
  }

  lemma {:induction false} EntryAt(s: seq<Item>, i: nat)
    requires DistinctKeys(s) && i < |s|
    ensures s[i].pc in Entries(s) && Entries(s)[s[i].pc] == s[i].offset
  {
    if i < |s| - 1 {
      EntryAt(s[..|s| - 1], i);
    }
  }

  lemma {:induction false} EntryFrom(s: seq<Item>, p: Word) returns (i: nat)
    requires p in Entries(s)
    ensures i < |s| && s[i].pc == p
  {
    if s[|s| - 1].pc == p {
      i := |s| - 1;
    } else {
      i := EntryFrom(s[..|s| - 1], p);
    }
  }

  lemma {:induction false} EntriesSize(s: seq<Item>)
    requires DistinctKeys(s)
    ensures |Entries(s)| == |s|
  {
    if s != [] {
      var front := s[..|s| - 1];
      EntriesSize(front);
      if s[|s| - 1].pc in Entries(front) {
        var i := EntryFrom(front, s[|s| - 1].pc);
      }
    }
  }

  function Rank(lo: Word): Item -> int {
    (e: Item) => Wrap(e.pc - lo)
  }

  ghost predicate Indexed(s: seq<Item>, lo: Word) {
    && DistinctKeys(s)
    && (forall i :: 0 <= i < |s| ==> InArc(lo, s[i].pc))
    && Ascending(s, Rank(lo))
  }

  lemma {:induction false} EntriesInsertAt(s: seq<Item>, k: nat, x: Item)
    requires DistinctKeys(s) && k <= |s| && x.pc !in Entries(s)
    ensures DistinctKeys(InsertAt(s, k, x))
    ensures Entries(InsertAt(s, k, x)) == Entries(s)[x.pc := x.offset]
  {
    var t := InsertAt(s, k, x);
    forall i | 0 <= i < |s| ensures s[i].pc != x.pc {
      EntryAt(s, i);
    }
    if k == |s| {
      assert t[..|t| - 1] == s;
    } else {
      var front := s[..|s| - 1];
      assert t[..|t| - 1] == InsertAt(front, k, x);
      EntriesInsertAt(front, k, x);
    }
  }

  lemma InsertedIsIndexed(s: seq<Item>, k: nat, x: Item, lo: Word)
    requires Indexed(s, lo) && k <= |s| && x.pc !in Entries(s) && InArc(lo, x.pc)
    requires Ascending(InsertAt(s, k, x), Rank(lo))
    ensures Indexed(InsertAt(s, k, x), lo)
  {
    EntriesInsertAt(s, k, x);
  }

  lemma RankedInArc(s: seq<Item>, lo: Word)
    requires forall i :: 0 <= i < |s| ==> InArc(lo, s[i].pc)
    ensures RankedBy(s, (x: Item, y: Item) => Compare(x.pc, y.pc), Rank(lo))
  {
    forall i, j | 0 <= i < |s| && 0 <= j < |s|
      ensures Compare(s[i].pc, s[j].pc) == Rank(lo)(s[i]) - Rank(lo)(s[j])
    {
      CompareInArc(lo, s[i].pc, s[j].pc);
    }
  }

  function Against(key: Word): Item -> Verdict {
    (e: Item) => Order(Compare(key, e.pc))
  }

  lemma RankTellsPcs(lo: Word, a: Word, b: Word)
    requires Wrap(a - lo) == Wrap(b - lo)
    ensures a == b
  {
  }

  lemma SearchIsConclusive(s: seq<Item>, lo: Word, key: Word)
    requires Indexed(s, lo) && InArc(lo, key)
    ensures Descending(s, Against(key))
  {
    forall i | 0 <= i < |s| ensures Against(key)(s[i]) == Order(Wrap(key - lo) - Rank(lo)(s[i])) {
      CompareInArc(lo, key, s[i].pc);
    }
    hide Wrap, Compare, InArc, Against;
    forall i, j | 0 <= i < j < |s| && Against(key)(s[i]).sign <= 0 ensures Against(key)(s[j]).sign < 0 {
      assert Rank(lo)(s[i]) <= Rank(lo)(s[j]);
      assert s[i].pc != s[j].pc;
      if Rank(lo)(s[i]) == Rank(lo)(s[j]) { RankTellsPcs(lo, s[i].pc, s[j].pc); }
    }
  }

  class Index {
    const items: array<Item>
    var nr: nat

    ghost predicate Valid()
      reads this, items
    {
      items.Length == MAX_INSTRUCTIONS && nr <= items.Length
    }

    ghost function Used(): seq<Item>
      requires Valid()
      reads this, items
    {
      items[..nr]
    }

    constructor ()
      ensures Valid() && Used() == [] && fresh(items)
    {
      items := new Item[MAX_INSTRUCTIONS](_ => Item(0, 0));
      nr := 0;
    }

    /** The index half of `flush_translation_cache`. */
    method Clear()
      requires Valid()
      modifies this
      ensures Valid() && Used() == []
    {
      nr := 0;
    }

    /**
      `search_translation_item`. A hit always carries the key asked for, whatever the array holds;
      on an index whose keys fit an arc, a hit happens exactly when the key was added.
     */
    method Lookup(key: Word, ghost lo: Word) returns (r: Tables.Lookup)
      requires Valid()
      ensures !r.Died?
      ensures r.Found? ==> r.index < nr && items[r.index].pc == key
      ensures Indexed(Used(), lo) ==> (r.Found? <==> key in Entries(Used()))
      ensures Indexed(Used(), lo) && r.Found? ==> items[r.index].offset == Entries(Used())[key]
    {
      r := Search(items, nr, Against(key));
      if Indexed(Used(), lo) {
        if r.Found? {
          EntryAt(Used(), r.index);
        } else if key in Entries(Used()) {
          var i := EntryFrom(Used(), key);
          SearchIsConclusive(Used(), lo, key);
        }
      }
    }

    /** The index half of `add_translation_item`, for a key that is not in the index yet. */
    method Add(key: Word, offset: Word, ghost lo: Word)
      requires Valid() && nr < MAX_INSTRUCTIONS
      requires Indexed(Used(), lo) && InArc(lo, key) && key !in Entries(Used())
      modifies this, items
      ensures Valid() && nr == old(nr) + 1
      ensures Indexed(Used(), lo)
      ensures Entries(Used()) == old(Entries(Used()))[key := offset]
    {
      ghost var s := Used();
      var x := Item(key, offset);
      items[nr] := x;
      nr := nr + 1;
      assert items[..nr] == s + [x] && items[..nr - 1] == s;
      RankedInArc(items[..nr], lo);
      var k := InsertionSort(items, nr, (x: Item, y: Item) => Compare(x.pc, y.pc), Rank(lo));
      EntriesInsertAt(s, k, x);
      InsertedIsIndexed(s, k, x, lo);
    }
  }
}
