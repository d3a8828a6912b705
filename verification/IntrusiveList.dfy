/**
  The intrusive doubly linked list: a head whose `next` and `prev` are the first and the last
  element, and elements linked both ways with null at the ends. It stands for a sequence.
 */
module IntrusiveList {
  import opened Collections

  /**
    The structure that a list head or a list element is embedded in; CONTAINER_OF leads from an element to it.
    Elements: the scheduling link of a hart, the registration of its task, the wait-queue entry of `pid` with the task
    `child`, and the wait blob of `waiter` for the task `pid`. Heads: the four global lists, a wait queue, a blob list.
   */
  datatype Site =
    | HartOf(pid: int) | VmOf(pid: int) | EntryOf(pid: int, child: int) | BlobOf(waiter: int, pid: int)
    | RunningHead | BlockingHead | ExitingHead | GlobalHead | QueueHead(child: int) | BlobHead(waiter: int)

  /** An element with no neighbours. */
  ghost predicate Loose(elem: Elem)
    reads elem
  {
    elem.prev == null && elem.next == null
  }

  class Elem {
    var prev: Elem?
    var next: Elem?
    const site: Site

    constructor (site: Site)
      ensures Loose(this) && this.site == site
    {
      prev, next, this.site := null, null, site;
    }
  }

  /** An element that is its own neighbour on both sides: a traversal never leaves it. */
  ghost predicate Looped(elem: Elem)
    reads elem
  {
    elem.prev == elem && elem.next == elem
  }

  /** The element after index `i` once the one at `k` is skipped; index -1 is the head. */
  ghost function After(s: seq<Elem>, k: nat, i: int): Elem?
    requires -1 <= i < |s|
  {
    var j := if i + 1 == k then i + 2 else i + 1;
    if j < |s| then s[j] else null
  }

  /** The element before index `i` once the one at `k` is skipped; index |s| is the head. */
  ghost function Before(s: seq<Elem>, k: nat, i: int): Elem?
    requires 0 <= i <= |s|
  {
    var j := if i - 1 == k then i - 2 else i - 1;
    if j >= 0 then s[j] else null
  }

  lemma SkippedEnds(s: seq<Elem>, k: nat)
    requires k < |s|
    ensures var t := Without(s, k);
      && |t| == |s| - 1
      && After(s, k, -1) == (if t == [] then null else t[0])
      && Before(s, k, |s|) == (if t == [] then null else t[|t| - 1])
  {
  }

  lemma Skipped(s: seq<Elem>, k: nat, i: nat)
    requires k < |s| && i < |s| - 1
    ensures var t, j := Without(s, k), if i < k then i else i + 1;
      && |t| == |s| - 1 && t[i] == s[j] && j != k
      && After(s, k, j) == (if i + 1 < |t| then t[i + 1] else null)
      && Before(s, k, j) == (if i > 0 then t[i - 1] else null)
  {
  }

  class List {
    var prev: Elem?
    var next: Elem?
    ghost const site: Site
    ghost var nodes: seq<Elem>

    ghost predicate Valid()
      reads this, nodes
    {
      && Distinct(nodes)
      && (nodes == [] ==> next == null && prev == null)
      && (nodes != [] ==>
           && next == nodes[0] && nodes[0].prev == null
           && prev == nodes[|nodes| - 1] && nodes[|nodes| - 1].next == null)
      && (forall i :: 0 <= i < |nodes| - 1 ==> nodes[i].next == nodes[i + 1])
      && (forall i :: 0 < i < |nodes| ==> nodes[i].prev == nodes[i - 1])
    }

    constructor (ghost site: Site)
      ensures Valid() && nodes == [] && this.site == site
    {
      prev, next, nodes, this.site := null, null, [], site;
    }

    lemma HasNeighbour(k: nat)
      requires Valid() && k < |nodes| && |nodes| > 1
      ensures !Loose(nodes[k])
    {
      if k == 0 {
        assert nodes[0].next == nodes[1];
      } else {
        assert nodes[k].prev == nodes[k - 1];
      }
    }

    /** A member without neighbours is the only one. */
    lemma LooseIsAlone(elem: Elem)
      requires Valid() && elem in nodes && Loose(elem)
      ensures nodes == [elem]
    {
      var k :| 0 <= k < |nodes| && nodes[k] == elem;
      if |nodes| > 1 { HasNeighbour(k); }
    }

    /**
      `list_append`: its assertions fail on an attached element;
        a loose one that is no member becomes the last. They pass
      on the only member of the list, which is then linked to itself.
     */
    method Append(elem: Elem) returns (died: bool)
      requires Valid()
      modifies this, nodes, elem
      ensures died <==> old(!Loose(elem))
      ensures died ==> Valid() && nodes == old(nodes)
      ensures !died && elem !in old(nodes) ==> Valid() && nodes == old(nodes) + [elem]
      ensures !died && elem in old(nodes) ==> old(nodes) == [elem] && Looped(elem) && next == prev == elem
    {
      if elem.prev != null || elem.next != null { return true; }
      died := false;
      if elem in nodes { LooseIsAlone(elem); }
      if next == null {
        next := elem;
      }
      if prev != null {
        elem.prev := prev;
        prev.next := elem;
      }
      prev := elem;
      nodes := nodes + [elem];
    }

    /** `list_prepend`: likewise, at the front. */
    method Prepend(elem: Elem) returns (died: bool)
      requires Valid()
      modifies this, nodes, elem
      ensures died <==> old(!Loose(elem))
      ensures died ==> Valid() && nodes == old(nodes)
      ensures !died && elem !in old(nodes) ==> Valid() && nodes == [elem] + old(nodes)
      ensures !died && elem in old(nodes) ==> old(nodes) == [elem] && Looped(elem) && next == prev == elem
    {
      if elem.prev != null || elem.next != null { return true; }
      died := false;
      if elem in nodes { LooseIsAlone(elem); }
      if next != null {
        elem.next := next;
        next.prev := elem;
      }
      next := elem;
      if prev == null {
        prev := elem;
      }
      nodes := [elem] + nodes;
    }

    /** `list_pop`: from the tail; null on an empty list. The asserts are the source's own. */
    method Pop() returns (elem: Elem?)
      requires Valid()
      modifies this, nodes
      ensures Valid()
      ensures old(nodes) == [] ==> elem == null && nodes == []
      ensures old(nodes) != [] ==>
        elem == old(nodes)[|old(nodes)| - 1] && nodes == old(nodes)[..|old(nodes)| - 1] && elem.prev == null &&
          elem.next == null
    {
      if next == null { return null; }
      assert prev != null;
      elem := prev;
      ghost var n := |nodes|;
      assert elem.prev == if n == 1 then null else nodes[n - 2];
      assert n > 1 ==> nodes[n - 2] in nodes;
      prev := elem.prev;
      if elem.prev != null {
        elem.prev.next := null;
      } else {
        next := null;
      }
      elem.prev := null;
      assert elem.next == null;
      nodes := nodes[..|nodes| - 1];
    }

    /** `list_fetch`: from the front; null on an empty list. */
    method Fetch() returns (elem: Elem?)
      requires Valid()
      modifies this, nodes
      ensures Valid()
      ensures old(nodes) == [] ==> elem == null && nodes == []
      ensures old(nodes) != [] ==>
        elem == old(nodes)[0] && nodes == old(nodes)[1..] && elem.prev == null && elem.next == null
    {
      if next == null { return null; }
      assert prev != null;
      elem := next;
      assert elem.next == if |nodes| == 1 then null else nodes[1];
      assert |nodes| > 1 ==> nodes[1] in nodes;
      next := elem.next;
      if elem.next != null {
        elem.next.prev := null;
      } else {
        prev := null;
      }
      elem.next := null;
      assert elem.prev == null;
      nodes := nodes[1..];
    }

    /** The traversal of LIST_FOREACH, looking for one element. */
    method Find(elem: Elem) returns (found: bool)
      requires Valid()
      ensures found <==> elem in nodes
    {
      var cursor := next;
      ghost var i := 0;
      while cursor != null
        invariant 0 <= i <= |nodes|
        invariant cursor == if i < |nodes| then nodes[i] else null
        invariant elem !in nodes[..i]
        decreases |nodes| - i
      {
        if cursor == elem { return true; }
        cursor, i := cursor.next, i + 1;
      }
      return false;
    }

    /** `element_in_list`: the fast path for detached elements does not change the answer. */
    method Contains(elem: Elem) returns (found: bool)
      requires Valid()
      ensures found <==> elem in nodes
    {
      if elem.next == null && elem.prev == null && next != elem && prev != elem {
        forall k | 0 <= k < |nodes| ensures nodes[k] != elem {
          assert k == 0 || nodes[k].prev == nodes[k - 1];
        }
        return false;
      }
      found := Find(elem);
    }

    /** The pointer surgery: the neighbours of `elem`, or the head, now point past it. */
    method Bypass(elem: Elem, ghost k: nat)
      requires Valid() && k < |nodes| && nodes[k] == elem
      modifies this, nodes
      ensures nodes == old(nodes) && elem.prev == null && elem.next == null
      ensures next == After(nodes, k, -1) && prev == Before(nodes, k, |nodes|)
      ensures forall i :: 0 <= i < |nodes| && i != k ==>
        nodes[i].next == After(nodes, k, i) && nodes[i].prev == Before(nodes, k, i)
    {
      ghost var s, n := nodes, |nodes|;
      assert elem.next == if k + 1 < n then s[k + 1] else null;
      assert elem.prev == if k > 0 then s[k - 1] else null;
      assert (k + 1 < n ==> s[k + 1] in s) && (k > 0 ==> s[k - 1] in s);
      assert prev == elem <==> k == n - 1;
      assert next == elem <==> k == 0;
      if prev == elem {
        assert elem.next == null;
        prev := elem.prev;
      }
      if next == elem {
        assert elem.prev == null;
        next := elem.next;
      }
      if elem.next != null {
        elem.next.prev := elem.prev;
      }
      if elem.prev != null {
        elem.prev.next := elem.next;
      }
      elem.prev := null;
      elem.next := null;
    }

    method Unlink(elem: Elem, ghost k: nat)
      requires Valid() && k < |nodes| && nodes[k] == elem
      modifies this, nodes
      ensures Valid() && nodes == Without(old(nodes), k) && elem !in nodes && elem.prev == null && elem.next == null
    {
      hide After, Before, Without, Distinct;
      ghost var s := nodes;
      WithoutMembers(s, k);
      SkippedEnds(s, k);
      Bypass(elem, k);
      nodes := Without(nodes, k);
      forall i | 0 <= i < |nodes|
        ensures nodes[i].next == (if i + 1 < |nodes| then nodes[i + 1] else null) &&
          nodes[i].prev == (if i > 0 then nodes[i - 1] else null)
      {
        Skipped(s, k, i);
      }
      if nodes != [] {
        Skipped(s, k, 0);
        Skipped(s, k, |nodes| - 1);
      }
    }

    /** `list_delete`; an element that is not in the list ends the process. */
    method Delete(elem: Elem) returns (died: bool, ghost k: nat)
      requires Valid()
      modifies this, nodes
      ensures died <==> elem !in old(nodes)
      ensures died ==> nodes == old(nodes) && Valid()
      ensures !died ==> k < |old(nodes)| && old(nodes)[k] == elem && nodes == Without(old(nodes), k)
      ensures !died ==> Valid() && elem !in nodes && elem.prev == null && elem.next == null
    {
      var found := Find(elem);
      if !found { return true, 0; }
      k :| 0 <= k < |nodes| && nodes[k] == elem;
      Unlink(elem, k);
      died := false;
    }
  }

  // ---- many lists ----

  /** The frame of a list: nothing it consists of has changed. */
  twostate predicate Untouched(l: List)
    reads l, l.nodes
  {
    l.nodes == old(l.nodes) && l.prev == old(l.prev) && l.next == old(l.next)
    && forall x :: x in l.nodes ==> x.prev == old(x.prev) && x.next == old(x.next)
  }

  twostate lemma UntouchedStaysValid(l: List)
    requires old(l.Valid()) && Untouched(l)
    ensures l.Valid()
  {
    assert forall i :: 0 <= i < |l.nodes| ==> l.nodes[i] in l.nodes;
  }

  /** What the lists of a set stand for. */
  ghost function Nodes(ls: set<List>): (n: map<List, seq<Elem>>)
    reads ls
    ensures n.Keys == ls && forall l :: l in ls ==> n[l] == l.nodes
  {
    map l | l in ls :: l.nodes
  }

  /** `x` is in no list of `n`. */
  ghost predicate Outside(n: map<List, seq<Elem>>, x: Elem) {
    forall l :: l in n ==> x !in n[l]
  }

  /** No element is in two lists. */
  ghost predicate Scattered(n: map<List, seq<Elem>>) {
    forall l, m, x :: l in n && m in n && l != m && x in n[l] ==> x !in n[m]
  }

  /** Well-formed lists over common elements: an element is in one of them or it is loose. */
  ghost predicate Pool(ls: set<List>, es: set<Elem>)
    reads ls, es
  {
    && (forall l, x :: l in ls && x in l.nodes ==> x in es)
    && (forall l :: l in ls ==> l.Valid())
    && Scattered(Nodes(ls))
    && (forall x :: x in es && Outside(Nodes(ls), x) ==> Loose(x))
  }

  lemma AppendScatters(n: map<List, seq<Elem>>, l: List, x: Elem)
    requires Scattered(n) && l in n && Outside(n, x)
    ensures Scattered(n[l := n[l] + [x]])
    ensures forall y :: Outside(n[l := n[l] + [x]], y) <==> Outside(n, y) && y != x
  {
    var n' := n[l := n[l] + [x]];
    forall y ensures Outside(n', y) <==> Outside(n, y) && y != x {
      if Outside(n', y) {
        assert y !in n'[l];
        forall m | m in n ensures y !in n[m] { assert y !in n'[m]; }
      }
    }
  }

  lemma RemoveScatters(n: map<List, seq<Elem>>, l: List, k: nat)
    requires Scattered(n) && l in n && k < |n[l]| && Distinct(n[l])
    ensures var n' := n[l := Without(n[l], k)];
      && Scattered(n') && Outside(n', n[l][k])
      && forall y :: Outside(n', y) <==> Outside(n, y) || y == n[l][k]
  {
    var n', x := n[l := Without(n[l], k)], n[l][k];
    WithoutMembers(n[l], k);
    hide Without, Distinct;
    forall y ensures Outside(n', y) <==> Outside(n, y) || y == x {
      if Outside(n', y) && y != x {
        forall m | m in n ensures y !in n[m] { assert y !in n'[m]; }
      }
    }
  }

  lemma ScatteredAt(n: map<List, seq<Elem>>, l: List, m: List)
    requires Scattered(n) && l in n && m in n && l != m
    ensures forall y :: y in n[l] ==> y !in n[m]
  {
  }

  /** Where an operation takes place: at the list `l` and the element `x` of a pool. */
  datatype Place = Place(ls: set<List>, es: set<Elem>, l: List, x: Elem?)

  /**
    An operation has touched no list but `l` and no element but those of `l` and `x`; all others are as good as
    before.
   */
  twostate lemma OthersStayValid(p: Place)
    requires old(Pool(p.ls, p.es)) && p.l in p.ls
    requires p.x != null ==> p.x in old(p.l.nodes) || old(Outside(Nodes(p.ls), p.x))
    requires forall m :: m in p.ls && m != p.l ==>
      m.nodes == old(m.nodes) && m.prev == old(m.prev) && m.next == old(m.next)
    requires forall y :: y in p.es && y != p.x && y !in old(p.l.nodes) ==>
      y.prev == old(y.prev) && y.next == old(y.next)
    ensures forall m :: m in p.ls && m != p.l ==> m.Valid()
    ensures Nodes(p.ls) == old(Nodes(p.ls))[p.l := p.l.nodes]
    ensures forall y :: y in p.es && y != p.x && Outside(old(Nodes(p.ls)), y) ==> Loose(y)
  {
    hide List.Valid, Scattered;
    forall y | y in p.es && y != p.x && Outside(old(Nodes(p.ls)), y) ensures Loose(y) {
      assert y !in old(Nodes(p.ls))[p.l];
    }
    forall m | m in p.ls && m != p.l ensures m.Valid() {
      ScatteredAt(old(Nodes(p.ls)), m, p.l);
      UntouchedStaysValid(m);
    }
  }

  /** `list_append` of an element that is in no list. */
  method AppendTo(ghost ls: set<List>, ghost es: set<Elem>, l: List, x: Elem) returns (died: bool)
    requires Pool(ls, es) && l in ls && x in es
    modifies l, l.nodes, x
    ensures Outside(old(Nodes(ls)), x) ==> !died && Pool(ls, es) && Nodes(ls) == old(Nodes(ls))[l := old(l.nodes) + [x]]
  {
    ghost var n := Nodes(ls);
    died := l.Append(x);
    if Outside(n, x) {
      AppendScatters(n, l, x);
      hide List.Valid, Nodes, Scattered, Outside;
      OthersStayValid(Place(ls, es, l, x));
    }
  }

  lemma ValidIsDistinct(l: List)
    requires l.Valid()
    ensures Distinct(l.nodes)
  {
  }

  /** `list_delete`: it dies exactly on an element that is not in the list. */
  method DeleteFrom(ghost ls: set<List>, ghost es: set<Elem>, l: List, x: Elem) returns (died: bool, ghost k: nat)
    requires Pool(ls, es) && l in ls && x in es
    modifies l, l.nodes
    ensures died <==> x !in old(l.nodes)
    ensures !died ==> k < |old(l.nodes)| && old(l.nodes)[k] == x
    ensures !died ==> Pool(ls, es) && Outside(Nodes(ls), x)
    ensures !died ==> Nodes(ls) == old(Nodes(ls))[l := Without(old(l.nodes), k)]
  {
    ghost var n := Nodes(ls);
    ValidIsDistinct(l);
    died, k := l.Delete(x);
    if !died {
      RemoveScatters(n, l, k);
      WithoutMembers(n[l], k);
      hide List.Valid, Nodes, Scattered, Without, Distinct, Outside;
      OthersStayValid(Place(ls, es, l, x));
    }
  }

  lemma FirstIsWithout(s: seq<Elem>)
    requires s != []
    ensures Without(s, 0) == s[1..]
  {
  }

  method FirstOf(l: List) returns (x: Elem)
    requires l.Valid() && l.nodes != []
    modifies l, l.nodes
    ensures l.Valid() && x == old(l.nodes)[0] && l.nodes == Without(old(l.nodes), 0) && Loose(x)
  {
    FirstIsWithout(l.nodes);
    x := l.Fetch();
  }

  method TakeFirst(ghost ls: set<List>, ghost es: set<Elem>, l: List) returns (x: Elem)
    requires Pool(ls, es) && l in ls && l.nodes != []
    modifies l, l.nodes
    ensures Pool(ls, es) && x == old(l.nodes)[0] && x in es
    ensures Nodes(ls) == old(Nodes(ls))[l := Without(old(l.nodes), 0)] && Outside(Nodes(ls), x)
  {
    ghost var n := Nodes(ls);
    ValidIsDistinct(l);
    RemoveScatters(n, l, 0);
    WithoutMembers(n[l], 0);
    x := FirstOf(l);
    hide List.Valid, Nodes, Scattered, Without, Distinct, Outside;
    OthersStayValid(Place(ls, es, l, x));
  }

  /** `list_fetch`. */
  method FetchFrom(ghost ls: set<List>, ghost es: set<Elem>, l: List) returns (x: Elem?)
    requires Pool(ls, es) && l in ls
    modifies l, l.nodes
    ensures Pool(ls, es) && (x == null <==> old(l.nodes) == [])
    ensures x == null ==> Nodes(ls) == old(Nodes(ls))
    ensures x != null ==> x == old(l.nodes)[0] && x in es
    ensures x != null ==> Nodes(ls) == old(Nodes(ls))[l := old(l.nodes)[1..]] && Outside(Nodes(ls), x)
  {
    if l.next == null { return null; }
    FirstIsWithout(l.nodes);
    x := TakeFirst(ls, es, l);
  }

  lemma PoolHolds(ls: set<List>, es: set<Elem>, l: List, k: nat)
    requires Pool(ls, es) && l in ls && k < |l.nodes|
    ensures l.nodes[k] in es && forall x :: x in l.nodes ==> x in es
  {
  }

  lemma PoolElems(ls: set<List>, es: set<Elem>, l: List)
    requires Pool(ls, es) && l in ls
    ensures forall x :: x in l.nodes ==> x in es
  {
  }

  /** Deleting an element from one list and appending it to another. */
  method Transfer(ghost ls: set<List>, ghost es: set<Elem>, from: List, to: List, x: Elem, ghost k: nat)
    returns (died: bool)
    requires Pool(ls, es) && from in ls && to in ls && from != to && k < |from.nodes| && from.nodes[k] == x
    modifies from, to, es
    ensures !died && Pool(ls, es)
    ensures Nodes(ls) == old(Nodes(ls))[from := Without(old(from.nodes), k)][to := old(to.nodes) + [x]]
  {
    ValidIsDistinct(from);
    hide Pool, Outside, Without;
    PoolHolds(ls, es, from, k);
    ghost var j;
    died, j := DeleteFrom(ls, es, from, x);
    assert j == k;
    if died { return; }
    PoolElems(ls, es, to);
    died := AppendTo(ls, es, to, x);
  }

  /** Empty lists, and no elements. */
  lemma EmptyPool(ls: set<List>)
    requires forall l :: l in ls ==> l.Valid() && l.nodes == []
    ensures Pool(ls, {}) && forall l :: l in ls ==> Nodes(ls)[l] == []
  {
  }

  /** A new, empty list joins. */
  lemma PoolGrows(ls: set<List>, es: set<Elem>, l: List)
    requires Pool(ls, es) && l !in ls && l.Valid() && l.nodes == []
    ensures Pool(ls + {l}, es) && Nodes(ls + {l}) == Nodes(ls)[l := []]
  {
    hide List.Valid;
    var n, n' := Nodes(ls), Nodes(ls + {l});
    assert n' == n[l := []];
    forall x | x in es && Outside(n', x) ensures Loose(x) {
      forall m | m in n ensures x !in n[m] { assert x !in n'[m]; }
    }
  }

  /** A new, loose element joins. */
  lemma PoolTakes(ls: set<List>, es: set<Elem>, x: Elem)
    requires Pool(ls, es) && Loose(x)
    ensures Pool(ls, es + {x})
  {
    hide List.Valid;
  }

  // ---- removing while traversing ----

  /** What a traversal does with the element it visits. */
  datatype Move = Stay | ToFirst | ToSecond | Die

  /** The elements that `move` sends to `goal`. */
  function Bound(move: Elem -> Move, goal: Move): Elem -> bool {
    (x: Elem) => move(x) == goal
  }

  /** After `i` visits of a traversal of `s`: what is left, and what the two other lists have collected. */
  ghost predicate Swept(s: seq<Elem>, move: Elem -> Move, i: nat, a: seq<Elem>, b: seq<Elem>, l: seq<Elem>,
                        x: seq<Elem>, y: seq<Elem>) {
    && i <= |s|
    && l == Filter(s[..i], Bound(move, Stay)) + s[i..]
    && x == a + Filter(s[..i], Bound(move, ToFirst))
    && y == b + Filter(s[..i], Bound(move, ToSecond))
  }

  lemma SweptStep(s: seq<Elem>, move: Elem -> Move, i: nat, a: seq<Elem>, b: seq<Elem>, l: seq<Elem>, x: seq<Elem>,
                  y: seq<Elem>)
    returns (k: nat)
    requires Swept(s, move, i, a, b, l, x, y) && i < |s|
    ensures k < |l| && l[k] == s[i] && (k + 1 < |l| <==> i + 1 < |s|) && (i + 1 < |s| ==> l[k + 1] == s[i + 1])
    ensures move(s[i]) == Stay ==> Swept(s, move, i + 1, a, b, l, x, y)
    ensures move(s[i]) == ToFirst ==> Swept(s, move, i + 1, a, b, Without(l, k), x + [s[i]], y)
    ensures move(s[i]) == ToSecond ==> Swept(s, move, i + 1, a, b, Without(l, k), x, y + [s[i]])
  {
    k := |Filter(s[..i], Bound(move, Stay))|;
    SweepStep(s, i, Bound(move, Stay), l);
    CollectStep(s, i, Bound(move, ToFirst), a, x);
    CollectStep(s, i, Bound(move, ToSecond), b, y);
  }

  lemma SweptStart(s: seq<Elem>, move: Elem -> Move, a: seq<Elem>, b: seq<Elem>)
    ensures Swept(s, move, 0, a, b, s, a, b)
  {
    assert s[..0] == [] && s[0..] == s;
  }

  lemma SweptEnd(s: seq<Elem>, move: Elem -> Move, a: seq<Elem>, b: seq<Elem>, l: seq<Elem>, x: seq<Elem>, y: seq<Elem>)
    requires Swept(s, move, |s|, a, b, l, x, y)
    ensures l == Filter(s, Bound(move, Stay)) && x == a + Filter(s, Bound(move, ToFirst)) &&
      y == b + Filter(s, Bound(move, ToSecond))
  {
    assert s[..|s|] == s;
  }

  lemma FirstNode(ls: set<List>, es: set<Elem>, l: List)
    requires Pool(ls, es) && l in ls
    ensures l.next == if l.nodes == [] then null else l.nodes[0]
  {
  }

  lemma NextNode(ls: set<List>, es: set<Elem>, l: List, k: nat)
    requires Pool(ls, es) && l in ls && k < |l.nodes|
    ensures l.nodes[k].next == if k + 1 < |l.nodes| then l.nodes[k + 1] else null
  {
  }

  /** The lists of `n`, three of them changed. */
  ghost function Changed(n: map<List, seq<Elem>>, from: List, first: List, second: List, l: seq<Elem>, x: seq<Elem>,
                         y: seq<Elem>): map<List, seq<Elem>> {
    n[from := l][first := x][second := y]
  }

  lemma ChangedNothing(n: map<List, seq<Elem>>, from: List, first: List, second: List)
    requires {from, first, second} <= n.Keys
    ensures Changed(n, from, first, second, n[from], n[first], n[second]) == n
  {
  }

  /** How far a traversal has come: the lists at its start, the elements to visit, and how many have been. */
  datatype Progress = Progress(n: map<List, seq<Elem>>, s: seq<Elem>, i: nat, a: seq<Elem>, b: seq<Elem>)

  lemma ChangedAgain(n: map<List, seq<Elem>>, from: List, first: List, second: List, l: seq<Elem>, x: seq<Elem>,
                     y: seq<Elem>)
    requires from != first && from != second && first != second
    ensures var m := Changed(n, from, first, second, l, x, y);
      && (forall l', x' :: m[from := l'][first := x'] == Changed(n, from, first, second, l', x', y))
      && (forall l', y' :: m[from := l'][second := y'] == Changed(n, from, first, second, l', x, y'))
  {
  }

  /** One visit: `next` is read, then the element may move. */
  method Visit(ghost ls: set<List>, ghost es: set<Elem>, from: List, first: List, second: List, move: Elem -> Move,
               cursor: Elem, ghost p: Progress)
    returns (following: Elem?)
    requires Pool(ls, es) && {from, first, second} <= ls && from != first && from != second && first != second
    requires p.i < |p.s| && cursor == p.s[p.i] && move(cursor) != Die
    requires Nodes(ls) == Changed(p.n, from, first, second, from.nodes, first.nodes, second.nodes)
    requires Swept(p.s, move, p.i, p.a, p.b, from.nodes, first.nodes, second.nodes)
    modifies from, first, second, es
    ensures Pool(ls, es) && following == if p.i + 1 < |p.s| then p.s[p.i + 1] else null
    ensures Nodes(ls) == Changed(p.n, from, first, second, from.nodes, first.nodes, second.nodes)
    ensures Swept(p.s, move, p.i + 1, p.a, p.b, from.nodes, first.nodes, second.nodes)
  {
    hide Pool, List.Valid, Filter, Swept, Bound, Without, Changed;
    ghost var k := SweptStep(p.s, move, p.i, p.a, p.b, from.nodes, first.nodes, second.nodes);
    ChangedAgain(p.n, from, first, second, from.nodes, first.nodes, second.nodes);
    NextNode(ls, es, from, k);
    following := cursor.next;
    var died;
    match move(cursor) {
      case Stay =>
      case ToFirst => died := Transfer(ls, es, from, first, cursor, k);
      case ToSecond => died := Transfer(ls, es, from, second, cursor, k);
    }
  }

  /** The visitor dies on none of the first `i` elements. */
  ghost predicate Spared(s: seq<Elem>, move: Elem -> Move, i: nat)
    requires i <= |s|
  {
    forall j :: 0 <= j < i ==> move(s[j]) != Die
  }

  lemma SparedStep(s: seq<Elem>, move: Elem -> Move, i: nat)
    requires i < |s| && Spared(s, move, i)
    ensures if move(s[i]) == Die then exists x :: x in s && move(x) == Die else Spared(s, move, i + 1)
  {
  }

  lemma SparedFacts(s: seq<Elem>, move: Elem -> Move)
    ensures Spared(s, move, 0) && (Spared(s, move, |s|) ==> !exists x :: x in s && move(x) == Die)
  {
  }

  /**
    LIST_FOREACH with removal of the visited element: `next` is read before the element moves, so every
    original element is visited exactly once, in order, and each list ends up as a filter of the original.
    It dies exactly if the visitor does; no list operation does.
   */
  method Sweep(ghost ls: set<List>, ghost es: set<Elem>, from: List, first: List, second: List, move: Elem -> Move)
    returns (died: bool)
    requires Pool(ls, es) && {from, first, second} <= ls && from != first && from != second && first != second
    modifies from, first, second, es
    ensures died <==> exists x :: x in old(from.nodes) && move(x) == Die
    ensures !died ==> Pool(ls, es) && Nodes(ls) == Changed(old(Nodes(ls)), from, first, second,
      Filter(old(from.nodes), Bound(move, Stay)),
      old(first.nodes) + Filter(old(from.nodes), Bound(move, ToFirst)),
      old(second.nodes) + Filter(old(from.nodes), Bound(move, ToSecond)))
  {
    hide Pool, List.Valid, Filter, Swept, Bound, Without, Changed, Nodes, Spared;
    ghost var n, s, i, a, b := Nodes(ls), from.nodes, 0, first.nodes, second.nodes;
    SweptStart(s, move, a, b);
    SparedFacts(s, move);
    FirstNode(ls, es, from);
    assert Nodes(ls) == Changed(n, from, first, second, s, a, b) by { ChangedNothing(n, from, first, second); }
    var cursor := from.next;
    while cursor != null
      invariant i <= |s| && cursor == (if i < |s| then s[i] else null)
      invariant Pool(ls, es) && Nodes(ls) == Changed(n, from, first, second, from.nodes, first.nodes, second.nodes)
      invariant Swept(s, move, i, a, b, from.nodes, first.nodes, second.nodes)
      invariant Spared(s, move, i)
      decreases |s| - i
    {
      SparedStep(s, move, i);
      if move(cursor) == Die { return true; }
      cursor := Visit(ls, es, from, first, second, move, cursor, Progress(n, s, i, a, b));
      i := i + 1;
    }
    SweptEnd(s, move, a, b, from.nodes, first.nodes, second.nodes);
    died := false;
  }
}
