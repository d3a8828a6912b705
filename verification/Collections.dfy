/** Options, and the sequence operations that the lists and tables share. */
module Collections {
  datatype Option<+T> = None | Some(value: T)

  ghost predicate Distinct<T>(s: seq<T>) {
    forall i, j :: 0 <= i < j < |s| ==> s[i] != s[j]
  }

  function Without<T>(s: seq<T>, k: nat): seq<T>
    requires k < |s|
  {
    s[..k] + s[k + 1..]
  }

  function Filter<T>(s: seq<T>, keep: T -> bool): seq<T> {
    if s == [] then []
    else Filter(s[..|s| - 1], keep) + if keep(s[|s| - 1]) then [s[|s| - 1]] else []
  }

  /** Where an element that is kept goes. */
  lemma {:induction false} FilterPosition<T>(s: seq<T>, keep: T -> bool, i: nat)
    requires i < |s| && keep(s[i])
    ensures var a := |Filter(s[..i], keep)|; a < |Filter(s, keep)| && Filter(s, keep)[a] == s[i]
    decreases |s|
  {
    var n := |s| - 1;
    if i < n {
      FilterPosition(s[..n], keep, i);
      assert s[..n][..i] == s[..i];
    }
  }

  lemma FilterKeepsOrder<T>(s: seq<T>, keep: T -> bool, i: nat, j: nat) returns (a: nat, b: nat)
    requires i < j < |s| && keep(s[i]) && keep(s[j])
    ensures a < b < |Filter(s, keep)| && Filter(s, keep)[a] == s[i] && Filter(s, keep)[b] == s[j]
  {
    FilterPosition(s, keep, i);
    FilterPosition(s, keep, j);
    FilterPosition(s[..j], keep, i);
    assert s[..j][..i] == s[..i];
    a, b := |Filter(s[..i], keep)|, |Filter(s[..j], keep)|;
  }

  lemma {:induction false} FilterMembers<T>(s: seq<T>, keep: T -> bool, x: T)
    ensures x in Filter(s, keep) <==> x in s && keep(x)
  {
    if s != [] {
      FilterMembers(s[..|s| - 1], keep, x);
      assert s == s[..|s| - 1] + [s[|s| - 1]];
    }
  }

  lemma {:induction false} FilterDistinct<T>(s: seq<T>, keep: T -> bool)
    requires Distinct(s)
    ensures Distinct(Filter(s, keep))
  {
    if s != [] {
      FilterDistinct(s[..|s| - 1], keep);
      FilterMembers(s[..|s| - 1], keep, s[|s| - 1]);
    }
  }

  lemma Collide<T>(s: seq<T>, i: nat, j: nat)
    requires Distinct(s) && i < |s| && j < |s| && s[i] == s[j]
    ensures i == j
  {
  }

  lemma DistinctConcat<T>(a: seq<T>, b: seq<T>)
    ensures Distinct(a + b) <==> Distinct(a) && Distinct(b) && forall x :: x in a ==> x !in b
  {
    var s := a + b;
    if Distinct(s) {
      forall i, j | 0 <= i < j < |a| ensures a[i] != a[j] { assert s[i] == a[i] && s[j] == a[j]; }
      forall i, j | 0 <= i < j < |b| ensures b[i] != b[j] { assert s[|a| + i] == b[i] && s[|a| + j] == b[j]; }
      forall x | x in a ensures x !in b {
        var i :| 0 <= i < |a| && a[i] == x;
        if x in b {
          var j :| 0 <= j < |b| && b[j] == x;
          Collide(s, i, |a| + j);
        }
      }
    }
    if Distinct(a) && Distinct(b) && forall x :: x in a ==> x !in b {
      forall i, j | 0 <= i < j < |s| ensures s[i] != s[j] {
        if i < |a| <= j {
          assert s[i] in a && s[j] == b[j - |a|];
        }
      }
    }
  }

  lemma FilterPrefix<T>(s: seq<T>, keep: T -> bool, i: nat)
    requires i < |s|
    ensures Filter(s[..i + 1], keep) == Filter(s[..i], keep) + if keep(s[i]) then [s[i]] else []
  {
    assert s[..i + 1][..i] == s[..i];
  }

  lemma WithoutMembers<T>(s: seq<T>, k: nat)
    requires Distinct(s) && k < |s|
    ensures Distinct(Without(s, k)) && forall x :: x in Without(s, k) <==> x in s && x != s[k]
  {
  }

  lemma CollectStep<T>(s: seq<T>, i: nat, keep: T -> bool, before: seq<T>, now: seq<T>)
    requires i < |s| && now == before + Filter(s[..i], keep)
    ensures (if keep(s[i]) then now + [s[i]] else now) == before + Filter(s[..i + 1], keep)
  {
    FilterPrefix(s, keep, i);
  }

  lemma DropMiddle<T>(a: seq<T>, x: T, b: seq<T>)
    ensures Without(a + ([x] + b), |a|) == a + b && (a + [x]) + b == a + ([x] + b)
  {
  }

  lemma SweepStep<T>(s: seq<T>, i: nat, keep: T -> bool, rest: seq<T>)
    requires i < |s| && rest == Filter(s[..i], keep) + s[i..]
    ensures var k := |Filter(s[..i], keep)|;
      && k < |rest| && rest[k] == s[i] && (k + 1 < |rest| <==> i + 1 < |s|) && (i + 1 < |s| ==> rest[k + 1] == s[i + 1])
      && (if keep(s[i]) then rest else Without(rest, k)) == Filter(s[..i + 1], keep) + s[i + 1..]
  {
    FilterPrefix(s, keep, i);
    assert s[i..] == [s[i]] + s[i + 1..];
    hide Filter;
    DropMiddle(Filter(s[..i], keep), s[i], s[i + 1..]);
  }

  lemma {:induction false} FilterConcat<T>(s: seq<T>, t: seq<T>, keep: T -> bool)
    ensures Filter(s + t, keep) == Filter(s, keep) + Filter(t, keep)
    decreases |t|
  {
    if t == [] {
      assert s + t == s;
    } else {
      var front := t[..|t| - 1];
      assert (s + t)[..|s + t| - 1] == s + front;
      FilterConcat(s, front, keep);
    }
  }

  lemma {:induction false} FilterTwice<T>(s: seq<T>, f: T -> bool)
    ensures Filter(Filter(s, f), f) == Filter(s, f)
  {
    if s != [] {
      var front, last := s[..|s| - 1], s[|s| - 1];
      FilterTwice(front, f);
      if f(last) {
        FilterConcat(Filter(front, f), [last], f);
        assert Filter([last], f) == [last];
      } else {
        assert Filter(s, f) == Filter(front, f);
      }
    }
  }

  lemma FilterSplitsAt<T>(s: seq<T>, f: T -> bool, i: nat)
    requires i < |s| && f(s[i])
    ensures Filter(s, f) == Filter(s[..i], f) + ([s[i]] + Filter(s[i + 1..], f))
  {
    assert s == s[..i + 1] + s[i + 1..];
    FilterConcat(s[..i + 1], s[i + 1..], f);
    FilterPrefix(s, f, i);
  }
}
