/**
 Small facts about sequences and sets that the C++ standard library provides.

 A `std::find` is `IndexOf`, a `std::set` or a sorted vector of distinct numbers is `Sorted`,
 and `NoDup` is what a vector without repeated elements satisfies. An increasing sequence is
 determined by its elements, which is how sorted results are compared.
 */
module Collections {

  datatype Option<+T> = None | Some(value: T)

  ghost predicate NoDup<T>(s: seq<T>) {
    forall i, j | 0 <= i < j < |s| :: s[i] != s[j]
  }

  lemma NoDupMiddle<T>(a: seq<T>, b: seq<T>, c: seq<T>, t: T)
    requires NoDup(a + b + c) && t in b
    ensures t !in a && NoDup(b)
  {
    var s := a + b + c;
    forall i, j | 0 <= i < j < |b| ensures b[i] != b[j] {
      assert s[|a| + i] != s[|a| + j];
    }
    var j := IndexOf(b, t);
    assert s[|a| + j] == t;
    forall i | 0 <= i < |a| ensures a[i] != t {
      assert s[i] == a[i] && s[i] != s[|a| + j];
    }
  }

  function IndexOf<T(==)>(s: seq<T>, x: T): (i: nat)
    requires x in s
    ensures i < |s| && s[i] == x
  {
    if s[0] == x then 0 else
      assert s == [s[0]] + s[1..];
      1 + IndexOf(s[1..], x)
  }

  /** The first place of a member of a prefix is its first place in the whole. */
  lemma {:induction false} IndexOfPrefix<T>(s: seq<T>, n: nat, x: T)
    requires n <= |s| && x in s[..n]
    ensures x in s && IndexOf(s, x) == IndexOf(s[..n], x) < n
  {
    assert s[..n][0] == s[0];
    if s[0] != x {
      assert s[..n] == [s[0]] + s[1..][..n - 1];
      assert s == [s[0]] + s[1..];
      assert s[..n][1..] == s[1..][..n - 1];
      IndexOfPrefix(s[1..], n - 1, x);
    }
  }

  lemma IndexOfEvery<T>(s: seq<T>)
    requires NoDup(s)
    ensures forall i | 0 <= i < |s| :: IndexOf(s, s[i]) == i
  {
  }

  lemma MinExists(s: set<int>) returns (k: int)
    requires s != {}
    ensures IsMin(k, s)
  {
    assert (forall j :: j !in s) ==> s == {};
    k :| k in s;
    if s != {k} {
      var k' := MinExists(s - {k});
      assert forall j <- s :: j == k || j in s - {k};
      if k' < k { k := k'; }
    }
  }

  /** The elements of a set in ascending order. */
  function Sorted(s: set<int>): (r: seq<int>)
    ensures forall x :: x in r <==> x in s
    ensures forall i, j | 0 <= i < j < |r| :: r[i] < r[j]
  {
    if s == {} then [] else
      assert exists k :: IsMin(k, s) by { var k := MinExists(s); }
      var k :| IsMin(k, s);
      SortedCons(k, s, Sorted(s - {k}));
      [k] + Sorted(s - {k})
  }

  predicate IsMin(k: int, s: set<int>) {
    k in s && forall j <- s :: k <= j
  }

  lemma SortedCons(k: int, s: set<int>, r: seq<int>)
    requires IsMin(k, s)
    requires forall x :: x in r <==> x in s - {k}
    requires forall i, j | 0 <= i < j < |r| :: r[i] < r[j]
    ensures forall x :: x in [k] + r <==> x in s
    ensures forall i, j | 0 <= i < j < |r| + 1 :: ([k] + r)[i] < ([k] + r)[j]
  {
    forall j | 0 <= j < |r| ensures k < r[j] {
      assert r[j] in r;
    }
  }

  ghost predicate Increasing(s: seq<int>) {
    forall i, j | 0 <= i < j < |s| :: s[i] < s[j]
  }

  /** An increasing sequence is determined by its elements. */
  lemma {:induction false} IncreasingUnique(a: seq<int>, b: seq<int>)
    requires Increasing(a) && Increasing(b) && forall x :: x in a <==> x in b
    ensures a == b
  {
    SameEmptiness(a, b);
    SameEmptiness(b, a);
    if |a| > 0 {
      assert a[0] == b[0] by {
        var i := IndexOf(b, a[0]);
        var j := IndexOf(a, b[0]);
      }
      forall x ensures x in a[1..] <==> x in b[1..] {
        TailMember(a, x);
        TailMember(b, x);
      }
      IncreasingUnique(a[1..], b[1..]);
      assert a == [a[0]] + a[1..] && b == [b[0]] + b[1..];
    }
  }

  lemma SameEmptiness(a: seq<int>, b: seq<int>)
    requires forall x :: x in a <==> x in b
    ensures |a| > 0 ==> |b| > 0
  {
    if |a| > 0 {
      var x := a[0];
      assert x in a;
      assert x in b;
    }
  }

  lemma TailMember(a: seq<int>, x: int)
    requires Increasing(a) && |a| > 0
    ensures x in a[1..] <==> x in a && x != a[0]
  {
    if x in a && x != a[0] {
      var i := IndexOf(a, x);
      assert a[1..][i - 1] == x;
    }
    if x in a[1..] {
      var i := IndexOf(a[1..], x);
      assert a[i + 1] == x;
    }
  }

  /** Cutting off the elements below a bound leaves the sorted elements above it. */
  lemma SortedSuffix(s: set<int>, t: set<int>, i: nat)
    requires i <= |Sorted(s)| && t <= s
    requires forall j | 0 <= j < i :: Sorted(s)[j] !in t
    requires forall j | i <= j < |Sorted(s)| :: Sorted(s)[j] in t
    ensures Sorted(s)[i..] == Sorted(t)
  {
    hide Sorted;
    var all := Sorted(s);
    forall x ensures x in all[i..] <==> x in t {
      if x in t {
        var j := IndexOf(all, x);
        assert all[i..][j - i] == x;
      }
    }
    IncreasingUnique(all[i..], Sorted(t));
  }
}
