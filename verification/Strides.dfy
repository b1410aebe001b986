/**
 Shapes and strides: element counts, row-major strides, and sums of index times stride.

 A shape is a mixed-radix base, so that the flat position of an index is its rank; the address of an
 element is the sum of index times stride, and the two agree for row-major strides. Permuting, dropping
 and inserting dimensions act on the index, the shape and the strides alike, and leave that sum alone.
 */
module Strides {
  import opened Collections
  import opened MixedRadix

  // ---------- counting elements, row-major strides ----------

  method NumEl(shape: seq<nat>) returns (numel: nat)
    ensures numel == Prod(shape)
  {
    numel := 1;
    for i := 0 to |shape|
      invariant numel == Prod(shape[..i])
    {
      assert shape[..i + 1][..i] == shape[..i];
      numel := numel * shape[i];
    }
    assert shape[..|shape|] == shape;
  }

  /** Row-major strides; a shape with an empty dimension gets zero strides throughout. */
  ghost function RowMajor(shape: seq<nat>): (r: seq<nat>)
    ensures |r| == |shape|
  {
    if 0 in shape then seq(|shape|, i => 0) else Weights(shape)
  }

  method Shape2Stride(shape: seq<nat>) returns (stride: seq<nat>)
    ensures stride == RowMajor(shape)
  {
    stride := seq(|shape|, i => 0);
    for i := 0 to |shape|
      invariant 0 !in shape[..i]
    {
      if shape[i] == 0 {
        assert 0 in shape;
        return;
      }
      assert shape[..i + 1] == shape[..i] + [shape[i]];
    }
    assert shape[..|shape|] == shape;
    if |shape| > 0 {
      var d := |shape| - 1;
      stride := stride[d := 1];
      assert shape[d + 1..] == [];
      while d > 0
        invariant 0 <= d < |shape| == |stride|
        invariant forall i | d <= i < |shape| :: stride[i] == Prod(shape[i + 1..])
      {
        ProdTail(shape, d);
        hide Prod;
        stride := stride[d - 1 := stride[d] * shape[d]];
        d := d - 1;
      }
    }
    assert stride == Weights(shape);
  }

  lemma ProdTail(shape: seq<nat>, d: nat)
    requires d < |shape|
    ensures Prod(shape[d..]) == Prod(shape[d + 1..]) * shape[d]
  {
    hide Prod;
    assert shape[d..] == [shape[d]] + shape[d + 1..];
    RankCons(shape[d], shape[d + 1..], 0, shape[d + 1..]);
    MulComm(shape[d], Prod(shape[d + 1..]));
  }

  /** Whether every stride is the running product of the sizes after it. */
  method IsContiguous(shape: seq<nat>, stride: seq<nat>) returns (yes: bool)
    requires |shape| == |stride|
    ensures yes <==> |shape| < 1 || Prod(shape) <= 1 || stride == Weights(shape)
  {
    var numel := NumEl(shape);
    if |shape| < 1 || numel <= 1 {
      return true;
    }
    var contiguous, i := 1, |shape|;
    assert shape[i..] == [];
    while i > 0
      invariant 0 <= i <= |shape| && contiguous == Prod(shape[i..])
      invariant forall j | i <= j < |shape| :: stride[j] == Weights(shape)[j]
    {
      i := i - 1;
      if stride[i] != contiguous {
        return false;
      }
      ProdTail(shape, i);
      hide Prod;
      contiguous := contiguous * shape[i];
    }
    return true;
  }

  // ---------- inserting and removing a dimension ----------

  function Without<T>(s: seq<T>, p: nat): (r: seq<T>)
    requires p < |s|
    ensures |r| == |s| - 1
  {
    s[..p] + s[p + 1..]
  }

  function With<T>(s: seq<T>, p: nat, x: T): (r: seq<T>)
    requires p <= |s|
    ensures |r| == |s| + 1 && r[p] == x && Without(r, p) == s
  {
    assert Without(s[..p] + [x] + s[p..], p) == s;
    s[..p] + [x] + s[p..]
  }

  lemma WithWithout<T>(s: seq<T>, p: nat)
    requires p < |s|
    ensures With(Without(s, p), p, s[p]) == s
  {
  }

  lemma {:induction false} DotAppend(a: seq<int>, b: seq<int>, c: seq<int>, d: seq<int>)
    requires |a| == |c| && |b| == |d|
    ensures Dot(a + b, c + d) == Dot(a, c) + Dot(b, d)
  {
    if b == [] {
      assert a + b == a && c + d == c;
    } else {
      var k := |b| - 1;
      assert (a + b)[..|a + b| - 1] == a + b[..k] && (c + d)[..|c + d| - 1] == c + d[..k];
      DotAppend(a, b[..k], c, d[..k]);
    }
  }

  lemma DotWith(xs: seq<nat>, ys: seq<nat>, p: nat, x: nat, y: nat)
    requires |xs| == |ys| && p <= |xs|
    ensures Dot(With(xs, p, x), With(ys, p, y)) == Dot(xs, ys) + x * y
  {
    assert xs == xs[..p] + xs[p..] && ys == ys[..p] + ys[p..];
    DotAppend(xs[..p], xs[p..], ys[..p], ys[p..]);
    DotAppend(xs[..p] + [x], xs[p..], ys[..p] + [y], ys[p..]);
    DotAppend(xs[..p], [x], ys[..p], [y]);
    assert [x][..0] == [] && [y][..0] == [];
    assert Dot([x], [y]) == x * y;
  }

  /** An index with one coordinate left out is in range exactly when that coordinate and the rest are. */
  lemma InBaseWith(shape: seq<nat>, idx: seq<nat>, p: nat, size: nat, x: nat)
    requires |shape| == |idx| && p <= |shape|
    ensures InBase(With(shape, p, size), With(idx, p, x)) <==> InBase(shape, idx) && x < size
  {
    var s, d := With(shape, p, size), With(idx, p, x);
    forall i | 0 <= i < |shape|
      ensures d[if i < p then i else i + 1] < s[if i < p then i else i + 1] <==> idx[i] < shape[i]
    {
    }
    if InBase(s, d) {
      assert d[p] < s[p];
      forall i | 0 <= i < |shape| ensures idx[i] < shape[i] {
        assert d[if i < p then i else i + 1] < s[if i < p then i else i + 1];
      }
    }
  }

  // ---------- permutations ----------

  ghost predicate Permutation(axes: seq<int>, n: nat) {
    |axes| == n && NoDup(axes) && forall i | 0 <= i < n :: 0 <= axes[i] < n
  }

  function Permuted<T>(s: seq<T>, axes: seq<int>): (r: seq<T>)
    requires forall i | 0 <= i < |axes| :: 0 <= axes[i] < |s|
    ensures |r| == |axes| && forall i | 0 <= i < |axes| :: r[i] == s[axes[i]]
  {
    seq(|axes|, i requires 0 <= i < |axes| => s[axes[i]])
  }

  /** Numbers below a bound without repetition are no more than the bound. */
  lemma {:induction false} Pigeonhole(s: seq<int>, lo: int, hi: int)
    requires NoDup(s) && lo <= hi && forall i | 0 <= i < |s| :: lo <= s[i] < hi
    ensures |s| <= hi - lo
    decreases hi - lo
  {
    if |s| > 0 {
      var x := s[0];
      assert lo <= x < hi;
      if hi - 1 in s {
        var p := IndexOf(s, hi - 1);
        var t := Without(s, p);
        forall i | 0 <= i < |t| ensures lo <= t[i] < hi - 1 {
          assert t[i] == s[if i < p then i else i + 1];
        }
        forall i, j | 0 <= i < j < |t| ensures t[i] != t[j] {
          assert t[i] == s[if i < p then i else i + 1] && t[j] == s[if j < p then j else j + 1];
        }
        Pigeonhole(t, lo, hi - 1);
      } else {
        forall i | 0 <= i < |s| ensures s[i] != hi - 1 {
          var y := s[i];
          assert y in s;
        }
        Pigeonhole(s, lo, hi - 1);
      }
    }
  }

  /** A permutation reaches every axis. */
  lemma PermutationOnto(axes: seq<int>, n: nat, j: nat)
    requires Permutation(axes, n) && j < n
    ensures j in axes
  {
    if j !in axes {
      var more := axes + [j];
      forall a, b | 0 <= a < b < |more| ensures more[a] != more[b] {
        var x := more[a];
        assert x in axes;
      }
      Pigeonhole(more, 0, n);
    }
  }

  function Products(xs: seq<int>, ys: seq<int>): (r: seq<int>)
    requires |xs| == |ys|
    ensures |r| == |xs| && forall i | 0 <= i < |xs| :: r[i] == xs[i] * ys[i]
  {
    seq(|xs|, i requires 0 <= i < |xs| => xs[i] * ys[i])
  }

  function Total(g: seq<int>): int {
    if g == [] then 0 else Total(g[..|g| - 1]) + g[|g| - 1]
  }

  lemma {:induction false} DotIsTotal(xs: seq<int>, ys: seq<int>)
    requires |xs| == |ys|
    ensures Dot(xs, ys) == Total(Products(xs, ys))
  {
    if xs != [] {
      var k := |xs| - 1;
      DotIsTotal(xs[..k], ys[..k]);
      assert Products(xs, ys)[..k] == Products(xs[..k], ys[..k]);
    }
  }

  lemma {:induction false} TotalAppend(a: seq<int>, b: seq<int>)
    ensures Total(a + b) == Total(a) + Total(b)
  {
    if b == [] {
      assert a + b == a;
    } else {
      assert (a + b)[..|a + b| - 1] == a + b[..|b| - 1];
      TotalAppend(a, b[..|b| - 1]);
    }
  }

  lemma TotalWithout(h: seq<int>, p: nat)
    requires p < |h|
    ensures Total(h) == Total(Without(h, p)) + h[p]
  {
    hide Total;
    SplitAt(h, p);
    TotalMiddle(h[..p], h[p], h[p + 1..]);
  }

  lemma SplitAt(h: seq<int>, p: nat)
    requires p < |h|
    ensures h == h[..p] + [h[p]] + h[p + 1..]
  {
  }

  lemma TotalMiddle(a: seq<int>, x: int, b: seq<int>)
    ensures Total(a + [x] + b) == Total(a + b) + x
  {
    hide Total;
    TotalAppend(a + [x], b);
    TotalAppend(a, [x]);
    TotalAppend(a, b);
    TotalSingle(x);
  }

  lemma TotalSingle(x: int)
    ensures Total([x]) == x
  {
    assert [x][..0] == [];
  }

  lemma WithoutLargest(axes: seq<int>, n: nat, p: nat)
    requires Permutation(axes, n + 1) && p <= n && axes[p] == n
    ensures Permutation(Without(axes, p), n)
  {
    var rest := Without(axes, p);
    forall i | 0 <= i < n ensures 0 <= rest[i] < n {
      var i' := if i < p then i else i + 1;
      assert rest[i] == axes[i'] && axes[i'] != axes[p];
    }
    forall i, j | 0 <= i < j < n ensures rest[i] != rest[j] {
      assert rest[i] == axes[if i < p then i else i + 1] && rest[j] == axes[if j < p then j else j + 1];
    }
  }

  lemma PermutedWithout(g: seq<int>, axes: seq<int>, n: nat, p: nat)
    requires |g| == n + 1 == |axes| && p <= n
    requires forall i | 0 <= i < |axes| :: 0 <= axes[i] < |g|
    requires forall i | 0 <= i < n :: 0 <= Without(axes, p)[i] < n
    ensures Permuted(g[..n], Without(axes, p)) == Without(Permuted(g, axes), p)
  {
  }

  /** A sum does not depend on the order of its terms. */
  lemma {:induction false} TotalPermuted(g: seq<int>, axes: seq<int>)
    requires Permutation(axes, |g|)
    ensures Total(Permuted(g, axes)) == Total(g)
    decreases |g|
  {
    if g != [] {
      var n := |g| - 1;
      PermutationOnto(axes, |g|, n);
      var p := IndexOf(axes, n);
      WithoutLargest(axes, n, p);
      TotalPermuted(g[..n], Without(axes, p));
      TotalWithout(Permuted(g, axes), p);
      assert Total(g) == Total(g[..n]) + g[n];
      hide Total, NoDup;
      PermutedWithout(g, axes, n, p);
    }
  }

  lemma DotPermuted(xs: seq<nat>, ys: seq<nat>, axes: seq<int>)
    requires |xs| == |ys| && Permutation(axes, |xs|)
    ensures Dot(Permuted(xs, axes), Permuted(ys, axes)) == Dot(xs, ys)
  {
    hide Dot, Total;
    DotIsTotal(xs, ys);
    DotIsTotal(Permuted(xs, axes), Permuted(ys, axes));
    assert Products(Permuted(xs, axes), Permuted(ys, axes)) == Permuted(Products(xs, ys), axes);
    TotalPermuted(Products(xs, ys), axes);
  }

  /** Undoes a permutation of coordinates. */
  ghost function Unpermuted(idx: seq<nat>, axes: seq<int>): (r: seq<nat>)
    requires Permutation(axes, |idx|)
    ensures |r| == |idx| && Permuted(r, axes) == idx
    ensures forall j | 0 <= j < |idx| :: j in axes && r[j] == idx[IndexOf(axes, j)]
  {
    assert forall j: nat | j < |idx| :: j in axes by {
      forall j: nat | j < |idx| ensures j in axes { PermutationOnto(axes, |idx|, j); }
    }
    IndexOfEvery(axes);
    seq(|idx|, j requires 0 <= j < |idx| => idx[IndexOf(axes, j)])
  }
}
